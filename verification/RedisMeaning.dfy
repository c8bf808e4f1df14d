/** What the Redis scripts do to the symbol index, the list and the counter, where memory has none of them. */
module RedisMeaning {
  import opened Wrappers
  import opened TaskRecords
  import opened InMemoryQueue
  import opened RedisQueue

  lemma EnqueueMeans(r: Redis, task: Task, cap: nat)
    ensures
      RedisEnqueued(r, task, cap)
      == if task.maintenance != None then RedisOutcome(r, Invalid)
         else if r.count >= cap then RedisOutcome(r, QueueFull)
         else RedisOutcome(Redis(r.tasks[task.id := task], r.queue + [task.id], r.symbols[task.symbol := task.id], r.aliases, r.count + 1, r.lease),
                           Answer(task))
  {
  }

  /** The ordinary tasks of a symbol, without the one the lease is bound to. */
  function Of(tasks: Tasks, symbol: Symbol, bound: Option<Id>): set<Id> {
    set id | id in tasks && tasks[id].symbol == symbol && tasks[id].maintenance == None && bound != Some(id)
  }

  /** The owner's release takes the bound task out of the index, which falls back on the canonical ordinary task if there is one. */
  lemma IndexAfterRelease(r: Redis, owner: Owner, now: int, id: Id)
    requires WellKeyed(r.tasks) && id in r.tasks && r.tasks[id].maintenance == Some(Digest(owner))
    requires r.tasks[id].symbol == 601872 && !r.tasks[id].includeLongCapture
    requires r.lease.Some? && now < r.lease.value.expiresAt
    requires r.lease.value.owner == owner && r.lease.value.digest == Some(Digest(owner)) && r.lease.value.bound == Some(id)
    ensures
      var o := RedisReleased(r, owner, now);
      var others := Of(r.tasks, 601872, Some(id));
      && o.reply == Flag(true) && o.redis.lease.None? && o.redis.count == r.count
      && o.redis.tasks == r.tasks - {id} && o.redis.queue == Without(r.queue, {id})
      && o.redis.symbols == if others == {} then r.symbols - {601872} else r.symbols[601872 := Canonical(r.tasks, others)]
  {
    hide Canonical, Without;
    assert Candidates(r.tasks, 601872, Some(id)) == Of(r.tasks, 601872, Some(id));
  }

  /** After a merge every symbol with ordinary tasks is indexed under the canonical one. */
  lemma IndexAfterMerge(r: Redis, now: int, some: Id)
    requires WellKeyed(r.tasks) && some in r.tasks && r.tasks[some].maintenance == None
    requires r.lease.Some? ==> r.lease.value.bound != Some(some)
    ensures
      var o := RedisDeduplicated(r, now);
      var bound := if r.lease.Some? && now < r.lease.value.expiresAt then r.lease.value.bound else None;
      var ids := Of(r.tasks, r.tasks[some].symbol, bound);
      ids != {} && r.tasks[some].symbol in o.symbols && o.symbols[r.tasks[some].symbol] == Canonical(r.tasks, ids)
      && o.count == r.count
  {
    hide Canonical, Without, Merged, Duplicates;
    var l := LiveKeys(r, now);
    var symbol := r.tasks[some].symbol;
    assert some in Of(r.tasks, symbol, BoundId(l.lease));
    assert Candidates(l.tasks, symbol, BoundId(l.lease)) == Of(r.tasks, symbol, BoundId(l.lease));
    assert Keeper(View(l), symbol) == Some(Canonical(r.tasks, Of(r.tasks, symbol, BoundId(l.lease))));
  }

  /**
   A clean-up removes the acceptance tasks exactly while no lease lives and all of them are well-formed; then, and only if
   there was one, the index of their symbol falls back as above. The counter stays.
   */
  lemma CleanupMeans(r: Redis, now: int, id: Id)
    requires WellKeyed(r.tasks) && id in r.tasks
    ensures
      var o := RedisCleanedUp(r, now);
      var passes := !(r.lease.Some? && now < r.lease.value.expiresAt)
        && forall x <- r.tasks :: r.tasks[x].maintenance != None ==> r.tasks[x].symbol == 601872 && !r.tasks[x].includeLongCapture;
      var others := Of(r.tasks, 601872, None);
      && o.count == r.count && o.aliases == r.aliases
      && (id !in o.tasks <==> passes && r.tasks[id].maintenance != None)
      && (id in o.tasks ==> o.tasks[id] == r.tasks[id]) && o.tasks.Keys <= r.tasks.Keys
      && (id !in o.tasks ==>
            o.symbols == if others == {} then r.symbols - {601872} else r.symbols[601872 := Canonical(r.tasks, others)])
      && (o.tasks.Keys == r.tasks.Keys ==> o.symbols == r.symbols)
  {
    hide Canonical, Without;
    assert Candidates(r.tasks, 601872, None) == Of(r.tasks, 601872, None);
    var l := LiveKeys(r, now);
    var marked := set x | x in l.tasks && l.tasks[x].maintenance.Some?;
    assert id in marked <==> r.tasks[id].maintenance != None;
    if x :| x in r.tasks && r.tasks[x].maintenance != None && !(r.tasks[x].symbol == 601872 && !r.tasks[x].includeLongCapture) {
      assert x in marked;
    }
  }
}
