/** The Redis task queue as a state machine; every script, and every read-modify-write around one, is one step. */
module RedisQueue {
  import opened Wrappers
  import opened TaskRecords
  import opened InMemoryQueue

  /** `symbols` indexes one ordinary task per symbol; `count` caches the number of active tasks. */
  datatype Redis = Redis(
    tasks: Tasks,
    queue: seq<Id>,
    symbols: map<Symbol, Id>,
    aliases: map<Id, Id>,
    count: int,
    lease: Option<Lease>)

  datatype RedisOutcome = RedisOutcome(redis: Redis, reply: Reply)

  const EMPTY_REDIS := Redis(map[], [], map[], map[], 0, None)

  /** The lease key disappears when its time is over. */
  function LiveKeys(r: Redis, now: int): Redis {
    if r.lease.Some? && now >= r.lease.value.expiresAt then r.(lease := None) else r
  }

  // ------------------------------------------------------------- submissions

  /** A new task under its own id. */
  function Stored(r: Redis, task: Task, cap: nat): (o: RedisOutcome)
    ensures WellKeyed(r.tasks) ==> WellKeyed(o.redis.tasks)
  {
    if r.count >= cap then RedisOutcome(r, QueueFull)
    else
      RedisOutcome(r.(tasks := r.tasks[task.id := task], queue := r.queue + [task.id],
                      symbols := r.symbols[task.symbol := task.id], count := r.count + 1),
                   Answer(task))
  }

  function RedisEnqueued(r: Redis, task: Task, cap: nat): (o: RedisOutcome)
    ensures WellKeyed(r.tasks) ==> WellKeyed(o.redis.tasks)
  {
    if task.maintenance.Some? then RedisOutcome(r, Invalid) else Stored(r, task, cap)
  }

  function RedisSubmitted(r: Redis, task: Task, cap: nat, now: int): (o: RedisOutcome)
    ensures WellKeyed(r.tasks) ==> WellKeyed(o.redis.tasks)
  {
    if task.maintenance.Some? then RedisOutcome(r, Invalid)
    else
      var l := LiveKeys(r, now);
      if task.symbol !in l.symbols then Stored(l, task, cap)
      else
        var id := l.symbols[task.symbol];
        if id !in l.tasks || BoundId(l.lease) == Some(id) || l.tasks[id].maintenance.Some? then
          Stored(l.(symbols := l.symbols - {task.symbol}), task, cap)
        else if Active(l.tasks[id].status) then RedisOutcome(l, Answer(l.tasks[id]))
        else if l.count >= cap then RedisOutcome(l, QueueFull)
        else
          var again := task.(id := id);
          RedisOutcome(l.(tasks := l.tasks[id := again], queue := Without(l.queue, {id}) + [id], count := l.count + 1), Answer(again))
  }

  // ------------------------------------------------------- claims and recovery

  /** What is left of the list once ids were popped up to and including the first queued ordinary one. */
  function Popped(queue: seq<Id>, tasks: Tasks): seq<Id> {
    if queue == [] then []
    else if queue[0] in tasks && tasks[queue[0]].status.Queued? && Ordinary(tasks[queue[0]]) then queue[1..]
    else Popped(queue[1..], tasks)
  }

  function RedisClaimed(r: Redis, now: int): (o: RedisOutcome)
    ensures WellKeyed(r.tasks) ==> WellKeyed(o.redis.tasks)
  {
    var l := LiveKeys(r, now);
    match NextId(View(l))
    case None => RedisOutcome(if l.lease.Some? then l else l.(queue := Popped(l.queue, l.tasks)), Nothing)
    case Some(id) =>
      var task := Claimed(l.tasks[id], now);
      RedisOutcome(l.(tasks := l.tasks[id := task],
                      queue := if l.lease.Some? then Without(l.queue, {id}) else Popped(l.queue, l.tasks)),
                   Answer(task))
  }

  predicate Earlier(a: Task, b: Task) {
    a.createdAt < b.createdAt || (a.createdAt == b.createdAt && a.id < b.id)
  }

  predicate IsEarliest(tasks: Tasks, ids: set<Id>, id: Id)
    requires ids <= tasks.Keys
  {
    id in ids && forall other <- ids :: other != id ==> Earlier(tasks[id], tasks[other])
  }

  lemma {:induction false} EarliestExists(tasks: Tasks, ids: set<Id>)
    requires WellKeyed(tasks) && ids <= tasks.Keys && ids != {}
    ensures exists id :: IsEarliest(tasks, ids, id)
    decreases |ids|
  {
    var x :| x in ids;
    var rest := ids - {x};
    if rest == {} {
      assert ids == {x};
      assert IsEarliest(tasks, ids, x);
    } else {
      EarliestExists(tasks, rest);
      var first :| IsEarliest(tasks, rest, first);
      assert ids == rest + {x};
      assert IsEarliest(tasks, ids, if Earlier(tasks[x], tasks[first]) then x else first);
    }
  }

  function Earliest(tasks: Tasks, ids: set<Id>): (id: Id)
    requires WellKeyed(tasks) && ids <= tasks.Keys && ids != {}
    ensures IsEarliest(tasks, ids, id)
  {
    EarliestExists(tasks, ids);
    var id :| IsEarliest(tasks, ids, id);
    id
  }

  /** The ids by creation time, ties by id. */
  function InCreationOrder(tasks: Tasks, ids: set<Id>): (r: seq<Id>)
    requires WellKeyed(tasks) && ids <= tasks.Keys
    ensures forall x :: x in r <==> x in ids
    decreases |ids|
  {
    if ids == {} then []
    else
      var first := Earliest(tasks, ids);
      [first] + InCreationOrder(tasks, ids - {first})
  }

  /** Older tasks come first; of two created at once, the one with the smaller id. */
  lemma {:induction false} CreationOrderMeans(tasks: Tasks, ids: set<Id>, i: nat, j: nat)
    requires WellKeyed(tasks) && ids <= tasks.Keys && i < j < |InCreationOrder(tasks, ids)|
    ensures var r := InCreationOrder(tasks, ids);
            && r[i] in tasks && r[j] in tasks && r[i] != r[j]
            && (tasks[r[i]].createdAt < tasks[r[j]].createdAt
                || (tasks[r[i]].createdAt == tasks[r[j]].createdAt && tasks[r[i]].id < tasks[r[j]].id))
    decreases i
  {
    var first := Earliest(tasks, ids);
    var rest := InCreationOrder(tasks, ids - {first});
    assert InCreationOrder(tasks, ids)[j] == rest[j - 1] && rest[j - 1] in rest;
    if i > 0 {
      CreationOrderMeans(tasks, ids - {first}, i - 1, j - 1);
    }
  }

  function RunningIds(tasks: Tasks): set<Id> {
    set id | id in tasks && tasks[id].status.Running?
  }

  function RedisRecovered(r: Redis, now: int): (o: Redis)
    requires WellKeyed(r.tasks)
    ensures WellKeyed(r.tasks) ==> WellKeyed(o.tasks)
  {
    r.(tasks := RecoveredTasks(r.tasks, now), queue := InCreationOrder(r.tasks, RunningIds(r.tasks)) + r.queue)
  }

  // -------------------------------------------------- administrator's changes

  /** What the store answers once a script declined to act. */
  function Declined(r: Redis, name: Id): Reply {
    var id := Resolved(r.aliases, name);
    if id !in r.tasks then Missing else if r.tasks[id].status.Queued? then Answer(r.tasks[id]) else Invalid
  }

  predicate ReservedKeys(l: Redis, id: Id)
    requires id in l.tasks
  {
    l.tasks[id].maintenance.Some? || BoundId(l.lease) == Some(id)
  }

  function RedisRequeued(r: Redis, id: Id, now: int): (o: RedisOutcome)
    ensures WellKeyed(r.tasks) ==> WellKeyed(o.redis.tasks)
  {
    var l := LiveKeys(r, now);
    if id !in l.tasks then RedisOutcome(l, Declined(l, id))
    else if ReservedKeys(l, id) then RedisOutcome(l, Invalid)
    else if !l.tasks[id].status.WaitingAdmin? then RedisOutcome(l, Declined(l, id))
    else
      var task := Requeued(l.tasks[id], now);
      RedisOutcome(l.(tasks := l.tasks[id := task], queue := l.queue + [id]), Answer(task))
  }

  function RedisRetried(r: Redis, id: Id, now: int): (o: RedisOutcome)
    ensures WellKeyed(r.tasks) ==> WellKeyed(o.redis.tasks)
  {
    var l := LiveKeys(r, now);
    if id !in l.tasks then RedisOutcome(l, Declined(l, id))
    else if ReservedKeys(l, id) then RedisOutcome(l, Invalid)
    else if l.tasks[id].status.Queued? then RedisOutcome(l, Answer(l.tasks[id]))
    else if !l.tasks[id].status.Failed? then RedisOutcome(l, Declined(l, id))
    else
      var task := Recovered(l.tasks[id], now);
      RedisOutcome(l.(tasks := l.tasks[id := task], queue := l.queue + [id], count := l.count + 1), Answer(task))
  }

  function RedisRefreshed(r: Redis, name: Id, longCapture: Option<bool>, cap: nat, now: int): (o: RedisOutcome)
    ensures WellKeyed(r.tasks) ==> WellKeyed(o.redis.tasks)
  {
    var l := LiveKeys(r, now);
    var id := Resolved(l.aliases, name);
    if id !in l.tasks then RedisOutcome(l, Missing)
    else if ReservedKeys(l, id) then RedisOutcome(l, Invalid)
    else if Active(l.tasks[id].status) then RedisOutcome(l, Answer(l.tasks[id]))
    else if l.count >= cap then RedisOutcome(l, QueueFull)
    else
      var task := Reset(l.tasks[id], longCapture, now);
      RedisOutcome(l.(tasks := l.tasks[id := task], queue := l.queue + [id], count := l.count + 1), Answer(task))
  }

  function RedisReported(r: Redis, name: Id, p: Progress, now: int): (o: RedisOutcome)
    ensures WellKeyed(r.tasks) ==> WellKeyed(o.redis.tasks)
  {
    var id := Resolved(r.aliases, name);
    if id !in r.tasks then RedisOutcome(r, Missing)
    else match Progressed(r.tasks[id], p, now)
      case None => RedisOutcome(r, Invalid)
      case Some(task) =>
        var delta := One(Active(task.status)) - One(Active(r.tasks[id].status));
        RedisOutcome(r.(tasks := r.tasks[id := task], count := r.count + delta), Answer(task))
  }

  // -------------------------------------------- leases, removal, reconciliation

  function RedisAcquired(r: Redis, owner: Owner, ttl: int, now: int): (o: RedisOutcome)
    ensures WellKeyed(r.tasks) ==> WellKeyed(o.redis.tasks)
  {
    var l := LiveKeys(r, now);
    if !ValidTtl(ttl) || l.lease.Some? || AnyBusy(l.tasks) then RedisOutcome(l, Flag(false))
    else RedisOutcome(l.(lease := Some(Lease(owner, Some(Digest(owner)), None, now + ttl))), Flag(true))
  }

  function RedisRenewed(r: Redis, owner: Owner, ttl: int, now: int): (o: RedisOutcome)
    ensures WellKeyed(r.tasks) ==> WellKeyed(o.redis.tasks)
  {
    var l := LiveKeys(r, now);
    if !ValidTtl(ttl) || !OwnedBy(l.lease, owner) then RedisOutcome(l, Flag(false))
    else RedisOutcome(l.(lease := Some(l.lease.value.(digest := Some(Digest(owner)), expiresAt := now + ttl))), Flag(true))
  }

  /** The bind script counts the active tasks itself and leaves `count` alone. */
  function RedisBound(r: Redis, owner: Owner, task: Task, cap: nat, now: int): (o: RedisOutcome)
    ensures WellKeyed(r.tasks) ==> WellKeyed(o.redis.tasks)
  {
    var l := LiveKeys(r, now);
    if !ValidAcceptance(task) || !OwnedBy(l.lease, owner) then RedisOutcome(l, Nothing)
    else
      var candidate := task.(maintenance := Some(Digest(owner)));
      var signed := l.(lease := Some(l.lease.value.(digest := Some(Digest(owner)))));
      if l.lease.value.bound.Some? then RedisBoundAgain(signed, l.lease.value.bound.value, candidate, cap)
      else if task.id in l.tasks || ActiveCount(l.tasks) >= cap then RedisOutcome(signed, Nothing)
      else
        RedisOutcome(signed.(tasks := l.tasks[task.id := candidate], queue := l.queue + [task.id],
                             lease := Some(signed.lease.value.(bound := Some(task.id)))),
                     Answer(candidate))
  }

  /** The bound task marked, and out of the symbol index. */
  function Marked(r: Redis, bound: Id, mark: Option<Digest>): (o: Redis)
    requires bound in r.tasks
    ensures WellKeyed(r.tasks) ==> WellKeyed(o.tasks)
  {
    r.(tasks := r.tasks[bound := r.tasks[bound].(maintenance := mark)],
       symbols := if ACCEPTANCE_SYMBOL in r.symbols && r.symbols[ACCEPTANCE_SYMBOL] == bound
                  then r.symbols - {ACCEPTANCE_SYMBOL} else r.symbols)
  }

  function RedisBoundAgain(r: Redis, bound: Id, candidate: Task, cap: nat): (o: RedisOutcome)
    ensures WellKeyed(r.tasks) ==> WellKeyed(o.redis.tasks)
  {
    if bound !in r.tasks then RedisOutcome(r, Nothing)
    else
      var existing := r.tasks[bound];
      if existing.id != bound || existing.symbol != ACCEPTANCE_SYMBOL || existing.includeLongCapture
         || (existing.maintenance.Some? && existing.maintenance != candidate.maintenance)
      then RedisOutcome(r, Nothing)
      else
        var marked := Marked(r, bound, candidate.maintenance);
        if !Retryable(existing) then RedisOutcome(marked, Answer(marked.tasks[bound]))
        else if ActiveCount(r.tasks) >= cap then RedisOutcome(marked, Nothing)
        else
          var again := candidate.(id := bound);
          RedisOutcome(marked.(tasks := marked.tasks[bound := again], queue := Without(r.queue, {bound}) + [bound]), Answer(again))
  }

  /** The keys of the tasks in `ids` removed, with the queue entries. */
  function RedisWithout(r: Redis, ids: set<Id>, symbols: map<Symbol, Id>, aliases: map<Id, Id>): (o: Redis)
    ensures WellKeyed(r.tasks) ==> WellKeyed(o.tasks)
  {
    r.(tasks := r.tasks - ids, queue := Without(r.queue, ids), symbols := symbols, aliases := aliases)
  }

  function RedisReleased(r: Redis, owner: Owner, now: int): (o: RedisOutcome)
    requires WellKeyed(r.tasks)
    ensures WellKeyed(r.tasks) ==> WellKeyed(o.redis.tasks)
  {
    var l := LiveKeys(r, now);
    if !OwnedBy(l.lease, owner) then RedisOutcome(l, Flag(false))
    else match l.lease.value.bound
      case None => RedisOutcome(l.(lease := None), Flag(true))
      case Some(id) =>
        if id in l.tasks && (ValidBound(l.tasks[id], id, Digest(owner)) || ValidLegacyBound(l.tasks[id], id)) then
          var others := Candidates(l.tasks, l.tasks[id].symbol, Some(id));
          var symbols := if others == {} then l.symbols - {l.tasks[id].symbol} else l.symbols[l.tasks[id].symbol := Canonical(l.tasks, others)];
          RedisOutcome(RedisWithout(l, {id}, symbols, Removed(Mem(l.tasks, [], l.aliases, None), id).aliases).(lease := None), Flag(true))
        else RedisOutcome(l, Flag(false))
  }

  function RedisReconciled(r: Redis): (o: Redis)
    ensures WellKeyed(r.tasks) ==> WellKeyed(o.tasks)
  {
    r.(count := ActiveCount(r.tasks))
  }

  function View(r: Redis): Mem {
    Mem(r.tasks, r.queue, r.aliases, r.lease)
  }

  /** With no lease about, every maintenance task goes; malformed ones make the script refuse the whole pass. */
  function CleanupTargets(l: Redis): set<Id> {
    var marked := set id | id in l.tasks && l.tasks[id].maintenance.Some?;
    if l.lease.Some? || (exists id <- marked :: l.tasks[id].symbol != ACCEPTANCE_SYMBOL || l.tasks[id].includeLongCapture) then {}
    else marked
  }

  function RedisCleanedUp(r: Redis, now: int): (o: Redis)
    requires WellKeyed(r.tasks)
    ensures WellKeyed(o.tasks)
  {
    var l := LiveKeys(r, now);
    var others := Candidates(l.tasks, ACCEPTANCE_SYMBOL, None);
    var symbols := if others == {} then l.symbols - {ACCEPTANCE_SYMBOL} else l.symbols[ACCEPTANCE_SYMBOL := Canonical(l.tasks, others)];
    RedisWithout(l, CleanupTargets(l), if CleanupTargets(l) == {} then l.symbols else symbols, l.aliases)
  }

  /** Every symbol with ordinary tasks is indexed under its keeper; an index entry of a reserved task goes. */
  function Reindexed(l: Redis): map<Symbol, Id>
    requires WellKeyed(l.tasks)
  {
    var stale := set s | s in l.symbols && l.symbols[s] in l.tasks && ReservedKeys(l, l.symbols[s]) :: s;
    var grouped := set id | id in l.tasks && Keeper(View(l), l.tasks[id].symbol).Some? :: l.tasks[id].symbol;
    (l.symbols - stale) + map s | s in grouped && Keeper(View(l), s).Some? :: Keeper(View(l), s).value
  }

  function RedisDeduplicated(r: Redis, now: int): (o: Redis)
    requires WellKeyed(r.tasks)
    ensures WellKeyed(o.tasks)
  {
    var l := LiveKeys(r, now);
    RedisWithout(l, Duplicates(View(l)), Reindexed(l), Merged(View(l), Duplicates(View(l))).aliases)
  }

  datatype RedisOp = Shared(op: Op) | Reconcile

  function RedisStep(r: Redis, op: RedisOp, cap: nat, now: int): (o: RedisOutcome)
    requires WellKeyed(r.tasks)
    ensures WellKeyed(o.redis.tasks)
  {
    match op
    case Reconcile => RedisOutcome(RedisReconciled(r), Nothing)
    case Shared(Enqueue(task)) => RedisEnqueued(r, task, cap)
    case Shared(Submit(task)) => RedisSubmitted(r, task, cap, now)
    case Shared(Claim) => RedisClaimed(r, now)
    case Shared(Recover) => RedisOutcome(RedisRecovered(r, now), Nothing)
    case Shared(Requeue(id)) => RedisRequeued(r, id, now)
    case Shared(Retry(id)) => RedisRetried(r, id, now)
    case Shared(Refresh(id, longCapture)) => RedisRefreshed(r, id, longCapture, cap, now)
    case Shared(Report(id, p)) => RedisReported(r, id, p, now)
    case Shared(Deduplicate) => RedisOutcome(RedisDeduplicated(r, now), Nothing)
    case Shared(Acquire(owner, ttl)) => RedisAcquired(r, owner, ttl, now)
    case Shared(Renew(owner, ttl)) => RedisRenewed(r, owner, ttl, now)
    case Shared(Bind(owner, task)) => RedisBound(r, owner, task, cap, now)
    case Shared(Release(owner)) => RedisReleased(r, owner, now)
    case Shared(Cleanup) => RedisOutcome(RedisCleanedUp(r, now), Nothing)
  }
}
