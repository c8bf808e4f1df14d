/** The Redis queue and the in-memory queue, call by call: when they answer alike and when they stay alike. */
module QueueSimulation {
  import opened Wrappers
  import opened TaskRecords
  import opened InMemoryQueue
  import opened QueueInvariants
  import opened RedisQueue
  import opened LeaseAgreement

  // --------------------------------------------------------- the abstraction

  predicate InQueue(tasks: Tasks, id: Id) {
    id in tasks && tasks[id].status.Queued? && Ordinary(tasks[id])
  }

  /** Every symbol with ordinary tasks is indexed under its only one. */
  ghost predicate Indexed(r: Redis) {
    && (forall id <- r.tasks :: Ordinary(r.tasks[id]) ==> r.tasks[id].symbol in r.symbols && r.symbols[r.tasks[id].symbol] == id)
    && (forall s <- r.symbols :: r.symbols[s] in r.tasks && Ordinary(r.tasks[r.symbols[s]]) && r.tasks[r.symbols[s]].symbol == s)
  }

  /** Both lists hold only ids of tasks; the deque holds all ordinary ones. */
  ghost predicate ListsKnown(tasks: Tasks, fifo: seq<Id>, queue: seq<Id>) {
    && (forall id <- fifo :: id in tasks)
    && (forall id <- queue :: id in tasks)
    && (forall id <- tasks :: Ordinary(tasks[id]) ==> id in fifo)
  }

  /** The queued ordinary ids are the same, in the same order. */
  ghost predicate ListsMatch(tasks: Tasks, fifo: seq<Id>, queue: seq<Id>) {
    QueuedOf(fifo, tasks) == QueuedOf(queue, tasks) && ListsKnown(tasks, fifo, queue)
  }

  /** The same tasks under the same lease, matching lists, one ordinary task per symbol. */
  ghost predicate Alike(m: Mem, r: Redis, now: int) {
    SameStore(m, r, now) && m.aliases == map[] && ListsMatch(m.tasks, m.fifo, r.queue) && Indexed(r)
  }

  ghost predicate Matches(m: Mem, r: Redis, now: int) {
    Alike(m, r, now) && Sound(m)
  }

  /** What both stores offer, but for `enqueue`, which does not look for an older task of the symbol. */
  predicate Common(op: Op) {
    !op.Enqueue?
  }

  // --------------------------------------------------- where the stores differ

  /** Requeueing a queued task is an error in memory and answered with the task in Redis. */
  predicate RequeuesQueued(m: Mem, op: Op) {
    op.Requeue? && InQueue(m.tasks, op.id)
  }

  /** The call would put a task into the queue, if there is room. */
  predicate AsksAdmission(tasks: Tasks, op: Op) {
    (op.Submit? && Ordinary(op.task)
     && forall id <- tasks :: Ordinary(tasks[id]) && tasks[id].symbol == op.task.symbol ==> !Active(tasks[id].status))
    || (op.Refresh? && op.id in tasks && Ordinary(tasks[op.id]) && !Active(tasks[op.id].status))
  }

  /** Redis asks its counter and memory counts; this call is admitted by one of them only. */
  predicate Split(r: Redis, op: Op, cap: nat) {
    AsksAdmission(r.tasks, op) && (r.count >= cap) != (ActiveCount(r.tasks) >= cap)
  }

  /**
   * The calls after which the stores are no longer alike, though they may have answered alike: putting an id at
   * the end of the Redis list that is still in it, recovering running tasks in another order than the deque has
   * them, and cleaning up under a lease.
   */
  predicate Diverges(m: Mem, r: Redis, op: Op, cap: nat, now: int)
    requires WellKeyed(r.tasks)
  {
    match op
    case Requeue(id) => id in r.queue && id in r.tasks && Ordinary(r.tasks[id]) && r.tasks[id].status.WaitingAdmin?
    case Retry(id) => id in r.queue && id in r.tasks && Ordinary(r.tasks[id]) && r.tasks[id].status.Failed?
    case Refresh(id, _) => id in r.queue && id in r.tasks && Ordinary(r.tasks[id]) && !Active(r.tasks[id].status) && r.count < cap
    case Recover =>
      QueuedOf(m.fifo, RecoveredTasks(m.tasks, now))
      != QueuedOf(InCreationOrder(r.tasks, RunningIds(r.tasks)) + r.queue, RecoveredTasks(r.tasks, now))
    case Cleanup => Live(m, now).lease.Some? && Leftovers(Live(m, now)) != {}
    case _ => false
  }

  // ---------------------------------------------------- queued ids, changed

  /** A task that stops being queued leaves the queued ids. */
  lemma {:induction false} QueuedOfUnqueued(list: seq<Id>, tasks: Tasks, id: Id, task: Task)
    requires !(task.status.Queued? && Ordinary(task))
    ensures QueuedOf(list, tasks[id := task]) == Without(QueuedOf(list, tasks), {id})
  {
    if list != [] {
      QueuedOfUnqueued(list[1..], tasks, id, task);
      var head := if InQueue(tasks, list[0]) then [list[0]] else [];
      WithoutConcat(head, QueuedOf(list[1..], tasks), {id});
      assert Without(head, {id}) == if head != [] && list[0] != id then head else [] by {
        assert head == [] || head[1..] == [];
      }
    }
  }

  /** A task that becomes queued appears wherever its id is in the list. */
  lemma {:induction false} QueuedOfQueued(list: seq<Id>, tasks: Tasks, id: Id, task: Task)
    requires task.status.Queued? && Ordinary(task) && !InQueue(tasks, id)
    ensures id !in list ==> QueuedOf(list, tasks[id := task]) == QueuedOf(list, tasks)
    ensures id in list ==> |QueuedOf(list, tasks[id := task])| > |QueuedOf(list, tasks)|
    ensures |QueuedOf(list, tasks[id := task])| >= |QueuedOf(list, tasks)|
  {
    if list != [] {
      QueuedOfQueued(list[1..], tasks, id, task);
      assert id in list <==> id == list[0] || id in list[1..];
    }
  }

  /** A task that becomes queued at the end of the deque. */
  lemma QueuedAtTail(fifo: seq<Id>, tasks: Tasks, id: Id, task: Task)
    requires task.status.Queued? && Ordinary(task) && !InQueue(tasks, id)
    ensures QueuedOf(ToTail(fifo, id), tasks[id := task]) == QueuedOf(fifo, tasks) + [id]
  {
    var after := tasks[id := task];
    QueuedOfConcat(Without(fifo, {id}), [id], after);
    QueuedOfQueued(Without(fifo, {id}), tasks, id, task);
    QueuedOfWithout(fifo, {id}, tasks);
    QueuedOfMembers(fifo, tasks);
    WithoutAbsent(QueuedOf(fifo, tasks), {id});
    assert [id][1..] == [];
  }

  /** Popping up to the first queued id drops exactly that one from the queued ids. */
  lemma {:induction false} PoppedDropsFirst(queue: seq<Id>, tasks: Tasks)
    ensures
      var queued := QueuedOf(queue, tasks);
      QueuedOf(Popped(queue, tasks), tasks) == if queued == [] then [] else queued[1..]
    ensures forall x <- Popped(queue, tasks) :: x in queue
  {
    if queue != [] {
      PoppedDropsFirst(queue[1..], tasks);
    }
  }

  /** An id that is no queued ordinary task before or after may be dropped from a list, or put at its end. */
  lemma QueuedOfOthers(list: seq<Id>, tasks: Tasks, after: Tasks, id: Id)
    requires !InQueue(tasks, id) && !InQueue(after, id)
    requires forall x :: x != id ==> (InQueue(tasks, x) <==> InQueue(after, x))
    ensures QueuedOf(list, after) == QueuedOf(list, tasks)
    ensures QueuedOf(Without(list, {id}), after) == QueuedOf(list, tasks)
    ensures QueuedOf(list + [id], after) == QueuedOf(list, tasks)
    ensures QueuedOf(Without(list, {id}) + [id], after) == QueuedOf(list, tasks)
  {
    assert forall x <- list :: InQueue(tasks, x) <==> InQueue(after, x);
    QueuedOfSame(list, tasks, after);
    QueuedOfWithout(list, {id}, after);
    QueuedOfMembers(list, after);
    WithoutAbsent(QueuedOf(list, after), {id});
    QueuedOfConcat(list, [id], after);
    QueuedOfConcat(Without(list, {id}), [id], after);
    assert QueuedOf([id], after) == [] by { assert [id][1..] == []; }
  }

  lemma WithoutMembers(list: seq<Id>, ids: set<Id>)
    ensures forall x :: x in Without(list, ids) <==> x in list && x !in ids
  {
  }

  lemma WithoutFirst(list: seq<Id>, id: Id)
    requires list != [] && list[0] == id
    ensures Without(list, {id}) == Without(list[1..], {id})
  {
  }

  // ------------------------------------------------------- changes of one task

  /** The views of the two stores a call may have of them: an expired lease may have been dropped. */
  ghost predicate SeenAs(m: Mem, r: Redis, b: Mem, k: Redis, now: int) {
    && b == m.(lease := b.lease) && k == r.(lease := k.lease)
    && Live(b, now).lease == Live(m, now).lease && LiveKeys(k, now).lease == LiveKeys(r, now).lease
  }

  lemma SeenAsLive(m: Mem, r: Redis, now: int)
    ensures SeenAs(m, r, m, r, now) && SeenAs(m, r, Live(m, now), LiveKeys(r, now), now) && SeenAs(m, r, m, LiveKeys(r, now), now)
  {
  }

  lemma SeenIsAlike(m: Mem, r: Redis, b: Mem, k: Redis, now: int)
    requires Alike(m, r, now) && SeenAs(m, r, b, k, now)
    ensures Alike(b, k, now)
  {
  }

  /** One task in another state, with lists that still match. */
  lemma PutAlike(m: Mem, r: Redis, now: int, id: Id, task: Task, fifo: seq<Id>, queue: seq<Id>, count: int)
    requires Alike(m, r, now) && id in m.tasks && SameOrigin(m.tasks[id], task)
    requires forall x :: x in fifo ==> x in m.fifo || x == id
    requires forall x :: x in m.fifo ==> x in fifo || (x == id && !Ordinary(task))
    requires forall x <- queue :: x in r.queue || x == id
    requires QueuedOf(fifo, m.tasks[id := task]) == QueuedOf(queue, m.tasks[id := task])
    ensures Alike(m.(tasks := m.tasks[id := task], fifo := fifo), r.(tasks := m.tasks[id := task], queue := queue, count := count), now)
  {
    hide QueuedOf;
  }

  /** A task that becomes queued at the end of both lists; Redis must not have it in its list any more. */
  lemma TailAlike(m: Mem, r: Redis, now: int, id: Id, task: Task, queue: seq<Id>, count: int)
    requires Alike(m, r, now) && id in m.tasks && SameOrigin(m.tasks[id], task) && Ordinary(task)
    requires !m.tasks[id].status.Queued? && task.status.Queued?
    requires queue == r.queue || queue == Without(r.queue, {id})
    ensures
      Alike(m.(tasks := m.tasks[id := task], fifo := ToTail(m.fifo, id)), r.(tasks := m.tasks[id := task], queue := queue + [id], count := count), now)
      <==> id !in queue
  {
    hide Indexed;
    var tasks := m.tasks[id := task];
    QueuedAtTail(m.fifo, m.tasks, id, task);
    QueuedOfQueued(queue, m.tasks, id, task);
    QueuedOfConcat(queue, [id], tasks);
    assert [id][1..] == [];
    assert QueuedOf([id], tasks) == [id];
    QueuedOfWithout(r.queue, {id}, m.tasks);
    QueuedOfMembers(r.queue, m.tasks);
    WithoutAbsent(QueuedOf(r.queue, m.tasks), {id});
    assert QueuedOf(queue, m.tasks) == QueuedOf(m.fifo, m.tasks);
    if id !in queue {
      WithoutMembers(m.fifo, {id});
      WithoutMembers(r.queue, {id});
      PutAlike(m, r, now, id, task, ToTail(m.fifo, id), queue + [id], count);
    }
  }

  /** A new task at the end of both lists: an ordinary one under a symbol without one, or a lease's own. */
  lemma NewAlike(m: Mem, r: Redis, now: int, task: Task, count: int)
    requires Alike(m, r, now) && task.id !in m.tasks && task.status.Queued?
    requires Ordinary(task) ==> task.symbol !in r.symbols
    ensures
      Alike(m.(tasks := m.tasks[task.id := task], fifo := m.fifo + [task.id]),
            r.(tasks := m.tasks[task.id := task], queue := r.queue + [task.id],
               symbols := if Ordinary(task) then r.symbols[task.symbol := task.id] else r.symbols, count := count), now)
  {
    hide QueuedOf;
    var tasks := m.tasks[task.id := task];
    QueuedOfConcat(m.fifo, [task.id], tasks);
    QueuedOfConcat(r.queue, [task.id], tasks);
    QueuedOfSame(m.fifo, m.tasks, tasks);
    QueuedOfSame(r.queue, m.tasks, tasks);
  }

  // ------------------------------------------------------------- submissions

  lemma IndexedIsCanonical(m: Mem, r: Redis, now: int, symbol: Symbol)
    requires Matches(m, r, now)
    ensures
      var ids := Candidates(m.tasks, symbol, BoundId(Live(m, now).lease));
      if symbol in r.symbols then ids == {r.symbols[symbol]} && Canonical(m.tasks, ids) == r.symbols[symbol] else ids == {}
  {
    hide QueuedOf, AliasesSound, MaintenanceSound;
  }

  /** A submission is answered alike, and leaves the stores alike, unless one of them has no room for it. */
  lemma SubmitAlike(m: Mem, r: Redis, task: Task, cap: nat, now: int)
    requires Matches(m, r, now) && FreshOp(m, Submit(task)) && Stamped(Submit(task), now)
    ensures
      var a, b := Submitted(m, task, cap, now), RedisSubmitted(r, task, cap, now);
      && (a.reply == b.reply <==> !Split(r, Submit(task), cap))
      && (Alike(a.mem, b.redis, now) <==> !Split(r, Submit(task), cap))
  {
    hide ActiveCount, QueuedOf, Without, Canonical, Sound, ListsMatch;
    var l, k := Live(m, now), LiveKeys(r, now);
    SeenAsLive(m, r, now);
    SeenIsAlike(m, r, l, k, now);
    IndexedIsCanonical(m, r, now, task.symbol);
    SubmissionAsks(m, r, now, task);
    if task.maintenance.Some? {
    } else if task.symbol !in r.symbols {
      NewAlike(l, k, now, task, k.count + 1);
    } else {
      var id := r.symbols[task.symbol];
      if !Active(m.tasks[id].status) {
        var again := task.(id := id);
        assert again == Reset(m.tasks[id], Some(task.includeLongCapture), now);
        WithoutMembers(r.queue, {id});
        TailAlike(l, k, now, id, again, Without(r.queue, {id}), k.count + 1);
      }
    }
  }

  lemma SubmissionAsks(m: Mem, r: Redis, now: int, task: Task)
    requires Matches(m, r, now)
    ensures
      AsksAdmission(r.tasks, Submit(task))
      <==> Ordinary(task) && (task.symbol in r.symbols ==> !Active(r.tasks[r.symbols[task.symbol]].status))
    ensures
      task.symbol in r.symbols ==>
        var id := r.symbols[task.symbol];
        id in r.tasks && Ordinary(r.tasks[id]) && r.tasks[id].symbol == task.symbol && r.tasks[id].id == id
    ensures m.tasks == r.tasks && WellKeyed(m.tasks) && m.aliases == map[]
    ensures var bound := BoundId(LiveKeys(r, now).lease); bound.Some? ==> bound.value in r.tasks && !Ordinary(r.tasks[bound.value])
  {
  }

  // ------------------------------------------------------- claims and reports

  lemma ClaimAlike(m: Mem, r: Redis, now: int)
    requires Matches(m, r, now)
    ensures ClaimedNext(m, now).reply == RedisClaimed(r, now).reply
    ensures Alike(ClaimedNext(m, now).mem, RedisClaimed(r, now).redis, now)
  {
    hide QueuedOf, Without, AliasesSound, MaintenanceSound, Popped, Indexed;
    var l, k := Live(m, now), LiveKeys(r, now);
    SeenAsLive(m, r, now);
    SeenIsAlike(m, r, l, k, now);
    if l.lease.Some? {
      LeasedClaimAlike(l, k, now);
    } else {
      OrdinaryClaimAlike(l, k, now);
    }
  }

  lemma LeasedClaimAlike(l: Mem, k: Redis, now: int)
    requires Alike(l, k, now) && LeaseSound(l) && WellKeyed(l.tasks) && l.lease.Some? && l.lease == k.lease && Live(l, now) == l && LiveKeys(k, now) == k
    ensures ClaimedNext(l, now).reply == RedisClaimed(k, now).reply
    ensures Alike(ClaimedNext(l, now).mem, RedisClaimed(k, now).redis, now)
  {
    hide QueuedOf, Without, Indexed, Popped;
    if NextId(l).Some? {
      var id := NextId(l).value;
      var task := Claimed(l.tasks[id], now);
      assert !Ordinary(task);
      QueuedOfOthers(l.fifo, l.tasks, l.tasks[id := task], id);
      QueuedOfOthers(k.queue, l.tasks, l.tasks[id := task], id);
      WithoutMembers(l.fifo, {id});
      WithoutMembers(k.queue, {id});
      PutAlike(l, k, now, id, task, Without(l.fifo, {id}), Without(k.queue, {id}), k.count);
    }
  }

  lemma OrdinaryClaimAlike(l: Mem, k: Redis, now: int)
    requires Alike(l, k, now) && l.lease.None? && k.lease.None?
    ensures ClaimedNext(l, now).reply == RedisClaimed(k, now).reply
    ensures Alike(ClaimedNext(l, now).mem, RedisClaimed(k, now).redis, now)
  {
    hide QueuedOf, Without, Popped;
    QueuedOfMembers(l.fifo, l.tasks);
    PoppedDropsFirst(k.queue, k.tasks);
    var queued := QueuedOf(l.fifo, l.tasks);
    if queued != [] {
      var id := queued[0];
      assert id in queued;
      var task := Claimed(l.tasks[id], now);
      QueuedOfUnqueued(l.fifo, l.tasks, id, task);
      QueuedOfUnqueued(Popped(k.queue, k.tasks), k.tasks, id, task);
      WithoutFirst(queued, id);
      PutAlike(l, k, now, id, task, l.fifo, Popped(k.queue, k.tasks), k.count);
    }
  }

  lemma ReportAlike(m: Mem, r: Redis, id: Id, p: Progress, now: int)
    requires Alike(m, r, now)
    ensures Reported(m, id, p, now).reply == RedisReported(r, id, p, now).reply
    ensures Alike(Reported(m, id, p, now).mem, RedisReported(r, id, p, now).redis, now)
  {
    hide ActiveCount, Indexed, ListsKnown, QueuedOf, Without, Allowed;
    if id in m.tasks && Progressed(m.tasks[id], p, now).Some? {
      var task := Progressed(m.tasks[id], p, now).value;
      NeverQueued(m.tasks[id], p, now);
      QueuedOfUnqueued(m.fifo, m.tasks, id, task);
      QueuedOfUnqueued(r.queue, r.tasks, id, task);
      PutAlike(m, r, now, id, task, m.fifo, r.queue, r.count + One(Active(task.status)) - One(Active(m.tasks[id].status)));
    }
  }

  lemma NeverQueued(task: Task, p: Progress, now: int)
    requires Progressed(task, p, now).Some?
    ensures !Progressed(task, p, now).value.status.Queued? && SameOrigin(task, Progressed(task, p, now).value)
  {
  }

  // ---------------------------------------- administrator's changes, recovery

  lemma TailOpAlike(m: Mem, r: Redis, op: Op, cap: nat, now: int)
    requires Matches(m, r, now) && (op.Requeue? || op.Retry? || op.Refresh?)
    ensures
      var a, b := Step(m, op, cap, now), RedisStep(r, Shared(op), cap, now);
      && (a.reply == b.reply <==> !RequeuesQueued(m, op) && !Split(r, op, cap))
      && (Alike(a.mem, b.redis, now) <==> !Diverges(m, r, op, cap, now) && !Split(r, op, cap))
  {
    hide ActiveCount, QueuedOf, ToTail, Sound, Alike;
    var l, k := Live(m, now), LiveKeys(r, now);
    SeenAsLive(m, r, now);
    SeenIsAlike(m, r, l, k, now);
    SeenIsAlike(m, r, m, k, now);
    TailOpBasics(m, r, now, op.id);
    if op.id in m.tasks && Ordinary(m.tasks[op.id]) {
      var current := m.tasks[op.id];
      match op
      case Requeue(id) => if current.status.WaitingAdmin? { TailAlike(l, k, now, id, Requeued(current, now), k.queue, k.count); }
      case Retry(id) => if current.status.Failed? { TailAlike(l, k, now, id, Recovered(current, now), k.queue, k.count + 1); }
      case Refresh(id, longCapture) =>
        if !Active(current.status) {
          TailAlike(l, k, now, id, Reset(current, longCapture, now), k.queue, k.count + 1);
          if Split(r, op, cap) {
            assert m.tasks[id := Reset(current, longCapture, now)][id] != m.tasks[id];
            DifferentTasks(Step(m, op, cap, now).mem, RedisStep(r, Shared(op), cap, now).redis, now);
          }
        }
    }
  }

  lemma DifferentTasks(m: Mem, r: Redis, now: int)
    requires m.tasks != r.tasks
    ensures !Alike(m, r, now)
  {
  }

  lemma TailOpBasics(m: Mem, r: Redis, now: int, id: Id)
    requires Matches(m, r, now)
    ensures m.tasks == r.tasks && m.aliases == map[] == r.aliases && WellKeyed(m.tasks)
    ensures var bound := BoundId(Live(m, now).lease); bound == BoundId(LiveKeys(r, now).lease) && (bound.Some? ==> bound.value in m.tasks && !Ordinary(m.tasks[bound.value]))
  {
  }

  /** Whatever the order, recovery keeps the tasks, the index and what the lists know. */
  lemma RecoveryKeepsRest(m: Mem, r: Redis, now: int)
    requires Matches(m, r, now)
    ensures WellKeyed(r.tasks)
    ensures
      var k := RedisRecovered(r, now);
      SameStore(m.(tasks := RecoveredTasks(m.tasks, now)), k, now) && ListsKnown(k.tasks, m.fifo, k.queue) && Indexed(k)
  {
    hide QueuedOf, InCreationOrder, AliasesSound, MaintenanceSound, LeaseSound;
    CreationOrderMembers(r.tasks);
  }

  lemma RecoverAlike(m: Mem, r: Redis, cap: nat, now: int)
    requires Matches(m, r, now)
    ensures Alike(Step(m, Recover, cap, now).mem, RedisStep(r, Shared(Recover), cap, now).redis, now) <==> !Diverges(m, r, Recover, cap, now)
  {
    hide QueuedOf, InCreationOrder, Sound, Indexed, ListsKnown, SameStore;
    RecoveryKeepsRest(m, r, now);
    assert m.tasks == r.tasks by { SameTasks(m, r, now); }
  }

  lemma SameTasks(m: Mem, r: Redis, now: int)
    requires Alike(m, r, now)
    ensures m.tasks == r.tasks
  {
  }

  lemma CreationOrderMembers(tasks: Tasks)
    requires WellKeyed(tasks)
    ensures forall x :: x in InCreationOrder(tasks, RunningIds(tasks)) <==> x in RunningIds(tasks)
  {
  }

  // -------------------------------------------------- leases and housekeeping

  /** A lease taken, changed or dropped in both stores. */
  lemma LeaseChangeAlike(m: Mem, r: Redis, now: int, lease: Option<Lease>)
    requires Alike(m, r, now)
    ensures Alike(m.(lease := lease), r.(lease := lease), now)
  {
    hide QueuedOf;
  }

  /** The only ordinary task of a symbol is its keeper. */
  lemma KeeperIsIndexed(l: Mem, k: Redis, now: int, symbol: Symbol)
    requires Matches(l, k, now) && Live(l, now) == l && LiveKeys(k, now) == k
    ensures WellKeyed(k.tasks)
    ensures Keeper(l, symbol) == Keeper(View(k), symbol) == if symbol in k.symbols then Some(k.symbols[symbol]) else None
  {
    hide QueuedOf, AliasesSound, MaintenanceSound, Canonical;
    IndexedIsCanonical(l, k, now, symbol);
    assert Candidates(k.tasks, symbol, BoundId(k.lease)) == Candidates(l.tasks, symbol, BoundId(l.lease));
  }

  /** With one ordinary task per symbol there is nothing to merge. */
  lemma NothingToMerge(l: Mem, k: Redis, now: int)
    requires Matches(l, k, now) && Live(l, now) == l && LiveKeys(k, now) == k
    ensures WellKeyed(k.tasks) && Duplicates(l) == {} && Duplicates(View(k)) == {}
  {
    hide QueuedOf, AliasesSound, MaintenanceSound, Keeper;
    assert forall id <- l.tasks :: Ordinary(l.tasks[id]) ==> Keeper(l, l.tasks[id].symbol) == Some(id) == Keeper(View(k), l.tasks[id].symbol) by {
      forall id | id in l.tasks && Ordinary(l.tasks[id])
        ensures Keeper(l, l.tasks[id].symbol) == Some(id) == Keeper(View(k), l.tasks[id].symbol)
      {
        KeeperIsIndexed(l, k, now, l.tasks[id].symbol);
      }
    }
  }

  lemma IndexIsKept(l: Mem, k: Redis, now: int)
    requires Matches(l, k, now) && Live(l, now) == l && LiveKeys(k, now) == k
    ensures WellKeyed(k.tasks) && Reindexed(k) == k.symbols
  {
    hide QueuedOf, AliasesSound, MaintenanceSound, Keeper, ListsMatch;
    assert WellKeyed(k.tasks);
    forall s: Symbol
      ensures Keeper(View(k), s) == if s in k.symbols then Some(k.symbols[s]) else None
    {
      KeeperIsIndexed(l, k, now, s);
    }
    assert forall s <- k.symbols :: !ReservedKeys(k, k.symbols[s]);
    var stale := set s | s in k.symbols && k.symbols[s] in k.tasks && ReservedKeys(k, k.symbols[s]) :: s;
    assert stale == {};
    assert k.symbols - stale == k.symbols;
  }

  lemma DeduplicateAlike(m: Mem, r: Redis, cap: nat, now: int)
    requires Matches(m, r, now)
    ensures Alike(Deduplicated(m, now), RedisDeduplicated(r, now), now)
  {
    hide Alike, Sound, Duplicates, Merged, Reindexed;
    var l, k := Live(m, now), LiveKeys(r, now);
    LiveMatches(m, r, now);
    NothingToMerge(l, k, now);
    IndexIsKept(l, k, now);
    MergingNothing(l);
    MergingNothing(View(k));
    WithoutAbsent(k.queue, {});
    assert k.tasks - {} == k.tasks;
    assert RedisDeduplicated(r, now) == k;
  }

  lemma LiveMatches(m: Mem, r: Redis, now: int)
    requires Matches(m, r, now)
    ensures Matches(Live(m, now), LiveKeys(r, now), now) && WellKeyed(m.tasks) && WellKeyed(r.tasks)
    ensures Live(Live(m, now), now) == Live(m, now) && LiveKeys(LiveKeys(r, now), now) == LiveKeys(r, now)
  {
    hide QueuedOf, MaintenanceSound;
    SeenAsLive(m, r, now);
    SeenIsAlike(m, r, Live(m, now), LiveKeys(r, now), now);
  }

  /** Maintenance tasks taken out of both stores, lists included. */
  lemma PruneAlike(m: Mem, r: Redis, now: int, ids: set<Id>, b: Mem, k: Redis)
    requires Alike(m, r, now) && forall id <- ids :: id in m.tasks && !Ordinary(m.tasks[id])
    requires b.tasks == m.tasks - ids && b.fifo == Without(m.fifo, ids) && b.aliases == m.aliases
    requires k.tasks == m.tasks - ids && k.queue == Without(r.queue, ids) && k.aliases == r.aliases && k.symbols == r.symbols
    requires Live(b, now).lease == LiveKeys(k, now).lease
    ensures Alike(b, k, now)
  {
    hide QueuedOf, Without;
    var tasks := m.tasks - ids;
    WithoutMembers(m.fifo, ids);
    WithoutMembers(r.queue, ids);
    QueuedOfPruned(m.fifo, m.tasks, ids);
    QueuedOfPruned(r.queue, m.tasks, ids);
  }

  lemma QueuedOfPruned(list: seq<Id>, tasks: Tasks, ids: set<Id>)
    requires forall id <- ids :: id in tasks && !Ordinary(tasks[id])
    ensures QueuedOf(Without(list, ids), tasks - ids) == QueuedOf(list, tasks)
  {
    QueuedOfWithout(list, ids, tasks);
    QueuedOfMembers(list, tasks);
    WithoutAbsent(QueuedOf(list, tasks), ids);
    WithoutMembers(list, ids);
    QueuedOfSame(Without(list, ids), tasks, tasks - ids);
  }

  /** The index names the ordinary task of the acceptance symbol already, if there is one. */
  lemma IndexIsUpToDate(l: Mem, k: Redis, now: int, excluded: Option<Id>)
    requires Matches(l, k, now) && (excluded.Some? ==> excluded.value in l.tasks && !Ordinary(l.tasks[excluded.value]))
    ensures
      var others := Candidates(k.tasks, ACCEPTANCE_SYMBOL, excluded);
      WellKeyed(k.tasks)
      && (if others == {} then k.symbols - {ACCEPTANCE_SYMBOL} else k.symbols[ACCEPTANCE_SYMBOL := Canonical(k.tasks, others)]) == k.symbols
  {
    hide QueuedOf, AliasesSound, MaintenanceSound;
    IndexedIsCanonical(l, k, now, ACCEPTANCE_SYMBOL);
    var others := Candidates(k.tasks, ACCEPTANCE_SYMBOL, excluded);
    assert others == Candidates(l.tasks, ACCEPTANCE_SYMBOL, BoundId(Live(l, now).lease));
    if others == {} {
      assert ACCEPTANCE_SYMBOL !in k.symbols;
      assert k.symbols - {ACCEPTANCE_SYMBOL} == k.symbols;
    }
  }

  lemma ReleaseAlike(m: Mem, r: Redis, owner: Owner, now: int)
    requires Matches(m, r, now)
    ensures Alike(LeaseReleased(m, owner, now).mem, RedisReleased(r, owner, now).redis, now)
  {
    hide QueuedOf, Without, Canonical, AliasesSound, MaintenanceSound, Alike;
    var l, k := Live(m, now), LiveKeys(r, now);
    LiveMatches(m, r, now);
    ReleaseBasics(l, k, now);
    var a, b := LeaseReleased(m, owner, now).mem, RedisReleased(r, owner, now).redis;
    if OwnedBy(l.lease, owner) {
      var bound := l.lease.value.bound;
      if bound.Some? {
        IndexIsUpToDate(l, k, now, bound);
        assert a.aliases == map[] && b.aliases == map[];
        PruneAlike(l, k, now, {bound.value}, a, b);
      } else {
        LeaseChangeAlike(l, k, now, None);
      }
    }
  }

  lemma NothingPruned(l: Mem, k: Redis)
    ensures l.tasks - {} == l.tasks && Without(l.fifo, {}) == l.fifo && Without(k.queue, {}) == k.queue
  {
    WithoutAbsent(l.fifo, {});
    WithoutAbsent(k.queue, {});
  }

  lemma ReleaseBasics(l: Mem, k: Redis, now: int)
    requires Matches(l, k, now) && Live(l, now) == l && LiveKeys(k, now) == k
    ensures l.tasks == k.tasks && l.lease == k.lease && l.aliases == map[] == k.aliases && WellKeyed(l.tasks)
    ensures
      var bound := BoundId(l.lease);
      bound.Some? ==> bound.value in l.tasks && !Ordinary(l.tasks[bound.value]) && ValidBound(l.tasks[bound.value], bound.value, Digest(l.lease.value.owner))
  {
  }

  lemma CleanupAlike(m: Mem, r: Redis, now: int)
    requires Matches(m, r, now)
    ensures Alike(CleanedUp(m, now), RedisCleanedUp(r, now), now) <==> !Diverges(m, r, Cleanup, 0, now)
  {
    hide QueuedOf, Without, Canonical, AliasesSound, Alike;
    var l, k := Live(m, now), LiveKeys(r, now);
    LiveMatches(m, r, now);
    ReleaseBasics(l, k, now);
    if Diverges(m, r, Cleanup, 0, now) {
      CleanupAgreesExactly(m, r, now);
      NotSameStore(CleanedUp(m, now), RedisCleanedUp(r, now), now);
    } else {
      IndexIsUpToDate(l, k, now, None);
      NothingPruned(l, k);
      var targets := CleanupTargets(k);
      assert targets == Leftovers(l);
      PruneAlike(l, k, now, targets, CleanedUp(m, now), RedisCleanedUp(r, now));
    }
  }

  lemma NotSameStore(m: Mem, r: Redis, now: int)
    requires !SameStore(m, r, now)
    ensures !Alike(m, r, now)
  {
  }

  lemma BindAlike(m: Mem, r: Redis, owner: Owner, task: Task, cap: nat, now: int)
    requires Matches(m, r, now) && FreshOp(m, Bind(owner, task)) && Stamped(Bind(owner, task), now)
    ensures Alike(AcceptanceBound(m, owner, task, cap, now).mem, RedisBound(r, owner, task, cap, now).redis, now)
  {
    hide QueuedOf, Without, ActiveCount, AliasesSound, MaintenanceSound, Alike, LeaseSound;
    var l, k := Live(m, now), LiveKeys(r, now);
    LiveMatches(m, r, now);
    ReleaseBasics(l, k, now);
    SeenAsLive(m, r, now);
    SeenIsAlike(m, r, m, k, now);
    if ValidAcceptance(task) && OwnedBy(l.lease, owner) {
      assert l.lease.value.digest == Some(Digest(owner)) by { LeaseDigest(l); }
      if l.lease.value.bound.Some? {
        BindAgainAlike(l, k, owner, task, cap, now);
      } else if task.id !in m.tasks && ActiveCount(m.tasks) < cap {
        var candidate := task.(maintenance := Some(Digest(owner)));
        NewAlike(l, k, now, candidate, k.count);
        LeaseChangeAlike(l.(tasks := m.tasks[task.id := candidate], fifo := m.fifo + [task.id]),
                         k.(tasks := m.tasks[task.id := candidate], queue := r.queue + [task.id]), now,
                         Some(l.lease.value.(bound := Some(task.id))));
      }
    }
  }

  lemma LeaseDigest(l: Mem)
    requires LeaseSound(l) && l.lease.Some?
    ensures l.lease.value.digest == Some(Digest(l.lease.value.owner))
  {
  }

  /** Handing back the bound task changes nothing; restarting it moves it to the end of both lists. */
  lemma BindAgainAlike(l: Mem, k: Redis, owner: Owner, task: Task, cap: nat, now: int)
    requires Matches(l, k, now) && Live(l, now) == l && LiveKeys(k, now) == k && OwnedBy(l.lease, owner) && l.lease.value.bound.Some?
    requires ValidAcceptance(task) && task.createdAt == now && task.updatedAt == now
    ensures
      var bound, candidate := l.lease.value.bound.value, task.(maintenance := Some(Digest(owner)));
      Alike(BoundAgain(l, bound, owner, cap, now).mem, RedisBoundAgain(k, bound, candidate, cap).redis, now)
  {
    hide QueuedOf, Without, ActiveCount, AliasesSound, ListsKnown, Indexed;
    var bound, candidate := l.lease.value.bound.value, task.(maintenance := Some(Digest(owner)));
    BoundIsMarked(l, k, now, owner);
    var existing := l.tasks[bound];
    if Retryable(existing) && ActiveCount(l.tasks) < cap {
      var again := candidate.(id := bound);
      assert again == Reset(existing, Some(false), now);
      QueuedOfOthers(l.fifo, l.tasks, l.tasks[bound := again], bound);
      QueuedOfOthers(k.queue, l.tasks, l.tasks[bound := again], bound);
      WithoutMembers(l.fifo, {bound});
      WithoutMembers(k.queue, {bound});
      PutAlike(l, k, now, bound, again, ToTail(l.fifo, bound), Without(k.queue, {bound}) + [bound], k.count);
    }
  }

  lemma BoundIsMarked(l: Mem, k: Redis, now: int, owner: Owner)
    requires Matches(l, k, now) && OwnedBy(l.lease, owner) && l.lease.value.bound.Some?
    ensures
      var bound := l.lease.value.bound.value;
      && l.tasks == k.tasks && bound in l.tasks && ValidBound(l.tasks[bound], bound, Digest(owner))
      && l.tasks[bound := l.tasks[bound].(maintenance := Some(Digest(owner)))] == l.tasks
      && Marked(k, bound, Some(Digest(owner))) == k
      && Alike(l, k, now)
  {
    hide QueuedOf, AliasesSound, ListsMatch;
    var bound := l.lease.value.bound.value;
    assert l.tasks[bound].maintenance == Some(Digest(owner));
    assert l.tasks[bound := l.tasks[bound].(maintenance := Some(Digest(owner)))] == l.tasks;
    assert ACCEPTANCE_SYMBOL in k.symbols ==> k.symbols[ACCEPTANCE_SYMBOL] != bound;
  }

  lemma LeaseStartAlike(m: Mem, r: Redis, op: Op, cap: nat, now: int)
    requires Matches(m, r, now) && (op.Acquire? || op.Renew?)
    ensures Alike(Step(m, op, cap, now).mem, RedisStep(r, Shared(op), cap, now).redis, now)
  {
    hide QueuedOf, AliasesSound, MaintenanceSound, Alike, AnyBusy;
    var l, k := Live(m, now), LiveKeys(r, now);
    LiveMatches(m, r, now);
    ReleaseBasics(l, k, now);
    SeenAsLive(m, r, now);
    SeenIsAlike(m, r, m, k, now);
    LeaseChangeAlike(l, k, now, Step(m, op, cap, now).mem.lease);
  }

  // -------------------------------------------------------------- every call

  /** The calls that ask nothing of the admission counter and repeat nothing in the Redis list. */
  lemma HousekeepingAlike(m: Mem, r: Redis, op: Op, cap: nat, now: int)
    requires Matches(m, r, now) && FreshOp(m, op) && Stamped(op, now)
    requires op.Acquire? || op.Renew? || op.Bind? || op.Release? || op.Deduplicate? || op.Cleanup?
    ensures
      var a, b := Step(m, op, cap, now), RedisStep(r, Shared(op), cap, now);
      a.reply == b.reply && (Alike(a.mem, b.redis, now) <==> !Diverges(m, r, op, cap, now))
  {
    hide Alike, LeaseReleased, RedisReleased, AcceptanceBound, RedisBound, CleanedUp, RedisCleanedUp, Deduplicated, RedisDeduplicated;
    if !op.Cleanup? {
      MatchesStore(m, r, now);
      LeasesAgree(m, r, op, cap, now);
    }
    match op
    case Bind(owner, task) => BindAlike(m, r, owner, task, cap, now);
    case Release(owner) => ReleaseAlike(m, r, owner, now);
    case Deduplicate => DeduplicateAlike(m, r, cap, now);
    case Cleanup => CleanupAlike(m, r, now);
    case _ => LeaseStartAlike(m, r, op, cap, now);
  }

  lemma MatchesStore(m: Mem, r: Redis, now: int)
    requires Matches(m, r, now)
    ensures SameStore(m, r, now)
  {
  }

  /**
   * From matching stores every call is answered alike, exactly unless it requeues a queued task or is admitted by
   * one store only; and the stores match again exactly unless it is split like that or diverges.
   */
  lemma StepMatches(m: Mem, r: Redis, op: Op, cap: nat, now: int)
    requires Matches(m, r, now) && Common(op) && FreshOp(m, op) && Stamped(op, now)
    ensures
      var a, b := Step(m, op, cap, now), RedisStep(r, Shared(op), cap, now);
      && (a.reply == b.reply <==> !RequeuesQueued(m, op) && !Split(r, op, cap))
      && (Matches(a.mem, b.redis, now) <==> !Diverges(m, r, op, cap, now) && !Split(r, op, cap))
  {
    hide Alike, Sound, ActiveCount, Submitted, RedisSubmitted, ClaimedNext, RedisClaimed, Reported, RedisReported, FreshOp;
    StepKeepsSound(m, op, cap, now);
    match op
    case Submit(task) => SubmitAlike(m, r, task, cap, now);
    case Claim => ClaimAlike(m, r, now);
    case Recover => RecoverAlike(m, r, cap, now);
    case Report(id, p) => ReportAlike(m, r, id, p, now);
    case Requeue(_) => TailOpAlike(m, r, op, cap, now);
    case Retry(_) => TailOpAlike(m, r, op, cap, now);
    case Refresh(_, _) => TailOpAlike(m, r, op, cap, now);
    case _ => HousekeepingAlike(m, r, op, cap, now);
  }

  /** Alike at one time is alike later. */
  lemma MatchesLater(m: Mem, r: Redis, now: int, later: int)
    requires Matches(m, r, now) && now <= later
    ensures Matches(m, r, later)
  {
    hide QueuedOf, AliasesSound, MaintenanceSound, LeaseSound;
    SameStoreLater(m, r, now, later);
  }

  lemma EmptyStoresMatch(now: int)
    ensures Matches(EMPTY, EMPTY_REDIS, now)
  {
  }
}
