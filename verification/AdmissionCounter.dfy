/** How far the cached admission counter of the Redis queue is from the number of active tasks. */
module AdmissionCounter {
  import opened Wrappers
  import opened TaskRecords
  import opened InMemoryQueue
  import opened RedisQueue

  /** Active tasks the counter does not know of. */
  function Drift(r: Redis): int {
    ActiveCount(r.tasks) - r.count
  }

  function ActiveAmong(tasks: Tasks, ids: set<Id>): nat {
    |ActiveIds(tasks) * ids|
  }

  /** The bound task that releasing the lease takes away. */
  predicate Releasable(l: Redis, owner: Owner, id: Id) {
    OwnedBy(l.lease, owner) && l.lease.value.bound == Some(id) && id in l.tasks
    && (ValidBound(l.tasks[id], id, Digest(owner)) || ValidLegacyBound(l.tasks[id], id))
  }

  /** Binding puts a task into the queue: a new one, or the bound one once it is over. */
  predicate BindQueues(l: Redis, owner: Owner, task: Task, cap: nat) {
    ValidAcceptance(task) && OwnedBy(l.lease, owner) && ActiveCount(l.tasks) < cap
    && match l.lease.value.bound
       case None => task.id !in l.tasks
       case Some(id) => Releasable(l, owner, id) && Retryable(l.tasks[id])
  }

  /** What one operation adds to the drift, read off the state before it. */
  function Effect(r: Redis, op: RedisOp, cap: nat, now: int): int
    requires WellKeyed(r.tasks)
  {
    var l := LiveKeys(r, now);
    match op
    case Reconcile => 0 - Drift(r)
    case Shared(Bind(owner, task)) => One(BindQueues(l, owner, task, cap))
    case Shared(Release(owner)) =>
      var bound := BoundId(l.lease);
      if bound.Some? && Releasable(l, owner, bound.value) then 0 - One(Active(l.tasks[bound.value].status)) else 0
    case Shared(Cleanup) => 0 - ActiveAmong(l.tasks, CleanupTargets(l))
    case Shared(Deduplicate) => 0 - ActiveAmong(l.tasks, Duplicates(View(l)))
    case _ => 0
  }

  /** New tasks start queued under new ids. */
  predicate FreshFor(r: Redis, op: RedisOp) {
    match op
    case Shared(Enqueue(task)) => task.id !in r.tasks && task.status.Queued?
    case Shared(Submit(task)) => task.id !in r.tasks && task.status.Queued?
    case _ => true
  }

  // ------------------------------------------------- effects of single steps

  /** One task stored with the counter moved along, or the counter left alone. */
  lemma PutDrifts(r: Redis, next: Redis, id: Id, task: Task)
    requires next.tasks == r.tasks[id := task]
    ensures Drift(next) + next.count + One(id in r.tasks && Active(r.tasks[id].status)) == Drift(r) + r.count + One(Active(task.status))
  {
    ActiveCountAfter(r.tasks, id, task);
  }

  lemma RemovalDrifts(tasks: Tasks, ids: set<Id>)
    ensures ActiveCount(tasks - ids) + ActiveAmong(tasks, ids) == ActiveCount(tasks)
  {
    var gone := ActiveIds(tasks) * ids;
    var kept := ActiveIds(tasks - ids);
    assert ActiveIds(tasks) == kept + gone && kept !! gone;
    assert |kept + gone| == |kept| + |gone|;
  }

  lemma ClaimDrifts(l: Redis, now: int)
    requires NextId(View(l)).Some?
    ensures var id := NextId(View(l)).value; id in l.tasks && Active(l.tasks[id].status)
  {
    QueuedOfMembers(l.queue, l.tasks);
    if l.lease.None? {
      assert QueuedOf(l.queue, l.tasks)[0] in QueuedOf(l.queue, l.tasks);
    }
  }

  /** The operations that store one task and count it. */
  predicate StoresATask(op: Op) {
    op.Requeue? || op.Retry? || op.Refresh? || op.Report?
  }

  lemma ChangeDrifts(r: Redis, op: Op, cap: nat, now: int)
    requires WellKeyed(r.tasks) && StoresATask(op)
    ensures Drift(RedisStep(r, Shared(op), cap, now).redis) == Drift(r)
  {
    hide ActiveCount, Allowed, WellKeyed, Resolved;
    var l, o := LiveKeys(r, now), RedisStep(r, Shared(op), cap, now);
    if o.reply.Answer? && o.redis.tasks != l.tasks {
      var id := if op.Requeue? then op.id else if op.Retry? then op.id else Resolved(l.aliases, op.id);
      PutDrifts(l, o.redis, id, o.reply.task);
    }
  }

  lemma SubmissionDrifts(r: Redis, task: Task, cap: nat, now: int)
    requires task.id !in r.tasks && task.status.Queued?
    ensures Drift(RedisEnqueued(r, task, cap).redis) == Drift(r) == Drift(RedisSubmitted(r, task, cap, now).redis)
  {
    hide Without, ActiveCount;
    PutDrifts(r, r.(tasks := r.tasks[task.id := task]), task.id, task);
    if task.symbol in r.symbols && r.symbols[task.symbol] in r.tasks {
      var id := r.symbols[task.symbol];
      PutDrifts(r, r.(tasks := r.tasks[id := task.(id := id)]), id, task.(id := id));
    }
  }

  lemma ClaimingDrifts(r: Redis, now: int)
    ensures Drift(RedisClaimed(r, now).redis) == Drift(r)
  {
    hide Without, RedisQueue.Popped, ActiveCount, NextId;
    var l := LiveKeys(r, now);
    if NextId(View(l)).Some? {
      ClaimDrifts(l, now);
      var id := NextId(View(l)).value;
      PutDrifts(l, l.(tasks := l.tasks[id := Claimed(l.tasks[id], now)]), id, Claimed(l.tasks[id], now));
    }
  }

  lemma BindDrifts(r: Redis, owner: Owner, task: Task, cap: nat, now: int)
    ensures Drift(RedisBound(r, owner, task, cap, now).redis) == Drift(r) + One(BindQueues(LiveKeys(r, now), owner, task, cap))
  {
    hide Without, ActiveCount, QueuedOf;
    var l, o := LiveKeys(r, now), RedisBound(r, owner, task, cap, now);
    if o.reply.Answer? {
      PutDrifts(l, o.redis, o.reply.task.id, o.reply.task);
    } else if o.redis.tasks != l.tasks {
      var id := l.lease.value.bound.value;
      PutDrifts(l, o.redis, id, l.tasks[id].(maintenance := Some(Digest(owner))));
    }
  }

  /** Every operation moves the drift by exactly its effect; reconciling brings it to zero. */
  lemma StepDrifts(r: Redis, op: RedisOp, cap: nat, now: int)
    requires WellKeyed(r.tasks) && FreshFor(r, op)
    ensures Drift(RedisStep(r, op, cap, now).redis) == Drift(r) + Effect(r, op, cap, now)
  {
    hide Without, RedisQueue.Popped, QueuedOf, ActiveCount, Canonical, InCreationOrder, ActiveAmong;
    match op
    case Shared(Enqueue(task)) => SubmissionDrifts(r, task, cap, now);
    case Shared(Submit(task)) => SubmissionDrifts(r, task, cap, now);
    case Shared(Claim) => ClaimingDrifts(r, now);
    case Shared(Bind(owner, task)) => BindDrifts(r, owner, task, cap, now);
    case Shared(other) =>
      if StoresATask(other) {
        ChangeDrifts(r, other, cap, now);
      } else {
        OtherStepsDrift(r, other, cap, now);
      }
    case Reconcile =>
  }

  lemma OtherStepsDrift(r: Redis, op: Op, cap: nat, now: int)
    requires WellKeyed(r.tasks) && (op.Recover? || op.Acquire? || op.Renew? || op.Release? || op.Cleanup? || op.Deduplicate?)
    ensures Drift(RedisStep(r, Shared(op), cap, now).redis) == Drift(r) + Effect(r, Shared(op), cap, now)
  {
    hide Without, ActiveCount, Canonical, InCreationOrder, ActiveAmong, Reindexed, Duplicates;
    var l := LiveKeys(r, now);
    match op
    case Release(owner) =>
      if BoundId(l.lease).Some? && BoundId(l.lease).value in l.tasks {
        ActiveCountWithout(l.tasks, BoundId(l.lease).value);
      }
    case Cleanup => RemovalDrifts(l.tasks, CleanupTargets(l));
    case Deduplicate => RemovalDrifts(l.tasks, Duplicates(View(l)));
    case Recover => RecoveryKeepsCount(r.tasks, now);
    case _ =>
  }

  // ------------------------------------------------------------------- runs

  datatype RedisCall = RedisCall(op: RedisOp, now: int)

  function RedisRun(r: Redis, calls: seq<RedisCall>, cap: nat): (o: Redis)
    requires WellKeyed(r.tasks)
    ensures WellKeyed(o.tasks)
    decreases |calls|
  {
    if calls == [] then r else RedisRun(RedisStep(r, calls[0].op, cap, calls[0].now).redis, calls[1..], cap)
  }

  predicate FreshCalls(r: Redis, calls: seq<RedisCall>, cap: nat)
    requires WellKeyed(r.tasks)
    decreases |calls|
  {
    calls != [] ==> FreshFor(r, calls[0].op) && FreshCalls(RedisStep(r, calls[0].op, cap, calls[0].now).redis, calls[1..], cap)
  }

  function TotalEffect(r: Redis, calls: seq<RedisCall>, cap: nat): int
    requires WellKeyed(r.tasks)
    decreases |calls|
  {
    if calls == [] then 0
    else Effect(r, calls[0].op, cap, calls[0].now) + TotalEffect(RedisStep(r, calls[0].op, cap, calls[0].now).redis, calls[1..], cap)
  }

  /** Over any run the counter is off by exactly what binds, releases, clean-ups and merges left behind. */
  lemma {:induction false} RunDrifts(r: Redis, calls: seq<RedisCall>, cap: nat)
    requires WellKeyed(r.tasks) && FreshCalls(r, calls, cap)
    ensures Drift(RedisRun(r, calls, cap)) == Drift(r) + TotalEffect(r, calls, cap)
    decreases |calls|
  {
    hide RedisStep, Effect, Drift, FreshFor;
    if calls != [] {
      StepDrifts(r, calls[0].op, cap, calls[0].now);
      RunDrifts(RedisStep(r, calls[0].op, cap, calls[0].now).redis, calls[1..], cap);
    }
  }

  predicate Uncounted(op: RedisOp) {
    op.Shared? && (op.op.Bind? || op.op.Release? || op.op.Cleanup? || op.op.Deduplicate?)
  }

  /** Without binds, releases, clean-ups and merges, a counter that is right stays right. */
  lemma {:induction false} CounterStaysRight(r: Redis, calls: seq<RedisCall>, cap: nat)
    requires WellKeyed(r.tasks) && FreshCalls(r, calls, cap) && Drift(r) == 0
    requires forall call <- calls :: !Uncounted(call.op)
    ensures RedisRun(r, calls, cap).count == ActiveCount(RedisRun(r, calls, cap).tasks)
    decreases |calls|
  {
    hide RedisStep, ActiveCount, FreshFor, ActiveAmong, BindQueues;
    if calls != [] {
      assert calls[0] in calls;
      StepDrifts(r, calls[0].op, cap, calls[0].now);
      CounterStaysRight(RedisStep(r, calls[0].op, cap, calls[0].now).redis, calls[1..], cap);
    }
  }

  // ------------------------------------------------------- a counter gone wrong

  const OWNER: Owner := 7

  function Acceptance(id: Id): Task {
    Task(id, ACCEPTANCE_SYMBOL, false, None, Queued, 0, 0, false)
  }

  function Submission(id: Id, symbol: Symbol): Task {
    Task(id, symbol, false, None, Queued, 0, 0, false)
  }

  /** A deployment check that takes its lease, binds its task, runs it, and releases the lease. */
  const DEPLOYMENT: seq<RedisCall> := [
    RedisCall(Shared(Acquire(OWNER, 100)), 0),
    RedisCall(Shared(Bind(OWNER, Acceptance(1))), 0),
    RedisCall(Shared(Claim), 0),
    RedisCall(Shared(Report(1, SnapshotReady)), 0),
    RedisCall(Shared(Release(OWNER)), 0)]

  /** After one ordinary deployment the counter is one too low, and a queue for one task admits two. */
  lemma DeploymentLosesACount(cap: nat)
    requires cap == 1
    ensures
      var r := RedisRun(EMPTY_REDIS, DEPLOYMENT, cap);
      r.tasks == map[] && r.count == -1
      && var first := RedisSubmitted(r, Submission(2, 600000), cap, 0);
      var second := RedisSubmitted(first.redis, Submission(3, 600001), cap, 0);
      first.reply.Answer? && second.reply.Answer? && ActiveCount(second.redis.tasks) == 2
  {
    hide RedisStep, RedisSubmitted, ActiveCount;
    var bound := Acceptance(1).(maintenance := Some(Digest(OWNER)));
    var r1 := EMPTY_REDIS.(lease := Some(Lease(OWNER, Some(Digest(OWNER)), None, 100)));
    var r2 := r1.(tasks := map[1 := bound], queue := [1], lease := Some(Lease(OWNER, Some(Digest(OWNER)), Some(1), 100)));
    var r3 := r2.(tasks := map[1 := Claimed(bound, 0)], queue := []);
    var r4 := r3.(tasks := map[1 := bound.(status := MarketSnapshot, completed := true)], count := -1);
    var r5 := EMPTY_REDIS.(count := -1);
    LeaseAndBind(r1, r2);
    ClaimAndFinish(bound, r2, r3, r4);
    Unbind(bound, r4, r5);
    assert RedisRun(EMPTY_REDIS, DEPLOYMENT, cap) == RedisRun(r1, DEPLOYMENT[1..], cap);
    assert DEPLOYMENT[1..][1..] == DEPLOYMENT[2..];
    assert RedisRun(r1, DEPLOYMENT[1..], cap) == RedisRun(r2, DEPLOYMENT[2..], cap);
    assert DEPLOYMENT[2..][1..] == DEPLOYMENT[3..];
    assert RedisRun(r2, DEPLOYMENT[2..], cap) == RedisRun(r3, DEPLOYMENT[3..], cap);
    assert DEPLOYMENT[3..][1..] == DEPLOYMENT[4..];
    assert RedisRun(r3, DEPLOYMENT[3..], cap) == RedisRun(r4, DEPLOYMENT[4..], cap);
    assert DEPLOYMENT[4..][1..] == [];
    assert RedisRun(r4, DEPLOYMENT[4..], cap) == RedisRun(r5, [], cap);
    TwoAreAdmitted(r5);
  }

  lemma LeaseAndBind(r1: Redis, r2: Redis)
    requires r1 == EMPTY_REDIS.(lease := Some(Lease(OWNER, Some(Digest(OWNER)), None, 100)))
    requires r2 == r1.(tasks := map[1 := Acceptance(1).(maintenance := Some(Digest(OWNER)))], queue := [1],
                       lease := Some(Lease(OWNER, Some(Digest(OWNER)), Some(1), 100)))
    ensures RedisStep(EMPTY_REDIS, Shared(Acquire(OWNER, 100)), 1, 0).redis == r1
    ensures RedisStep(r1, Shared(Bind(OWNER, Acceptance(1))), 1, 0).redis == r2
  {
    assert ActiveIds(map[]) == {};
  }

  lemma ClaimAndFinish(bound: Task, r2: Redis, r3: Redis, r4: Redis)
    requires bound == Acceptance(1).(maintenance := Some(Digest(OWNER)))
    requires r2.tasks == map[1 := bound] && r2.queue == [1] && r2.aliases == map[] && r2.count == 0
    requires r2.lease == Some(Lease(OWNER, Some(Digest(OWNER)), Some(1), 100))
    requires r3 == r2.(tasks := map[1 := Claimed(bound, 0)], queue := [])
    requires r4 == r3.(tasks := map[1 := bound.(status := MarketSnapshot, completed := true)], count := -1)
    ensures RedisStep(r2, Shared(Claim), 1, 0).redis == r3
    ensures RedisStep(r3, Shared(Report(1, SnapshotReady)), 1, 0).redis == r4
  {
    assert Without([1], {1}) == Without([1][1..], {1});
  }

  lemma Unbind(bound: Task, r4: Redis, r5: Redis)
    requires bound == Acceptance(1).(maintenance := Some(Digest(OWNER)))
    requires r4 == Redis(map[1 := bound.(status := MarketSnapshot, completed := true)], [], map[], map[], -1,
                         Some(Lease(OWNER, Some(Digest(OWNER)), Some(1), 100)))
    requires r5 == EMPTY_REDIS.(count := -1)
    ensures RedisStep(r4, Shared(Release(OWNER)), 1, 0).redis == r5
  {
    var o := RedisStep(r4, Shared(Release(OWNER)), 1, 0).redis;
    assert o.tasks == map[] && o.symbols == map[] && o.aliases == map[];
  }

  lemma TwoAreAdmitted(r: Redis)
    requires r == EMPTY_REDIS.(count := -1)
    ensures
      var first := RedisSubmitted(r, Submission(2, 600000), 1, 0);
      var second := RedisSubmitted(first.redis, Submission(3, 600001), 1, 0);
      first.reply.Answer? && second.reply.Answer? && ActiveCount(second.redis.tasks) == 2
  {
    assert ActiveIds(map[2 := Submission(2, 600000), 3 := Submission(3, 600001)]) == {2, 3};
  }
}
