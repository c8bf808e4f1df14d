/** Runs from the empty stores that tell the two queues apart, and one that breaks the deployment freeze. */
module TellingApart {
  import opened Wrappers
  import opened TaskRecords
  import opened InMemoryQueue
  import opened QueueInvariants
  import opened RedisQueue
  import opened LeaseAgreement
  import opened QueueSimulation
  import opened SimulationRuns
  import Counter = AdmissionCounter

  function Sent(id: Id, symbol: Symbol): Task {
    Task(id, symbol, false, None, Queued, 0, 0, false)
  }

  function RunRedis(r: Redis, calls: seq<Call>, cap: nat): (o: Redis)
    requires WellKeyed(r.tasks)
    ensures WellKeyed(o.tasks)
    decreases |calls|
  {
    if calls == [] then r else RunRedis(NextRedis(r, calls[0], cap), calls[1..], cap)
  }

  /** One call less to go. */
  lemma OneCall(m: Mem, calls: seq<Call>, cap: nat, next: Mem)
    requires WellKeyed(m.tasks) && calls != [] && Step(m, calls[0].op, cap, calls[0].now).mem == next
    ensures WellKeyed(next.tasks) && Run(m, calls, cap) == Run(next, calls[1..], cap)
    ensures FreshRun(m, calls, cap) <==> FreshOp(m, calls[0].op) && FreshRun(next, calls[1..], cap)
  {
    hide Step;
    StepKeepsKeys(m, calls[0].op, cap, calls[0].now);
  }

  lemma OneRedisCall(r: Redis, calls: seq<Call>, cap: nat, next: Redis)
    requires WellKeyed(r.tasks) && calls != [] && RedisStep(r, Shared(calls[0].op), cap, calls[0].now).redis == next
    ensures RunRedis(r, calls, cap) == RunRedis(next, calls[1..], cap)
  {
    hide RedisStep;
  }

  // ------------------------------------------------ requeueing a queued task

  /** A task is submitted, and requeued while it is still queued. */
  const REQUEUED: seq<Call> := [Call(Submit(Sent(1, 600000)), 0), Call(Requeue(1), 0)]

  lemma SubmittedAlone(m: Mem, r: Redis, cap: nat)
    requires cap > 0 && m == EMPTY.(tasks := map[1 := Sent(1, 600000)], fifo := [1])
    requires r == EMPTY_REDIS.(tasks := m.tasks, queue := [1], symbols := map[600000 := 1], count := 1)
    ensures Step(EMPTY, Submit(Sent(1, 600000)), cap, 0) == Outcome(m, Answer(Sent(1, 600000)))
    ensures RedisStep(EMPTY_REDIS, Shared(Submit(Sent(1, 600000))), cap, 0) == RedisOutcome(r, Answer(Sent(1, 600000)))
  {
    assert ActiveIds(EMPTY.tasks) == {};
    assert Candidates(EMPTY.tasks, 600000, None) == {};
  }

  /** It is an error in memory and an answer in Redis. */
  lemma RequeueingTellsApart(cap: nat)
    requires cap > 0
    ensures Peaceful(EMPTY, REQUEUED, cap, 0) && !AnswerAlike(EMPTY, EMPTY_REDIS, REQUEUED, cap)
  {
    hide AnswerAlike, NothingTellsApart, RedisStep, Step, FreshOp;
    var m := EMPTY.(tasks := map[1 := Sent(1, 600000)], fifo := [1]);
    var r := EMPTY_REDIS.(tasks := m.tasks, queue := [1], symbols := map[600000 := 1], count := 1);
    SubmittedAlone(m, r, cap);
    assert After(EMPTY, REQUEUED, cap) == m;
    assert REQUEUED[1..] == [Call(Requeue(1), 0)] && REQUEUED[1..][1..] == [];
    RequeuedIsPeaceful(m, cap);
    StoresAnswerAlikeExactly(REQUEUED, cap, 0);
    RequeuedTells(m, cap);
  }

  lemma RequeuedIsPeaceful(m: Mem, cap: nat)
    requires m == EMPTY.(tasks := map[1 := Sent(1, 600000)], fifo := [1]) && After(EMPTY, REQUEUED, cap) == m
    ensures Peaceful(EMPTY, REQUEUED, cap, 0)
  {
    hide Step;
    assert REQUEUED[1..] == [Call(Requeue(1), 0)] && REQUEUED[1..][1..] == [];
    assert Peaceful(m, REQUEUED[1..], cap, 0);
  }

  lemma RequeuedTells(m: Mem, cap: nat)
    requires m == EMPTY.(tasks := map[1 := Sent(1, 600000)], fifo := [1]) && After(EMPTY, REQUEUED, cap) == m
    ensures !NothingTellsApart(EMPTY, EMPTY_REDIS, REQUEUED, cap)
  {
    hide Step, RedisStep, Split;
    assert REQUEUED[1..] == [Call(Requeue(1), 0)];
    assert RequeuesQueued(m, REQUEUED[1..][0].op);
  }

  // ------------------------------------------- failing a task in the queue

  /** Two tasks are queued; the first is failed by a raw transition and retried. */
  const RETRIED: seq<Call> := [
    Call(Submit(Sent(1, 600000)), 0), Call(Submit(Sent(2, 600001)), 0), Call(Report(1, Transition(Failed)), 0), Call(Retry(1), 0)]

  function TwoQueued(fifo: seq<Id>, status: Status, completed: bool): Mem {
    EMPTY.(tasks := map[1 := Sent(1, 600000).(status := status, completed := completed), 2 := Sent(2, 600001)], fifo := fifo)
  }

  function TwoQueuedKeys(queue: seq<Id>, status: Status, completed: bool, count: int): Redis {
    EMPTY_REDIS.(tasks := TwoQueued([], status, completed).tasks, queue := queue, symbols := map[600000 := 1, 600001 := 2], count := count)
  }

  lemma SubmittedSecond(m: Mem, r: Redis, cap: nat)
    requires cap > 1 && m == EMPTY.(tasks := map[1 := Sent(1, 600000)], fifo := [1])
    requires r == EMPTY_REDIS.(tasks := m.tasks, queue := [1], symbols := map[600000 := 1], count := 1)
    ensures Step(m, Submit(Sent(2, 600001)), cap, 0).mem == TwoQueued([1, 2], Queued, false)
    ensures RedisStep(r, Shared(Submit(Sent(2, 600001))), cap, 0).redis == TwoQueuedKeys([1, 2], Queued, false, 2)
  {
    assert ActiveIds(m.tasks) == {1};
    assert Candidates(m.tasks, 600001, None) == {};
  }

  lemma FailedAndRetried(cap: nat)
    ensures Step(TwoQueued([1, 2], Queued, false), Report(1, Transition(Failed)), cap, 0).mem == TwoQueued([1, 2], Failed, true)
    ensures Step(TwoQueued([1, 2], Failed, true), Retry(1), cap, 0).mem == TwoQueued([2, 1], Queued, false)
  {
    assert [1, 2][1..] == [2] && [2][1..] == [];
    assert Without([2], {1}) == [2];
    assert ToTail([1, 2], 1) == [2, 1];
  }

  lemma FailedAndRetriedKeys(cap: nat)
    ensures RedisStep(TwoQueuedKeys([1, 2], Queued, false, 2), Shared(Report(1, Transition(Failed))), cap, 0).redis
         == TwoQueuedKeys([1, 2], Failed, true, 1)
    ensures RedisStep(TwoQueuedKeys([1, 2], Failed, true, 1), Shared(Retry(1)), cap, 0).redis == TwoQueuedKeys([1, 2, 1], Queued, false, 2)
  {
  }

  lemma ClaimAfterRetry()
    ensures ClaimedNext(TwoQueued([2, 1], Queued, false), 0).reply == Answer(Claimed(Sent(2, 600001), 0))
  {
    hide Without;
    var m := TwoQueued([2, 1], Queued, false);
    assert m.tasks[2] == Sent(2, 600001) && m.fifo[0] == 2;
    assert QueuedOf(m.fifo, m.tasks)[0] == 2;
  }

  lemma RedisClaimAfterRetry()
    ensures RedisClaimed(TwoQueuedKeys([1, 2, 1], Queued, false, 2), 0).reply == Answer(Claimed(Sent(1, 600000), 0))
  {
    hide Without, Popped;
    var r := TwoQueuedKeys([1, 2, 1], Queued, false, 2);
    assert r.tasks[1] == Sent(1, 600000) && r.queue[0] == 1;
    assert QueuedOf(r.queue, r.tasks)[0] == 1;
  }

  /** In memory the retried task goes behind the other, in Redis its old entry is still in front: the next claims differ. */
  lemma FailingInQueueTellsApart(cap: nat)
    requires cap > 1
    ensures
      var m, r := Run(EMPTY, RETRIED, cap), RunRedis(EMPTY_REDIS, RETRIED, cap);
      ClaimedNext(m, 0).reply == Answer(Claimed(Sent(2, 600001), 0)) && RedisClaimed(r, 0).reply == Answer(Claimed(Sent(1, 600000), 0))
  {
    hide Step, RedisStep, Run, RunRedis, ClaimedNext, RedisClaimed, FreshRun, FreshOp, TwoQueued, TwoQueuedKeys;
    var m := EMPTY.(tasks := map[1 := Sent(1, 600000)], fifo := [1]);
    var r := EMPTY_REDIS.(tasks := m.tasks, queue := [1], symbols := map[600000 := 1], count := 1);
    SubmittedAlone(m, r, cap);
    SubmittedSecond(m, r, cap);
    FailedAndRetried(cap);
    FailedAndRetriedKeys(cap);
    OneCall(EMPTY, RETRIED, cap, m);
    OneRedisCall(EMPTY_REDIS, RETRIED, cap, r);
    assert RETRIED[1..][1..] == RETRIED[2..] && RETRIED[2..][1..] == RETRIED[3..] && RETRIED[3..][1..] == [];
    OneCall(m, RETRIED[1..], cap, TwoQueued([1, 2], Queued, false));
    OneRedisCall(r, RETRIED[1..], cap, TwoQueuedKeys([1, 2], Queued, false, 2));
    OneCall(TwoQueued([1, 2], Queued, false), RETRIED[2..], cap, TwoQueued([1, 2], Failed, true));
    OneRedisCall(TwoQueuedKeys([1, 2], Queued, false, 2), RETRIED[2..], cap, TwoQueuedKeys([1, 2], Failed, true, 1));
    OneCall(TwoQueued([1, 2], Failed, true), RETRIED[3..], cap, TwoQueued([2, 1], Queued, false));
    OneRedisCall(TwoQueuedKeys([1, 2], Failed, true, 1), RETRIED[3..], cap, TwoQueuedKeys([1, 2, 1], Queued, false, 2));
    NoCalls(TwoQueued([2, 1], Queued, false), TwoQueuedKeys([1, 2, 1], Queued, false, 2), cap);
    ClaimAfterRetry();
    RedisClaimAfterRetry();
  }

  lemma NoCalls(m: Mem, r: Redis, cap: nat)
    requires WellKeyed(m.tasks) && WellKeyed(r.tasks)
    ensures Run(m, [], cap) == m && RunRedis(r, [], cap) == r && FreshRun(m, [], cap)
  {
  }

  // --------------------------------------- leftovers of an earlier deployment

  function Acceptance(id: Id): Task {
    Sent(id, ACCEPTANCE_SYMBOL)
  }

  function LeaseOf(owner: Owner, bound: Option<Id>, expiresAt: int): Lease {
    Lease(owner, Some(Digest(owner)), bound, expiresAt)
  }

  /** A lease runs out before its acceptance task was claimed, another owner takes the next one, and cleans up. */
  const ABANDONED: seq<Call> := [
    Call(Acquire(1, 10), 0), Call(Bind(1, Acceptance(1)), 0), Call(Acquire(2, 100), 20), Call(Cleanup, 20)]

  function WithBound(lease: Lease): Mem {
    Mem(map[1 := Acceptance(1).(maintenance := Some(Digest(1)))], [1], map[], Some(lease))
  }

  function KeysOf(m: Mem): Redis {
    Redis(m.tasks, m.fifo, map[], m.aliases, 0, m.lease)
  }

  lemma FirstLease(cap: nat)
    requires cap > 0
    ensures Step(EMPTY, Acquire(1, 10), cap, 0).mem == EMPTY.(lease := Some(LeaseOf(1, None, 10)))
    ensures Step(EMPTY.(lease := Some(LeaseOf(1, None, 10))), Bind(1, Acceptance(1)), cap, 0).mem == WithBound(LeaseOf(1, Some(1), 10))
    ensures RedisStep(EMPTY_REDIS, Shared(Acquire(1, 10)), cap, 0).redis == KeysOf(EMPTY.(lease := Some(LeaseOf(1, None, 10))))
    ensures RedisStep(KeysOf(EMPTY.(lease := Some(LeaseOf(1, None, 10)))), Shared(Bind(1, Acceptance(1))), cap, 0).redis
         == KeysOf(WithBound(LeaseOf(1, Some(1), 10)))
  {
    assert ActiveIds(EMPTY.tasks) == {};
  }

  lemma SecondLease(cap: nat)
    ensures Step(WithBound(LeaseOf(1, Some(1), 10)), Acquire(2, 100), cap, 20).mem == WithBound(LeaseOf(2, None, 120))
    ensures RedisStep(KeysOf(WithBound(LeaseOf(1, Some(1), 10))), Shared(Acquire(2, 100)), cap, 20).redis == KeysOf(WithBound(LeaseOf(2, None, 120)))
  {
  }

  lemma CleanedUnderLease(cap: nat)
    ensures Step(WithBound(LeaseOf(2, None, 120)), Cleanup, cap, 20).mem == EMPTY.(lease := Some(LeaseOf(2, None, 120)))
    ensures RedisStep(KeysOf(WithBound(LeaseOf(2, None, 120))), Shared(Cleanup), cap, 20).redis == KeysOf(WithBound(LeaseOf(2, None, 120)))
  {
    var m := WithBound(LeaseOf(2, None, 120));
    assert Leftovers(m) == {1};
    assert m.tasks - {1} == map[];
    assert [1][1..] == [];
    assert Without([1], {1}) == [];
    NothingPruned(m, KeysOf(m));
  }

  /** The memory queue has no task left, Redis still has the abandoned one. */
  lemma CleanupTellsApart(cap: nat)
    requires cap > 0
    ensures
      var m, r := Run(EMPTY, ABANDONED, cap), RunRedis(EMPTY_REDIS, ABANDONED, cap);
      FreshRun(EMPTY, ABANDONED, cap) && m.tasks == map[] && 1 in r.tasks && m.lease == r.lease == Some(LeaseOf(2, None, 120))
  {
    hide Step, RedisStep, Run, RunRedis, FreshRun;
    var m1 := EMPTY.(lease := Some(LeaseOf(1, None, 10)));
    var m2, m3, m4 := WithBound(LeaseOf(1, Some(1), 10)), WithBound(LeaseOf(2, None, 120)), EMPTY.(lease := Some(LeaseOf(2, None, 120)));
    FirstLease(cap);
    SecondLease(cap);
    CleanedUnderLease(cap);
    assert ABANDONED[1..][1..] == ABANDONED[2..] && ABANDONED[2..][1..] == ABANDONED[3..] && ABANDONED[3..][1..] == [];
    OneCall(EMPTY, ABANDONED, cap, m1);
    OneRedisCall(EMPTY_REDIS, ABANDONED, cap, KeysOf(m1));
    OneCall(m1, ABANDONED[1..], cap, m2);
    OneRedisCall(KeysOf(m1), ABANDONED[1..], cap, KeysOf(m2));
    OneCall(m2, ABANDONED[2..], cap, m3);
    OneRedisCall(KeysOf(m2), ABANDONED[2..], cap, KeysOf(m3));
    OneCall(m3, ABANDONED[3..], cap, m4);
    OneRedisCall(KeysOf(m3), ABANDONED[3..], cap, KeysOf(m3));
    NoCalls(m4, KeysOf(m3), cap);
  }

  // ------------------------------------------------------ breaking the freeze

  /** A task waits for an administrator when a lease is taken, and is then moved to PARTIAL. */
  const THAWED: seq<Call> := [
    Call(Submit(Sent(1, 600000)), 0), Call(Claim, 0), Call(Report(1, Transition(WaitingAdmin)), 0), Call(Acquire(1, 100), 0),
    Call(Report(1, Transition(Partial)), 0)]

  function OneTask(status: Status, lease: Option<Lease>): Mem {
    Mem(map[1 := Sent(1, 600000).(status := status)], [1], map[], lease)
  }

  lemma WaitingStates(cap: nat)
    requires cap > 0
    ensures Step(EMPTY, Submit(Sent(1, 600000)), cap, 0).mem == OneTask(Queued, None)
    ensures Step(OneTask(Queued, None), Claim, cap, 0).mem == OneTask(Running, None)
    ensures Step(OneTask(Running, None), Report(1, Transition(WaitingAdmin)), cap, 0).mem == OneTask(WaitingAdmin, None)
  {
    hide Submitted, RedisSubmitted;
    var m := OneTask(Queued, None);
    SubmittedAlone(m, EMPTY_REDIS.(tasks := m.tasks, queue := [1], symbols := map[600000 := 1], count := 1), cap);
  }

  lemma PartialStates(cap: nat)
    ensures Step(OneTask(WaitingAdmin, None), Acquire(1, 100), cap, 0).mem == OneTask(WaitingAdmin, Some(LeaseOf(1, None, 100)))
    ensures Step(OneTask(WaitingAdmin, Some(LeaseOf(1, None, 100))), Report(1, Transition(Partial)), cap, 0).mem
         == OneTask(Partial, Some(LeaseOf(1, None, 100)))
  {
  }

  /** The ordinary task is open again under the lease: without the last call the freeze held. */
  lemma WaitingBecomesPartial(cap: nat)
    requires cap > 0
    ensures
      var m := Run(EMPTY, THAWED, cap);
      FreshRun(EMPTY, THAWED, cap) && m.lease.Some? && 1 in m.tasks && Ordinary(m.tasks[1]) && Busy(m.tasks[1]) && !Frozen(m)
    ensures Frozen(Run(EMPTY, THAWED[..4], cap)) && Run(EMPTY, THAWED[..4], cap).lease.Some?
  {
    hide Step, Run, FreshRun;
    var waiting, frozen, open := OneTask(WaitingAdmin, None), OneTask(WaitingAdmin, Some(LeaseOf(1, None, 100))), OneTask(Partial, Some(LeaseOf(1, None, 100)));
    WaitingStates(cap);
    PartialStates(cap);
    assert THAWED[1..][1..] == THAWED[2..] && THAWED[2..][1..] == THAWED[3..] && THAWED[3..][1..] == THAWED[4..] && THAWED[4..][1..] == [];
    OneCall(EMPTY, THAWED, cap, OneTask(Queued, None));
    OneCall(OneTask(Queued, None), THAWED[1..], cap, OneTask(Running, None));
    OneCall(OneTask(Running, None), THAWED[2..], cap, waiting);
    OneCall(waiting, THAWED[3..], cap, frozen);
    OneCall(frozen, THAWED[4..], cap, open);
    NoCalls(open, EMPTY_REDIS, cap);
    assert open.tasks[1].status.Partial?;
    FrozenSoFar(cap);
  }

  lemma FrozenSoFar(cap: nat)
    requires cap > 0
    ensures Run(EMPTY, THAWED[..4], cap) == OneTask(WaitingAdmin, Some(LeaseOf(1, None, 100)))
  {
    hide Step, Run, FreshRun;
    var calls := THAWED[..4];
    WaitingStates(cap);
    PartialStates(cap);
    assert calls[1..][1..] == calls[2..] && calls[2..][1..] == calls[3..] && calls[3..][1..] == [];
    OneCall(EMPTY, calls, cap, OneTask(Queued, None));
    OneCall(OneTask(Queued, None), calls[1..], cap, OneTask(Running, None));
    OneCall(OneTask(Running, None), calls[2..], cap, OneTask(WaitingAdmin, None));
    OneCall(OneTask(WaitingAdmin, None), calls[3..], cap, OneTask(WaitingAdmin, Some(LeaseOf(1, None, 100))));
    NoCalls(OneTask(WaitingAdmin, Some(LeaseOf(1, None, 100))), EMPTY_REDIS, cap);
  }

  // --------------------------------------------------- a miscounted deployment

  /** A deployment from its lease to its release, as the two stores see it. */
  const DEPLOYED: seq<Call> := [
    Call(Acquire(Counter.OWNER, 100), 0), Call(Bind(Counter.OWNER, Counter.Acceptance(1)), 0), Call(Claim, 0),
    Call(Report(1, SnapshotReady), 0), Call(Release(Counter.OWNER), 0)]

  /** The calls as Redis runs them. */
  function OnRedis(calls: seq<Call>): seq<Counter.RedisCall> {
    seq(|calls|, i requires 0 <= i < |calls| => Counter.RedisCall(Shared(calls[i].op), calls[i].now))
  }

  function Deployed(status: Status, completed: bool, fifo: seq<Id>): Mem {
    Mem(map[1 := Counter.Acceptance(1).(maintenance := Some(Digest(Counter.OWNER)), status := status, completed := completed)], fifo, map[],
        Some(LeaseOf(Counter.OWNER, Some(1), 100)))
  }

  lemma DeploymentBinds(cap: nat)
    requires cap > 0
    ensures Step(EMPTY, Acquire(Counter.OWNER, 100), cap, 0).mem == EMPTY.(lease := Some(LeaseOf(Counter.OWNER, None, 100)))
    ensures Step(EMPTY.(lease := Some(LeaseOf(Counter.OWNER, None, 100))), Bind(Counter.OWNER, Counter.Acceptance(1)), cap, 0).mem
         == Deployed(Queued, false, [1])
  {
    assert ActiveIds(EMPTY.tasks) == {};
  }

  lemma DeploymentEnds(cap: nat)
    ensures Step(Deployed(Queued, false, [1]), Claim, cap, 0).mem == Deployed(Running, false, [])
    ensures Step(Deployed(Running, false, []), Report(1, SnapshotReady), cap, 0).mem == Deployed(MarketSnapshot, true, [])
    ensures Step(Deployed(MarketSnapshot, true, []), Release(Counter.OWNER), cap, 0).mem == EMPTY
  {
    assert [1][1..] == [];
    assert Without([1], {1}) == [];
    var o := Step(Deployed(MarketSnapshot, true, []), Release(Counter.OWNER), cap, 0).mem;
    assert o.tasks == map[] && o.aliases == map[];
  }

  lemma DeploymentLeavesNothing(cap: nat)
    requires cap > 0
    ensures Run(EMPTY, DEPLOYED, cap) == EMPTY && FreshRun(EMPTY, DEPLOYED, cap)
  {
    hide Step, Run, FreshRun, Deployed;
    var leased := EMPTY.(lease := Some(LeaseOf(Counter.OWNER, None, 100)));
    DeploymentBinds(cap);
    DeploymentEnds(cap);
    assert DEPLOYED[1..][1..] == DEPLOYED[2..] && DEPLOYED[2..][1..] == DEPLOYED[3..] && DEPLOYED[3..][1..] == DEPLOYED[4..] && DEPLOYED[4..][1..] == [];
    OneCall(EMPTY, DEPLOYED, cap, leased);
    OneCall(leased, DEPLOYED[1..], cap, Deployed(Queued, false, [1]));
    OneCall(Deployed(Queued, false, [1]), DEPLOYED[2..], cap, Deployed(Running, false, []));
    OneCall(Deployed(Running, false, []), DEPLOYED[3..], cap, Deployed(MarketSnapshot, true, []));
    OneCall(Deployed(MarketSnapshot, true, []), DEPLOYED[4..], cap, EMPTY);
    NoCalls(EMPTY, EMPTY_REDIS, cap);
  }

  lemma SecondIsRefused()
    ensures
      var first := Submitted(EMPTY, Counter.Submission(2, 600000), 1, 0);
      WellKeyed(first.mem.tasks) && first.reply.Answer? && Submitted(first.mem, Counter.Submission(3, 600001), 1, 0).reply.QueueFull?
  {
    assert ActiveIds(EMPTY.tasks) == {};
    assert Candidates(EMPTY.tasks, 600000, None) == {};
    var tasks := map[2 := Counter.Submission(2, 600000)];
    assert ActiveIds(tasks) == {2};
    assert Candidates(tasks, 600001, None) == {};
  }

  /** After one deployment, and with room for one task, memory refuses the second submission and Redis takes it. */
  lemma DeploymentTellsApart()
    ensures OnRedis(DEPLOYED) == Counter.DEPLOYMENT
    ensures
      var m, r := Run(EMPTY, DEPLOYED, 1), Counter.RedisRun(EMPTY_REDIS, Counter.DEPLOYMENT, 1);
      var a, b := Submitted(m, Counter.Submission(2, 600000), 1, 0), RedisSubmitted(r, Counter.Submission(2, 600000), 1, 0);
      && WellKeyed(a.mem.tasks) && a.reply.Answer? && b.reply.Answer?
      && Submitted(a.mem, Counter.Submission(3, 600001), 1, 0).reply.QueueFull?
      && RedisSubmitted(b.redis, Counter.Submission(3, 600001), 1, 0).reply.Answer?
  {
    hide Run, FreshRun, Submitted, RedisSubmitted, ActiveCount, Counter.RedisRun;
    assert |OnRedis(DEPLOYED)| == |Counter.DEPLOYMENT| == 5;
    assert forall i | 0 <= i < 5 :: OnRedis(DEPLOYED)[i] == Counter.DEPLOYMENT[i];
    DeploymentLeavesNothing(1);
    SecondIsRefused();
    Counter.DeploymentLosesACount(1);
  }
}
