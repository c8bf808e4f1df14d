/** Runs of the two queues side by side, from the empty stores, deployments included. */
module SimulationRuns {
  import opened Wrappers
  import opened TaskRecords
  import opened InMemoryQueue
  import opened QueueInvariants
  import opened RedisQueue
  import opened LeaseAgreement
  import opened AdmissionCounter
  import opened QueueSimulation

  // --------------------------------------------------------- tidy lists

  predicate OrdinaryRunning(tasks: Tasks, id: Id) {
    id in tasks && tasks[id].status.Running? && Ordinary(tasks[id])
  }

  function OrdinaryRunningIds(tasks: Tasks): set<Id> {
    set id | id in tasks && OrdinaryRunning(tasks, id)
  }

  ghost predicate NoneRunning(list: seq<Id>, tasks: Tasks) {
    forall x <- list :: !OrdinaryRunning(tasks, x)
  }

  /** Running ordinary tasks come before queued ones. */
  ghost predicate RunningFirst(list: seq<Id>, tasks: Tasks) {
    list != [] ==> (InQueue(tasks, list[0]) ==> NoneRunning(list[1..], tasks)) && RunningFirst(list[1..], tasks)
  }

  predicate NoRepeats(list: seq<Id>) {
    list != [] ==> list[0] !in list[1..] && NoRepeats(list[1..])
  }

  /** The Redis list holds no ordinary id but queued ones, the deque every id once with running tasks first. */
  ghost predicate Tidy(m: Mem, r: Redis) {
    NoRepeats(m.fifo) && RunningFirst(m.fifo, m.tasks) && OnlyQueued(r.queue, r.tasks)
  }

  ghost predicate OnlyQueued(queue: seq<Id>, tasks: Tasks) {
    forall x <- queue :: x in tasks && (Ordinary(tasks[x]) ==> tasks[x].status.Queued?)
  }

  /** Not a raw transition out of the queue, nor one to RUNNING that is not a claim. */
  predicate Calm(m: Mem, op: Op) {
    op.Report? && op.progress.Transition? && op.id in m.tasks ==> !m.tasks[op.id].status.Queued? && !op.progress.next.Running?
  }

  predicate OneAtRecovery(m: Mem, op: Op) {
    op.Recover? ==> |OrdinaryRunningIds(m.tasks)| <= 1
  }

  /** Under a lease a clean-up finds nothing of earlier ones. */
  predicate CleanInTime(m: Mem, op: Op, now: int) {
    op.Cleanup? ==> Live(m, now).lease.None? || Leftovers(Live(m, now)) == {}
  }

  // ------------------------------------------------ keeping the lists tidy

  lemma {:induction false} WithoutIsTidy(list: seq<Id>, ids: set<Id>, tasks: Tasks)
    requires NoRepeats(list) && RunningFirst(list, tasks)
    ensures NoRepeats(Without(list, ids)) && RunningFirst(Without(list, ids), tasks)
  {
    if list != [] {
      WithoutIsTidy(list[1..], ids, tasks);
      WithoutMembers(list[1..], ids);
      if list[0] !in ids {
        assert Without(list, ids)[1..] == Without(list[1..], ids);
      } else {
        assert Without(list, ids) == Without(list[1..], ids);
      }
    }
  }

  lemma {:induction false} AppendIsTidy(list: seq<Id>, id: Id, tasks: Tasks)
    requires NoRepeats(list) && RunningFirst(list, tasks) && id !in list && !OrdinaryRunning(tasks, id)
    ensures NoRepeats(list + [id]) && RunningFirst(list + [id], tasks)
  {
    if list != [] {
      AppendIsTidy(list[1..], id, tasks);
      assert (list + [id])[1..] == list[1..] + [id];
    } else {
      assert [id][1..] == [];
    }
  }

  /** Ordinary tasks that become neither running nor queued do not disturb the order. */
  lemma {:induction false} QuieterIsTidy(list: seq<Id>, tasks: Tasks, after: Tasks)
    requires RunningFirst(list, tasks)
    requires forall x <- list :: (InQueue(after, x) ==> InQueue(tasks, x)) && (OrdinaryRunning(after, x) ==> OrdinaryRunning(tasks, x))
    ensures RunningFirst(list, after)
  {
    if list != [] {
      assert list[0] in list;
      QuieterIsTidy(list[1..], tasks, after);
    }
  }

  lemma {:induction false} NoneRunningIsTidy(list: seq<Id>, tasks: Tasks)
    requires NoneRunning(list, tasks)
    ensures RunningFirst(list, tasks)
  {
    if list != [] {
      NoneRunningIsTidy(list[1..], tasks);
    }
  }

  /** Claiming the first queued id keeps running tasks first. */
  lemma {:induction false} ClaimIsTidy(list: seq<Id>, tasks: Tasks, id: Id, task: Task)
    requires NoRepeats(list) && RunningFirst(list, tasks) && task.status.Running?
    requires QueuedOf(list, tasks) != [] && QueuedOf(list, tasks)[0] == id
    ensures RunningFirst(list, tasks[id := task])
  {
    if list[0] != id {
      ClaimIsTidy(list[1..], tasks, id, task);
    } else {
      QuieterIsTidy(list[1..], tasks, tasks[id := task]);
    }
  }

  lemma {:induction false} QueuedHasNoRepeats(list: seq<Id>, tasks: Tasks)
    requires NoRepeats(list)
    ensures NoRepeats(QueuedOf(list, tasks))
  {
    if list != [] {
      QueuedHasNoRepeats(list[1..], tasks);
      QueuedOfMembers(list[1..], tasks);
      if InQueue(tasks, list[0]) {
        assert QueuedOf(list, tasks)[1..] == QueuedOf(list[1..], tasks);
      } else {
        assert QueuedOf(list, tasks) == QueuedOf(list[1..], tasks);
      }
    }
  }

  // -------------------------------------------------------------- recovery

  /** The running ordinary ids, in order. */
  function RunningOf(list: seq<Id>, tasks: Tasks): seq<Id> {
    if list == [] then [] else (if OrdinaryRunning(tasks, list[0]) then [list[0]] else []) + RunningOf(list[1..], tasks)
  }

  ghost predicate Recovers(tasks: Tasks, recovered: Tasks) {
    forall x :: InQueue(recovered, x) <==> InQueue(tasks, x) || OrdinaryRunning(tasks, x)
  }

  /** Recovering in place puts the running tasks, in the list's order, before the queued ones. */
  lemma {:induction false} RecoveredInPlace(list: seq<Id>, tasks: Tasks, recovered: Tasks)
    requires RunningFirst(list, tasks) && Recovers(tasks, recovered)
    ensures QueuedOf(list, recovered) == RunningOf(list, tasks) + QueuedOf(list, tasks)
  {
    hide QueuedOf, RunningOf;
    QueuedHead(list, tasks, recovered);
    if list != [] {
      var x, rest := list[0], list[1..];
      RecoveredInPlace(rest, tasks, recovered);
      var before, after, running := QueuedOf(rest, tasks), QueuedOf(rest, recovered), RunningOf(rest, tasks);
      if InQueue(tasks, x) {
        NothingRuns(rest, tasks);
        assert after == before;
        assert RunningOf(list, tasks) == [];
        assert [] + ([x] + before) == [x] + before;
      } else if OrdinaryRunning(tasks, x) {
        assert ([x] + running) + before == [x] + (running + before);
      }
    }
  }

  /** What the first id of a list adds to its queued and to its running ids. */
  lemma QueuedHead(list: seq<Id>, tasks: Tasks, recovered: Tasks)
    requires Recovers(tasks, recovered)
    ensures list == [] ==> QueuedOf(list, tasks) == [] && QueuedOf(list, recovered) == [] && RunningOf(list, tasks) == []
    ensures
      list != [] ==>
        var x, rest := list[0], list[1..];
        && QueuedOf(list, tasks) == (if InQueue(tasks, x) then [x] + QueuedOf(rest, tasks) else QueuedOf(rest, tasks))
        && RunningOf(list, tasks) == (if OrdinaryRunning(tasks, x) then [x] + RunningOf(rest, tasks) else RunningOf(rest, tasks))
        && QueuedOf(list, recovered)
           == (if InQueue(tasks, x) || OrdinaryRunning(tasks, x) then [x] + QueuedOf(rest, recovered) else QueuedOf(rest, recovered))
  {
    assert list != [] ==> (InQueue(recovered, list[0]) <==> InQueue(tasks, list[0]) || OrdinaryRunning(tasks, list[0]));
  }

  lemma {:induction false} NothingRuns(list: seq<Id>, tasks: Tasks)
    requires NoneRunning(list, tasks)
    ensures RunningOf(list, tasks) == []
  {
    if list != [] {
      assert list[0] in list;
      NothingRuns(list[1..], tasks);
    }
  }

  lemma {:induction false} OneRuns(list: seq<Id>, tasks: Tasks, id: Id)
    requires NoRepeats(list) && id in list && OrdinaryRunning(tasks, id) && forall x :: OrdinaryRunning(tasks, x) ==> x == id
    ensures RunningOf(list, tasks) == [id]
  {
    if list[0] == id {
      NothingRuns(list[1..], tasks);
    } else {
      OneRuns(list[1..], tasks, id);
    }
  }

  lemma {:induction false} CreationOrderHasNoRepeats(tasks: Tasks, ids: set<Id>)
    requires WellKeyed(tasks) && ids <= tasks.Keys
    ensures NoRepeats(InCreationOrder(tasks, ids))
    decreases |ids|
  {
    if ids != {} {
      var first := Earliest(tasks, ids);
      CreationOrderHasNoRepeats(tasks, ids - {first});
      assert InCreationOrder(tasks, ids)[1..] == InCreationOrder(tasks, ids - {first});
    }
  }

  lemma RecoveringRecovers(tasks: Tasks, now: int)
    ensures Recovers(tasks, RecoveredTasks(tasks, now))
  {
  }

  /** In tidy stores recovery diverges exactly when the running tasks were claimed in another order than created. */
  lemma RecoveryOrder(m: Mem, r: Redis, cap: nat, now: int)
    requires Matches(m, r, now) && Tidy(m, r)
    ensures WellKeyed(m.tasks)
    ensures Diverges(m, r, Recover, cap, now) <==> RunningOf(m.fifo, m.tasks) != RunningOf(InCreationOrder(m.tasks, RunningIds(m.tasks)), m.tasks)
  {
    hide QueuedOf, InCreationOrder, RunningFirst, NoRepeats, RunningOf, Indexed, SameStore, AliasesSound, MaintenanceSound, LeaseSound, Recovers, RecoveredTasks;
    SameTasks(m, r, now);
    var tasks, recovered := m.tasks, RecoveredTasks(m.tasks, now);
    var order, queue := InCreationOrder(tasks, RunningIds(tasks)), r.queue;
    RecoveringRecovers(tasks, now);
    RecoveredInPlace(m.fifo, tasks, recovered);
    OrderRecovers(tasks, recovered);
    QueueRecovers(queue, tasks, recovered);
    QueuedOfConcat(order, queue, recovered);
    if RunningOf(m.fifo, tasks) + QueuedOf(queue, tasks) == RunningOf(order, tasks) + QueuedOf(queue, tasks) {
      SamePrefix(RunningOf(m.fifo, tasks), RunningOf(order, tasks), QueuedOf(queue, tasks));
    }
  }

  lemma OrderRecovers(tasks: Tasks, recovered: Tasks)
    requires WellKeyed(tasks) && Recovers(tasks, recovered)
    ensures var order := InCreationOrder(tasks, RunningIds(tasks)); QueuedOf(order, recovered) == RunningOf(order, tasks)
  {
    hide QueuedOf, InCreationOrder, RunningOf, Recovers;
    var order := InCreationOrder(tasks, RunningIds(tasks));
    CreationOrderMembers(tasks);
    NothingQueued(order, tasks);
    RecoveredInPlace(order, tasks, recovered);
  }

  lemma {:induction false} NothingQueued(list: seq<Id>, tasks: Tasks)
    requires forall x <- list :: !InQueue(tasks, x)
    ensures QueuedOf(list, tasks) == [] && RunningFirst(list, tasks)
  {
    if list != [] {
      assert list[0] in list;
      NothingQueued(list[1..], tasks);
    }
  }

  lemma QueueRecovers(queue: seq<Id>, tasks: Tasks, recovered: Tasks)
    requires OnlyQueued(queue, tasks) && Recovers(tasks, recovered)
    ensures QueuedOf(queue, recovered) == QueuedOf(queue, tasks)
  {
    assert forall x <- queue :: InQueue(tasks, x) <==> InQueue(recovered, x);
    QueuedOfSame(queue, tasks, recovered);
  }

  lemma SamePrefix(a: seq<Id>, b: seq<Id>, c: seq<Id>)
    requires a + c == b + c
    ensures a == b
  {
    assert |a + c| == |b + c|;
    assert a == (a + c)[..|a|] && b == (b + c)[..|b|];
  }

  /** With one running ordinary task there is only one order. */
  lemma OneRecoversAlike(m: Mem, r: Redis, now: int)
    requires Matches(m, r, now) && Tidy(m, r) && |OrdinaryRunningIds(m.tasks)| <= 1
    ensures WellKeyed(m.tasks) && RunningOf(m.fifo, m.tasks) == RunningOf(InCreationOrder(m.tasks, RunningIds(m.tasks)), m.tasks)
  {
    hide QueuedOf, InCreationOrder, RunningFirst, Indexed, SameStore, AliasesSound, MaintenanceSound, LeaseSound;
    var running, order := OrdinaryRunningIds(m.tasks), InCreationOrder(m.tasks, RunningIds(m.tasks));
    CreationOrderMembers(m.tasks);
    CreationOrderHasNoRepeats(m.tasks, RunningIds(m.tasks));
    assert forall x :: OrdinaryRunning(m.tasks, x) <==> x in running;
    if running == {} {
      NothingRuns(m.fifo, m.tasks);
      NothingRuns(order, m.tasks);
    } else {
      var id :| id in running;
      SingletonOf(running, id);
      SameTasks(m, r, now);
      assert id in m.fifo && id in RunningIds(m.tasks);
      OneRuns(m.fifo, m.tasks, id);
      OneRuns(order, m.tasks, id);
    }
  }

  lemma SingletonOf(s: set<Id>, x: Id)
    requires x in s && |s| <= 1
    ensures s == {x}
  {
    SetWithout(s, x);
    assert s == (s - {x}) + {x};
  }

  // -------------------------------------------------------------- tidy steps

  /** A task that becomes queued, or one of a lease, at the end of both lists. */
  lemma TailStaysTidy(m: Mem, r: Redis, id: Id, task: Task, fifo: seq<Id>, queue: seq<Id>)
    requires Tidy(m, r) && m.tasks == r.tasks && task.status.Queued?
    requires fifo == Without(m.fifo, {id}) && (queue == r.queue || queue == Without(r.queue, {id}))
    ensures Tidy(m.(tasks := m.tasks[id := task], fifo := fifo + [id]), r.(tasks := m.tasks[id := task], queue := queue + [id]))
  {
    hide Without;
    var tasks := m.tasks[id := task];
    WithoutIsTidy(m.fifo, {id}, m.tasks);
    WithoutMembers(m.fifo, {id});
    WithoutMembers(r.queue, {id});
    QuieterIsTidy(fifo, m.tasks, tasks);
    AppendIsTidy(fifo, id, tasks);
  }

  lemma NewStaysTidy(m: Mem, r: Redis, task: Task)
    requires Tidy(m, r) && m.tasks == r.tasks && task.status.Queued? && task.id !in m.fifo && task.id !in m.tasks
    ensures Tidy(m.(tasks := m.tasks[task.id := task], fifo := m.fifo + [task.id]), r.(tasks := m.tasks[task.id := task], queue := r.queue + [task.id]))
  {
    WithoutAbsent(m.fifo, {task.id});
    TailStaysTidy(m, r, task.id, task, m.fifo, r.queue);
  }

  lemma TidyLooksAtLists(m: Mem, r: Redis, a: Mem, b: Redis)
    requires Tidy(m, r) && a.tasks == m.tasks && a.fifo == m.fifo && b.tasks == r.tasks && b.queue == r.queue
    ensures Tidy(a, b)
  {
  }

  lemma SubmitStaysTidy(m: Mem, r: Redis, task: Task, cap: nat, now: int)
    requires Matches(m, r, now) && Tidy(m, r) && FreshOp(m, Submit(task)) && Stamped(Submit(task), now) && !Split(r, Submit(task), cap)
    ensures Tidy(Submitted(m, task, cap, now).mem, RedisSubmitted(r, task, cap, now).redis)
  {
    hide ActiveCount, QueuedOf, Without, Canonical, Tidy, AliasesSound, MaintenanceSound, LeaseSound, Indexed, ListsMatch, AsksAdmission;
    var a, b := Submitted(m, task, cap, now).mem, RedisSubmitted(r, task, cap, now).redis;
    IndexedIsCanonical(m, r, now, task.symbol);
    SubmissionAsks(m, r, now, task);
    SameTasks(m, r, now);
    TidyLooksAtLists(m, r, m, r);
    if task.maintenance.Some? || !AsksAdmission(r.tasks, Submit(task)) || r.count >= cap {
      TidyLooksAtLists(m, r, a, b);
    } else if task.symbol !in r.symbols {
      UnknownInLists(m, r, now, task.id);
      NewStaysTidy(m, r, task);
      TidyLooksAtLists(m.(tasks := m.tasks[task.id := task], fifo := m.fifo + [task.id]), r.(tasks := m.tasks[task.id := task], queue := r.queue + [task.id]), a, b);
    } else {
      var id := r.symbols[task.symbol];
      var again := task.(id := id);
      assert again == Reset(m.tasks[id], Some(task.includeLongCapture), now);
      var fifo, queue := Without(m.fifo, {id}), Without(r.queue, {id});
      TailStaysTidy(m, r, id, again, fifo, queue);
      TidyLooksAtLists(m.(tasks := m.tasks[id := again], fifo := fifo + [id]), r.(tasks := m.tasks[id := again], queue := queue + [id]), a, b);
    }
  }

  lemma ClaimStaysTidy(m: Mem, r: Redis, now: int)
    requires Matches(m, r, now) && Tidy(m, r)
    ensures Tidy(ClaimedNext(m, now).mem, RedisClaimed(r, now).redis)
  {
    hide QueuedOf, Without, Popped, RunningFirst, NoRepeats, AliasesSound, MaintenanceSound, Indexed;
    var l, k := Live(m, now), LiveKeys(r, now);
    if l.lease.Some? {
      if NextId(l).Some? {
        var id := NextId(l).value;
        var tasks := m.tasks[id := Claimed(m.tasks[id], now)];
        WithoutIsTidy(m.fifo, {id}, m.tasks);
        WithoutMembers(m.fifo, {id});
        WithoutMembers(r.queue, {id});
        QuieterIsTidy(Without(m.fifo, {id}), m.tasks, tasks);
      }
    } else {
      OrdinaryClaimStaysTidy(l, k, now);
    }
  }

  lemma OrdinaryClaimStaysTidy(l: Mem, k: Redis, now: int)
    requires ListsMatch(l.tasks, l.fifo, k.queue) && l.tasks == k.tasks && Tidy(l, k) && l.lease.None? && k.lease.None?
    ensures Tidy(ClaimedNext(l, now).mem, RedisClaimed(k, now).redis)
  {
    hide QueuedOf, Popped, RunningFirst;
    QueuedOfMembers(l.fifo, l.tasks);
    PoppedDropsFirst(k.queue, k.tasks);
    QueuedOfMembers(Popped(k.queue, k.tasks), k.tasks);
    QueuedHasNoRepeats(l.fifo, l.tasks);
    var queued := QueuedOf(l.fifo, l.tasks);
    if queued != [] {
      var id := queued[0];
      assert id in queued && id !in queued[1..];
      ClaimIsTidy(l.fifo, l.tasks, id, Claimed(l.tasks[id], now));
    }
  }

  lemma RecoverStaysTidy(m: Mem, r: Redis, now: int)
    requires Matches(m, r, now) && Tidy(m, r)
    ensures WellKeyed(r.tasks) && Tidy(m.(tasks := RecoveredTasks(m.tasks, now)), RedisRecovered(r, now))
  {
    hide QueuedOf, InCreationOrder, RunningFirst, NoRepeats, AliasesSound, MaintenanceSound, LeaseSound, Indexed;
    CreationOrderMembers(m.tasks);
    NoneRunningIsTidy(m.fifo, RecoveredTasks(m.tasks, now));
  }

  lemma ReportStaysTidy(m: Mem, r: Redis, id: Id, p: Progress, now: int)
    requires Matches(m, r, now) && Tidy(m, r) && Calm(m, Report(id, p))
    ensures Tidy(Reported(m, id, p, now).mem, RedisReported(r, id, p, now).redis)
  {
    hide QueuedOf, RunningFirst, NoRepeats, AliasesSound, MaintenanceSound, LeaseSound, Indexed, ListsMatch;
    if id in m.tasks && Progressed(m.tasks[id], p, now).Some? {
      QuieterIsTidy(m.fifo, m.tasks, m.tasks[id := Progressed(m.tasks[id], p, now).value]);
    }
  }

  /** An ordinary task that is not queued put at the end of both lists, under whatever lease and count. */
  lemma TailOfBothStaysTidy(m: Mem, r: Redis, id: Id, task: Task, a: Mem, b: Redis)
    requires Tidy(m, r) && m.tasks == r.tasks && task.status.Queued?
    requires id in m.tasks && Ordinary(m.tasks[id]) && !m.tasks[id].status.Queued?
    requires a.tasks == m.tasks[id := task] == b.tasks && a.fifo == ToTail(m.fifo, id) && b.queue == r.queue + [id]
    ensures id !in r.queue && Tidy(a, b)
  {
    hide Without, RunningFirst, NoRepeats;
    var fifo := Without(m.fifo, {id});
    TailStaysTidy(m, r, id, task, fifo, r.queue);
    TidyLooksAtLists(m.(tasks := m.tasks[id := task], fifo := fifo + [id]), r.(tasks := m.tasks[id := task], queue := r.queue + [id]), a, b);
  }

  lemma RequeueOrRetryStaysTidy(m: Mem, r: Redis, op: Op, cap: nat, now: int)
    requires Matches(m, r, now) && Tidy(m, r) && (op.Requeue? || op.Retry?)
    ensures !Diverges(m, r, op, cap, now)
    ensures Tidy(Step(m, op, cap, now).mem, RedisStep(r, Shared(op), cap, now).redis)
  {
    hide ToTail, Sound, Alike, Tidy;
    TailOpBasics(m, r, now, op.id);
    var a, b := Step(m, op, cap, now).mem, RedisStep(r, Shared(op), cap, now).redis;
    var moves := op.id in m.tasks && Ordinary(m.tasks[op.id]) && if op.Requeue? then m.tasks[op.id].status.WaitingAdmin? else m.tasks[op.id].status.Failed?;
    if moves {
      var current := m.tasks[op.id];
      TailOfBothStaysTidy(m, r, op.id, if op.Requeue? then Requeued(current, now) else Recovered(current, now), a, b);
    } else {
      TidyLooksAtLists(m, r, a, b);
    }
  }

  lemma RefreshStaysTidy(m: Mem, r: Redis, id: Id, longCapture: Option<bool>, cap: nat, now: int)
    requires Matches(m, r, now) && Tidy(m, r) && !Split(r, Refresh(id, longCapture), cap)
    ensures !Diverges(m, r, Refresh(id, longCapture), cap, now)
    ensures Tidy(RefreshedTask(m, id, longCapture, cap, now).mem, RedisRefreshed(r, id, longCapture, cap, now).redis)
  {
    hide ToTail, Sound, Alike, Tidy, ActiveCount;
    TailOpBasics(m, r, now, id);
    var a, b := RefreshedTask(m, id, longCapture, cap, now).mem, RedisRefreshed(r, id, longCapture, cap, now).redis;
    if id in m.tasks && Ordinary(m.tasks[id]) && !Active(m.tasks[id].status) && r.count < cap {
      TailOfBothStaysTidy(m, r, id, Reset(m.tasks[id], longCapture, now), a, b);
    } else {
      TidyLooksAtLists(m, r, a, b);
    }
  }

  // ---------------------------------------------------------- housekeeping

  lemma BindStaysTidy(m: Mem, r: Redis, owner: Owner, task: Task, cap: nat, now: int)
    requires Matches(m, r, now) && Tidy(m, r) && FreshOp(m, Bind(owner, task)) && Stamped(Bind(owner, task), now)
    ensures Tidy(AcceptanceBound(m, owner, task, cap, now).mem, RedisBound(r, owner, task, cap, now).redis)
  {
    hide ActiveCount, QueuedOf, Without, Tidy, AliasesSound, MaintenanceSound, LeaseSound, Alike;
    var l, k := Live(m, now), LiveKeys(r, now);
    LiveMatches(m, r, now);
    ReleaseBasics(l, k, now);
    SameTasks(m, r, now);
    var a, b := AcceptanceBound(m, owner, task, cap, now).mem, RedisBound(r, owner, task, cap, now).redis;
    TidyLooksAtLists(m, r, l, k);
    if ValidAcceptance(task) && OwnedBy(l.lease, owner) {
      LeaseDigestOf(l, k, now);
      if l.lease.value.bound.Some? {
        BoundIsMarked(l, k, now, owner);
        var bound := l.lease.value.bound.value;
        if Retryable(l.tasks[bound]) && ActiveCount(l.tasks) < cap {
          var again := task.(maintenance := Some(Digest(owner)), id := bound);
          assert again == Reset(l.tasks[bound], Some(false), now);
          var fifo, queue := Without(l.fifo, {bound}), Without(k.queue, {bound});
          TailStaysTidy(l, k, bound, again, fifo, queue);
          TidyLooksAtLists(l.(tasks := l.tasks[bound := again], fifo := fifo + [bound]), k.(tasks := l.tasks[bound := again], queue := queue + [bound]), a, b);
        } else {
          TidyLooksAtLists(l, k, a, b);
        }
      } else if task.id !in m.tasks && ActiveCount(m.tasks) < cap {
        var candidate := task.(maintenance := Some(Digest(owner)));
        UnknownInLists(l, k, now, task.id);
        NewStaysTidy(l, k, candidate);
        TidyLooksAtLists(l.(tasks := l.tasks[task.id := candidate], fifo := l.fifo + [task.id]),
                         k.(tasks := l.tasks[task.id := candidate], queue := k.queue + [task.id]), a, b);
      } else {
        TidyLooksAtLists(l, k, a, b);
      }
    } else {
      TidyLooksAtLists(l, k, a, b);
    }
  }

  lemma LeaseDigestOf(l: Mem, k: Redis, now: int)
    requires Matches(l, k, now) && l.lease.Some?
    ensures l.lease.value.digest == Some(Digest(l.lease.value.owner))
  {
  }

  lemma UnknownInLists(l: Mem, k: Redis, now: int, id: Id)
    requires Matches(l, k, now) && id !in l.tasks
    ensures id !in l.fifo
  {
  }

  /** Tasks taken out of both stores and lists. */
  lemma PrunedStaysTidy(m: Mem, r: Redis, ids: set<Id>, a: Mem, b: Redis)
    requires Tidy(m, r) && m.tasks == r.tasks
    requires a.tasks == m.tasks - ids == b.tasks && a.fifo == Without(m.fifo, ids) && b.queue == Without(r.queue, ids)
    ensures Tidy(a, b)
  {
    hide Without;
    WithoutIsTidy(m.fifo, ids, m.tasks);
    WithoutMembers(m.fifo, ids);
    WithoutMembers(r.queue, ids);
    QuieterIsTidy(Without(m.fifo, ids), m.tasks, a.tasks);
  }

  lemma ReleaseStaysTidy(m: Mem, r: Redis, owner: Owner, now: int)
    requires Matches(m, r, now) && Tidy(m, r)
    ensures Tidy(LeaseReleased(m, owner, now).mem, RedisReleased(r, owner, now).redis)
  {
    hide QueuedOf, Without, Canonical, Tidy, Alike, AliasesSound, MaintenanceSound, LeaseSound;
    var l, k := Live(m, now), LiveKeys(r, now);
    LiveMatches(m, r, now);
    ReleaseBasics(l, k, now);
    var a, b := LeaseReleased(m, owner, now).mem, RedisReleased(r, owner, now).redis;
    if OwnedBy(l.lease, owner) && l.lease.value.bound.Some? {
      PrunedStaysTidy(m, r, {l.lease.value.bound.value}, a, b);
    } else {
      TidyLooksAtLists(m, r, a, b);
    }
  }

  lemma CleanupStaysTidy(m: Mem, r: Redis, now: int)
    requires Matches(m, r, now) && Tidy(m, r) && CleanInTime(m, Op.Cleanup, now)
    ensures Tidy(CleanedUp(m, now), RedisCleanedUp(r, now))
  {
    hide QueuedOf, Without, Canonical, Tidy, Alike, AliasesSound, LeaseSound;
    var l, k := Live(m, now), LiveKeys(r, now);
    LiveMatches(m, r, now);
    ReleaseBasics(l, k, now);
    assert CleanupTargets(k) == Leftovers(l);
    PrunedStaysTidy(m, r, Leftovers(l), CleanedUp(m, now), RedisCleanedUp(r, now));
  }

  lemma DeduplicateStaysTidy(m: Mem, r: Redis, now: int)
    requires Matches(m, r, now) && Tidy(m, r)
    ensures Tidy(Deduplicated(m, now), RedisDeduplicated(r, now))
  {
    hide Alike, Sound, Duplicates, Merged, Reindexed, Tidy;
    var l, k := Live(m, now), LiveKeys(r, now);
    LiveMatches(m, r, now);
    NothingToMerge(l, k, now);
    MergingNothing(l);
    WithoutAbsent(k.queue, {});
    assert k.tasks - {} == k.tasks;
    TidyLooksAtLists(m, r, Deduplicated(m, now), RedisDeduplicated(r, now));
  }

  lemma LeaseStartStaysTidy(m: Mem, r: Redis, op: Op, cap: nat, now: int)
    requires Matches(m, r, now) && Tidy(m, r) && (op.Acquire? || op.Renew?)
    ensures Tidy(Step(m, op, cap, now).mem, RedisStep(r, Shared(op), cap, now).redis)
  {
    hide Alike, Sound, Tidy, AnyBusy;
    LiveMatches(m, r, now);
    TidyLooksAtLists(m, r, Step(m, op, cap, now).mem, RedisStep(r, Shared(op), cap, now).redis);
  }

  /** Calm calls keep tidy stores tidy and never diverge, but for recovering several tasks and cleaning up under a lease. */
  lemma StepStaysTidy(m: Mem, r: Redis, op: Op, cap: nat, now: int)
    requires Matches(m, r, now) && Tidy(m, r) && Common(op) && FreshOp(m, op) && Stamped(op, now) && !Split(r, op, cap)
    requires Calm(m, op) && OneAtRecovery(m, op) && CleanInTime(m, op, now)
    ensures !Diverges(m, r, op, cap, now)
    ensures Tidy(Step(m, op, cap, now).mem, RedisStep(r, Shared(op), cap, now).redis)
  {
    hide Tidy, Alike, Sound, ActiveCount, RunningOf, InCreationOrder, Split, FreshOp, Stamped, Submitted, RedisSubmitted, AcceptanceBound, RedisBound,
         LeaseReleased, RedisReleased, ClaimedNext, RedisClaimed, Reported, RedisReported, RefreshedTask, RedisRefreshed;
    match op
    case Submit(task) => SubmitStaysTidy(m, r, task, cap, now);
    case Claim => ClaimStaysTidy(m, r, now);
    case Recover =>
      RecoverStaysTidy(m, r, now);
      RecoveryOrder(m, r, cap, now);
      OneRecoversAlike(m, r, now);
    case Report(id, p) => ReportStaysTidy(m, r, id, p, now);
    case Bind(owner, task) => BindStaysTidy(m, r, owner, task, cap, now);
    case Release(owner) => ReleaseStaysTidy(m, r, owner, now);
    case Cleanup => CleanupStaysTidy(m, r, now);
    case Deduplicate => DeduplicateStaysTidy(m, r, now);
    case Acquire(_, _) => LeaseStartStaysTidy(m, r, op, cap, now);
    case Renew(_, _) => LeaseStartStaysTidy(m, r, op, cap, now);
    case Refresh(id, longCapture) => RefreshStaysTidy(m, r, id, longCapture, cap, now);
    case _ => RequeueOrRetryStaysTidy(m, r, op, cap, now);
  }

  // ------------------------------------------------------------------- runs

  function NextRedis(r: Redis, call: Call, cap: nat): (o: Redis)
    requires WellKeyed(r.tasks)
    ensures WellKeyed(o.tasks)
  {
    RedisStep(r, Shared(call.op), cap, call.now).redis
  }

  /**
   * Calls at increasing times, with fresh ids, no raw transition into or out of the queue, one running ordinary
   * task at most at a recovery, and no clean-up of an earlier lease's tasks under a new one.
   */
  ghost predicate Peaceful(m: Mem, calls: seq<Call>, cap: nat, from: int)
    decreases |calls|
  {
    calls != [] ==>
      var op, now := calls[0].op, calls[0].now;
      && from <= now && WellKeyed(m.tasks) && Common(op) && FreshOp(m, op) && Stamped(op, now)
      && Calm(m, op) && OneAtRecovery(m, op) && CleanInTime(m, op, now)
      && Peaceful(After(m, calls, cap), calls[1..], cap, now)
  }

  /** Both stores answer every call alike. */
  ghost predicate AnswerAlike(m: Mem, r: Redis, calls: seq<Call>, cap: nat)
    requires WellKeyed(m.tasks) && WellKeyed(r.tasks)
    decreases |calls|
  {
    calls != [] ==>
      && Step(m, calls[0].op, cap, calls[0].now).reply == RedisStep(r, Shared(calls[0].op), cap, calls[0].now).reply
      && AnswerAlike(After(m, calls, cap), NextRedis(r, calls[0], cap), calls[1..], cap)
  }

  /** No queued task is requeued, and nothing is admitted by one store only. */
  ghost predicate NothingTellsApart(m: Mem, r: Redis, calls: seq<Call>, cap: nat)
    requires WellKeyed(m.tasks) && WellKeyed(r.tasks)
    decreases |calls|
  {
    calls != [] ==>
      && !RequeuesQueued(m, calls[0].op) && !Split(r, calls[0].op, cap)
      && NothingTellsApart(After(m, calls, cap), NextRedis(r, calls[0], cap), calls[1..], cap)
  }

  lemma {:induction false} RunsAnswerAlikeExactly(m: Mem, r: Redis, calls: seq<Call>, cap: nat, from: int)
    requires Matches(m, r, from) && Tidy(m, r) && Peaceful(m, calls, cap, from)
    ensures WellKeyed(m.tasks) && WellKeyed(r.tasks)
    ensures AnswerAlike(m, r, calls, cap) <==> NothingTellsApart(m, r, calls, cap)
    decreases |calls|
  {
    hide Tidy, Step, RedisStep, Common, Stamped, Calm, OneAtRecovery, CleanInTime, Diverges, RequeuesQueued, Split, FreshOp, Alike, AliasesSound,
         MaintenanceSound, LeaseSound;
    SameTasks(m, r, from);
    if calls != [] {
      var op, now := calls[0].op, calls[0].now;
      MatchesLater(m, r, from, now);
      StepMatches(m, r, op, cap, now);
      if !RequeuesQueued(m, op) && !Split(r, op, cap) {
        StepStaysTidy(m, r, op, cap, now);
        RunsAnswerAlikeExactly(After(m, calls, cap), NextRedis(r, calls[0], cap), calls[1..], cap, now);
      }
    }
  }

  /** From the empty stores, over runs of ordinary and deployment calls alike. */
  lemma StoresAnswerAlikeExactly(calls: seq<Call>, cap: nat, from: int)
    requires Peaceful(EMPTY, calls, cap, from)
    ensures AnswerAlike(EMPTY, EMPTY_REDIS, calls, cap) <==> NothingTellsApart(EMPTY, EMPTY_REDIS, calls, cap)
  {
    EmptyStoresMatch(from);
    RunsAnswerAlikeExactly(EMPTY, EMPTY_REDIS, calls, cap, from);
  }

  // --------------------------------------------- runs without deployments

  ghost predicate NeverRequeuesQueued(m: Mem, calls: seq<Call>, cap: nat)
    requires WellKeyed(m.tasks)
    decreases |calls|
  {
    calls != [] ==> !RequeuesQueued(m, calls[0].op) && NeverRequeuesQueued(After(m, calls, cap), calls[1..], cap)
  }

  /** The counter is right, so both stores admit the same. */
  lemma CountedIsNotSplit(r: Redis, op: Op, cap: nat, now: int)
    requires WellKeyed(r.tasks) && Drift(r) == 0 && !Uncounted(Shared(op)) && FreshFor(r, Shared(op))
    ensures !Split(r, op, cap) && Drift(RedisStep(r, Shared(op), cap, now).redis) == 0
  {
    hide RedisStep, ActiveCount, AsksAdmission, BindQueues;
    StepDrifts(r, Shared(op), cap, now);
  }

  lemma {:induction false} CountedRunsAreNotSplit(m: Mem, r: Redis, calls: seq<Call>, cap: nat, from: int)
    requires Matches(m, r, from) && Tidy(m, r) && Peaceful(m, calls, cap, from)
    requires Drift(r) == 0 && forall call <- calls :: !Uncounted(Shared(call.op))
    ensures WellKeyed(m.tasks) && WellKeyed(r.tasks)
    ensures NothingTellsApart(m, r, calls, cap) <==> NeverRequeuesQueued(m, calls, cap)
    decreases |calls|
  {
    hide Tidy, Step, RedisStep, Common, Stamped, Calm, OneAtRecovery, CleanInTime, Diverges, RequeuesQueued, Split, FreshOp, Alike, Drift, AliasesSound,
         MaintenanceSound, LeaseSound, FreshFor;
    SameTasks(m, r, from);
    if calls != [] {
      var op, now := calls[0].op, calls[0].now;
      assert calls[0] in calls;
      MatchesLater(m, r, from, now);
      StepMatches(m, r, op, cap, now);
      FreshInBoth(m, r, op);
      CountedIsNotSplit(r, op, cap, now);
      StepStaysTidy(m, r, op, cap, now);
      CountedRunsAreNotSplit(After(m, calls, cap), NextRedis(r, calls[0], cap), calls[1..], cap, now);
    }
  }

  lemma FreshInBoth(m: Mem, r: Redis, op: Op)
    requires m.tasks == r.tasks && FreshOp(m, op)
    ensures FreshFor(r, Shared(op))
  {
  }

  /**
   * From the empty stores, without bindings, releases, merges and clean-ups, the two implementations answer every
   * call alike exactly when no queued task is requeued.
   */
  lemma OrdinaryRunsAnswerAlikeExactly(calls: seq<Call>, cap: nat, from: int)
    requires Peaceful(EMPTY, calls, cap, from) && forall call <- calls :: !Uncounted(Shared(call.op))
    ensures AnswerAlike(EMPTY, EMPTY_REDIS, calls, cap) <==> NeverRequeuesQueued(EMPTY, calls, cap)
  {
    assert Drift(EMPTY_REDIS) == 0 by { assert ActiveIds(EMPTY_REDIS.tasks) == {}; }
    EmptyStoresMatch(from);
    RunsAnswerAlikeExactly(EMPTY, EMPTY_REDIS, calls, cap, from);
    CountedRunsAreNotSplit(EMPTY, EMPTY_REDIS, calls, cap, from);
  }
}
