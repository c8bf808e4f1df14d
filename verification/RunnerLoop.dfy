/** One round of the runner: claim a task, read it while others go on, report what became of it. */
module RunnerLoop {
  import opened Wrappers
  import opened TaskRecords
  import opened InMemoryQueue
  import opened QueueInvariants
  import Control = RunnerControl
  import Streams = InMemoryStreams

  /** How reading the stock, and capturing its charts where asked for, ends. */
  datatype Reading =
    | Values
    | NothingBeforeOpen // both sources failed before the market opened
    | NeedsAdmin
    | NavigationFails
    | UnsupportedMarket
    | RequestFails
    | OtherFailure

  /** What the round meets outside: the phase, the market snapshot, the reading, the disk, and completeness. */
  datatype World = World(closed: bool, snapshot: bool, reading: Reading, stored: bool, complete: bool)

  // ---------------------------------------------------------------- the others

  /** Store calls of administrators, visitors and deployments; reports and claims are the runner's own. */
  predicate ByOthers(op: Op) {
    op.Enqueue? || op.Submit? || op.Requeue? || op.Retry? || op.Refresh?
    || op.Acquire? || op.Renew? || op.Bind? || op.Release? || op.Cleanup?
  }

  /** What goes on beside a round: sessions, sockets, broker reports and store calls. */
  predicate Beside(e: Control.Event) {
    match e
    case StoreCall(op) => ByOthers(op)
    case ClaimTask(_) => false
    case Enter(_) => false
    case Begin(_, _) => false
    case Leave => false
    case _ => true
  }

  function StoreAfter(m: Mem, ticks: seq<Control.Tick>, cap: nat): (o: Mem)
    requires WellKeyed(m.tasks)
    ensures WellKeyed(o.tasks)
    decreases |ticks|
  {
    if ticks == [] then m else StoreAfter(NextStore(m, ticks[0], cap), ticks[1..], cap)
  }

  function NextStore(m: Mem, tick: Control.Tick, cap: nat): (o: Mem)
    requires WellKeyed(m.tasks)
    ensures WellKeyed(o.tasks)
  {
    if !tick.event.StoreCall? then m
    else
      StepKeepsKeys(m, tick.event.op, cap, tick.now);
      Step(m, tick.event.op, cap, tick.now).mem
  }

  /** New tasks come under ids never used, in particular not the claimed one. */
  ghost predicate FreshBeside(m: Mem, ticks: seq<Control.Tick>, id: Id, cap: nat)
    requires WellKeyed(m.tasks)
    decreases |ticks|
  {
    ticks != [] ==>
      var e := ticks[0].event;
      && Beside(e) && (e.StoreCall? ==> FreshOp(m, e.op) && ((e.op.Enqueue? || e.op.Submit? || e.op.Bind?) ==> e.op.task.id != id))
      && FreshBeside(NextStore(m, ticks[0], cap), ticks[1..], id, cap)
  }

  /** The claimed task is as it was, or it was an acceptance task and is gone. */
  predicate LeftAlone(task: Task, m: Mem) {
    if task.id in m.tasks then m.tasks[task.id] == task else task.maintenance.Some?
  }

  lemma QueueingLeavesItAlone(m: Mem, op: Op, cap: nat, now: int, task: Task)
    requires Sound(m) && LeftAlone(task, m) && task.status.Running?
    requires op.Enqueue? || op.Submit? || op.Requeue? || op.Retry? || op.Refresh? || op.Acquire? || op.Renew?
    requires op.Enqueue? || op.Submit? ==> op.task.id != task.id
    ensures LeftAlone(task, Step(m, op, cap, now).mem)
  {
    hide QueuedOf, Without, ActiveCount, AliasesSound, MaintenanceSound, LeaseSound, Canonical;
    if op.Submit? {
    } else if op.Refresh? {
    } else {
    }
  }

  lemma BindingLeavesItAlone(m: Mem, owner: Owner, offered: Task, cap: nat, now: int, task: Task)
    requires Sound(m) && LeftAlone(task, m) && task.status.Running? && offered.id != task.id
    ensures LeftAlone(task, AcceptanceBound(m, owner, offered, cap, now).mem)
  {
    hide Without, ActiveCount, AliasesSound, MaintenanceSound;
  }

  lemma RemovingLeavesItAlone(m: Mem, owner: Owner, now: int, task: Task)
    requires Sound(m) && LeftAlone(task, m) && task.status.Running?
    ensures LeftAlone(task, LeaseReleased(m, owner, now).mem) && LeftAlone(task, CleanedUp(m, now))
  {
    hide Without, AliasesSound, MaintenanceSound, Canonical;
  }

  /** Nobody else touches a running task; only a deployment's end takes its own away. */
  lemma OthersLeaveItAlone(m: Mem, op: Op, cap: nat, now: int, task: Task)
    requires Sound(m) && ByOthers(op) && LeftAlone(task, m) && task.status.Running?
    requires op.Enqueue? || op.Submit? || op.Bind? ==> op.task.id != task.id
    ensures LeftAlone(task, Step(m, op, cap, now).mem)
  {
    hide LeftAlone, AliasesSound, MaintenanceSound, LeaseSound, AcceptanceBound, LeaseReleased, CleanedUp;
    match op
    case Bind(owner, offered) => BindingLeavesItAlone(m, owner, offered, cap, now, task);
    case Release(owner) => RemovingLeavesItAlone(m, owner, now, task);
    case Cleanup => RemovingLeavesItAlone(m, 0, now, task);
    case _ => QueueingLeavesItAlone(m, op, cap, now, task);
  }

  /** While the task runs nobody enters `maintenance`. */
  lemma NoMaintenanceBeside(c: Control.Control, m: Mem, session: Control.Session, id: Id)
    requires id in m.tasks && m.tasks[id].status.Running?
    ensures !Control.MayMaintain(c, m, session)
  {
    assert Busy(m.tasks[id]);
  }

  lemma {:induction false} BesideKeeps(m: Mem, ticks: seq<Control.Tick>, task: Task, cap: nat)
    requires Sound(m) && FreshBeside(m, ticks, task.id, cap) && LeftAlone(task, m) && task.status.Running?
    ensures var o := StoreAfter(m, ticks, cap); Sound(o) && LeftAlone(task, o) && (Frozen(m) ==> Frozen(o))
    decreases |ticks|
  {
    hide Step, AliasesSound, MaintenanceSound, LeaseSound, WellKeyed, Frozen, FreshOp, LeftAlone;
    if ticks != [] {
      var e := ticks[0].event;
      if e.StoreCall? {
        StepKeepsSound(m, e.op, cap, ticks[0].now);
        OthersLeaveItAlone(m, e.op, cap, ticks[0].now, task);
        if Frozen(m) {
          StepKeepsFrozen(m, e.op, cap, ticks[0].now);
        }
      }
      BesideKeeps(NextStore(m, ticks[0], cap), ticks[1..], task, cap);
    }
  }

  /** Carries out what goes on beside the round. */
  method Play(control: Control.RunnerControl, store: Streams.InMemoryStreams, ticks: seq<Control.Tick>, ghost id: Id)
    requires control.Valid() && store.Valid() && FreshBeside(store.Abs(), ticks, id, store.cap)
    modifies control, store
    ensures control.Valid() && store.Valid() && store.Abs() == StoreAfter(old(store.Abs()), ticks, store.cap)
    ensures control.State() == ControlAfter(old(control.State()), ticks)
    decreases |ticks|
  {
    hide Step, Sound, FreshOp;
    if ticks != [] {
      var e, now := ticks[0].event, ticks[0].now;
      if e.StoreCall? {
        PerformCall(store, e.op, now);
      } else {
        PerformEvent(control, e);
      }
      Play(control, store, ticks[1..], id);
    }
  }

  /** What an event beside the round does to the runner control. */
  function NextControl(c: Control.Control, e: Control.Event): Control.Control {
    match e
    case Lock(session) => Control.Locked(c, session).control
    case Unlock(session) => Control.Unlocked(c, session).control
    case Disconnect(session) => Control.Published(Control.Freed(c, session))
    case Register(session, socket) => Control.Registered(c, session, socket)
    case Unregister(session, socket) => Control.Unregistered(c, session, socket)
    case Pause => Control.Published(c.(paused := true))
    case Resume => Control.Resumed(c).control
    case Reconcile(role, reported, state) => Control.Reconciled(c, role, reported, state).control
    case _ => c
  }

  function ControlAfter(c: Control.Control, ticks: seq<Control.Tick>): Control.Control
    decreases |ticks|
  {
    if ticks == [] then c else ControlAfter(NextControl(c, ticks[0].event), ticks[1..])
  }

  method PerformEvent(control: Control.RunnerControl, e: Control.Event)
    requires control.Valid() && Beside(e) && !e.StoreCall?
    modifies control
    ensures control.Valid() && control.State() == NextControl(old(control.State()), e)
  {
    var ok;
    match e
    case Lock(session) => ok := control.Lock(session);
    case Unlock(session) => ok := control.Release(session);
    case Disconnect(session) => control.DisconnectSession(session);
    case Register(session, socket) => control.RegisterSocket(session, socket);
    case Unregister(session, socket) => control.UnregisterSocket(session, socket);
    case Pause => control.PauseQueue();
    case Resume => ok := control.ResumeQueue();
    case Reconcile(role, reported, state) => ok := control.ReconcileOperation(role, reported, state);
  }

  method PerformCall(store: Streams.InMemoryStreams, op: Op, now: int)
    requires store.Valid() && ByOthers(op) && FreshOp(store.Abs(), op)
    modifies store
    ensures store.Valid() && store.Abs() == Step(old(store.Abs()), op, store.cap, now).mem
  {
    hide AliasesSound, MaintenanceSound, LeaseSound, Enqueued, Submitted, AcceptanceBound, LeaseReleased, LeaseAcquired, LeaseRenewed, CleanedUp,
         RequeuedTask, RetriedTask, RefreshedTask;
    var reply;
    match op
    case Enqueue(task) =>
      StepKeepsSound(store.Abs(), op, store.cap, now);
      reply := store.EnqueueLocked(task, false);
    case Submit(task) => reply := store.SubmitOrRefresh(task, now);
    case Requeue(id) => reply := store.RequeueWaiting(id, now);
    case Retry(id) => reply := store.RetryFailed(id, now);
    case Refresh(id, longCapture) => reply := store.RefreshTask(id, longCapture, now);
    case Acquire(owner, ttl) => reply := store.AcquireLease(owner, ttl, now);
    case Renew(owner, ttl) => reply := store.RenewLease(owner, ttl, now);
    case Bind(owner, task) => reply := store.BindAcceptance(owner, task, now);
    case Release(owner) => reply := store.ReleaseLease(owner, now);
    case Cleanup => store.Cleanup(now);
  }

  // ----------------------------------------------------------------- the round

  /** A state in which the runner may leave the task it claimed. */
  predicate Settled(task: Task) {
    task.status.MarketSnapshot? || task.status.Failed? || task.status.Completed? || task.status.WaitingAdmin?
    || (task.status.Partial? && task.completed)
  }

  /** Nothing but task `id` differs. */
  ghost predicate OnlyTask(before: Mem, after: Mem, id: Id) {
    id in after.tasks && after == before.(tasks := before.tasks[id := after.tasks[id]])
  }

  /** The report settles the task where it still is, and touches nothing else. */
  ghost predicate SettledOrGone(before: Mem, after: Mem, id: Id) {
    if id in before.tasks then OnlyTask(before, after, id) && Settled(after.tasks[id]) else after == before
  }

  /**
   * Whatever happens outside, and whatever others do to the store and the runner control before and after the round
   * asks for the pause flag again: nobody else touches the claimed task, the round settles it unless it was the
   * acceptance task of a deployment that ended meanwhile, and touches no other; the queue is paused when an
   * administrator is needed, and the deployment freeze is kept.
   */
  method RunOnce(control: Control.RunnerControl, store: Streams.InMemoryStreams, world: World, now: int,
      before: seq<Control.Tick>, after: seq<Control.Tick>, later: int) returns (claimed: Option<Id>, snapshotOnly: bool)
    requires control.Valid() && store.Valid()
    requires
      var c := Control.TaskClaimed(control.State(), store.Abs(), world.closed, now);
      c.reply.Answer? && WellKeyed(c.mem.tasks) ==>
        FreshBeside(c.mem, before, c.reply.task.id, store.cap)
        && FreshBeside(StoreAfter(c.mem, before, store.cap), after, c.reply.task.id, store.cap)
    modifies control, store
    ensures control.Valid() && store.Valid()
    ensures
      var c := Control.TaskClaimed(old(control.State()), old(store.Abs()), world.closed, now);
      claimed == (if c.reply.Answer? then Some(c.reply.task.id) else None)
      && WellKeyed(c.mem.tasks)
      && if claimed.None? then store.Abs() == c.mem
         else
           var met := StoreAfter(StoreAfter(c.mem, before, store.cap), after, store.cap);
           LeftAlone(c.reply.task, met) && SettledOrGone(met, store.Abs(), claimed.value)
           && snapshotOnly == (world.closed && ControlAfter(c.control, before).paused)
           && (claimed.value in met.tasks ==>
                 store.tasks[claimed.value].status
                 == if snapshotOnly then (if world.snapshot then MarketSnapshot else Failed)
                    else if world.reading == NeedsAdmin then WaitingAdmin
                    else if world.reading == Values && (world.stored || !c.reply.task.includeLongCapture) then (if world.complete then Completed else Partial)
                    else Failed)
           && (claimed.value in store.tasks && store.tasks[claimed.value].status.WaitingAdmin? ==> control.paused)
    ensures Frozen(old(store.Abs())) ==> Frozen(store.Abs())
  {
    hide Sound, Frozen, Control.TaskClaimed, FreshBeside, StoreAfter, ControlAfter, WellKeyed, LeftAlone, SettledOrGone;
    ClaimFacts(control.State(), store.Abs(), world.closed, now);
    var reply := control.ClaimNextTask(store, world.closed, now);
    snapshotOnly := false;
    if !reply.Answer? {
      return None, false;
    }
    var id := reply.task.id;
    claimed := Some(id);
    ClaimedIsRunning(reply.task, store.Abs());
    BesideKeeps(store.Abs(), before, reply.task, store.cap);
    Play(control, store, before, id);
    snapshotOnly := world.closed && control.paused;
    BesideKeeps(store.Abs(), after, reply.task, store.cap);
    Play(control, store, after, id);
    ghost var met := store.Abs();
    StillRunning(reply.task, met);
    if snapshotOnly {
      ReportSnapshot(store, id, world.snapshot, later);
    } else {
      var waiting := ReportReading(store, id, reply.task.includeLongCapture, world, later);
      if waiting {
        control.PauseQueue();
      }
    }
    SettledKeepsFrozen(met, store.Abs(), id);
  }

  lemma ClaimedIsRunning(task: Task, m: Mem)
    requires task.id in m.tasks && m.tasks[task.id] == task
    ensures LeftAlone(task, m)
  {
  }

  lemma StillRunning(task: Task, m: Mem)
    requires LeftAlone(task, m) && task.status.Running?
    ensures task.id in m.tasks ==> m.tasks[task.id] == task
  {
  }

  /** While the market is closed a snapshot is all a task gets. */
  method ReportSnapshot(store: Streams.InMemoryStreams, id: Id, snapshot: bool, now: int)
    requires store.Valid() && (id in store.tasks ==> store.tasks[id].status.Running?)
    modifies store
    ensures store.Valid() && SettledOrGone(old(store.Abs()), store.Abs(), id)
    ensures id in store.tasks <==> id in old(store.tasks)
    ensures id in store.tasks ==> store.tasks[id].status == if snapshot then MarketSnapshot else Failed
  {
    hide Sound;
    var reply;
    if snapshot {
      reply := store.CompleteMarketSnapshot(id, now);
    } else {
      reply := store.Transition(id, Failed, now);
    }
  }

  method ReportReading(store: Streams.InMemoryStreams, id: Id, longCapture: bool, world: World, now: int) returns (waiting: bool)
    requires store.Valid()
    requires id in store.tasks ==> store.tasks[id].status.Running? && store.tasks[id].includeLongCapture == longCapture
    modifies store
    ensures store.Valid() && SettledOrGone(old(store.Abs()), store.Abs(), id)
    ensures waiting <==> id in store.tasks && store.tasks[id].status.WaitingAdmin?
    ensures id in old(store.tasks) ==>
              id in store.tasks
              && store.tasks[id].status == if world.reading == NeedsAdmin then WaitingAdmin
                                           else if world.reading == Values && (world.stored || !longCapture) then (if world.complete then Completed else Partial)
                                           else Failed
  {
    hide Sound;
    var reply;
    waiting := world.reading.NeedsAdmin?;
    if waiting {
      reply := store.Transition(id, WaitingAdmin, now);
      waiting := reply.Answer?;
    } else if world.reading.Values? && (world.stored || !longCapture) {
      reply := store.CompleteResult(id, longCapture, world.complete, now);
    } else {
      reply := store.Transition(id, Failed, now);
    }
  }

  lemma ClaimFacts(c: Control.Control, m: Mem, closed: bool, now: int)
    requires Sound(m)
    ensures
      var r := Control.TaskClaimed(c, m, closed, now);
      && WellKeyed(r.mem.tasks) && (Frozen(m) ==> Frozen(r.mem))
      && (r.reply.Answer? ==> r.reply.task.id in r.mem.tasks && r.mem.tasks[r.reply.task.id] == r.reply.task && r.reply.task.status.Running?)
  {
    hide QueuedOf, Without, AliasesSound, MaintenanceSound;
  }

  lemma SettledKeepsFrozen(before: Mem, after: Mem, id: Id)
    requires SettledOrGone(before, after, id)
    ensures Frozen(before) ==> Frozen(after)
  {
  }
}
