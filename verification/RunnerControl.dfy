/** Who may use the devices: the administrator's lock, the pause flag, broker operations, and task claims under one gate. */
module RunnerControl {
  import opened Wrappers
  import opened TaskRecords
  import opened InMemoryQueue
  import opened QueueInvariants
  import Streams = InMemoryStreams

  type Session = nat
  type Socket = nat
  type OperationId = nat

  datatype Role = CoreMetrics | MainFundFlow

  /** What the device broker says about an operation. */
  datatype BrokerState = STARTING | STOPPING | RUNNING | STOPPED | ERROR | UNKNOWN

  datatype Control = Control(
    lockOwner: Option<Session>,
    paused: bool,
    operations: map<Role, OperationId>,
    sockets: map<Session, set<Socket>>,
    sequence: nat)

  datatype Answered = Answered(control: Control, ok: bool)

  datatype ClaimAnswer = ClaimAnswer(control: Control, mem: Mem, reply: Reply)

  const IDLE := Control(None, false, map[], map[], 0)

  // -------------------------------------------------------------- operations

  function Published(c: Control): Control {
    c.(sequence := c.sequence + 1)
  }

  /** A lock is stale when its owner has no socket left. */
  predicate Stale(c: Control, owner: Session) {
    owner !in c.sockets || c.sockets[owner] == {}
  }

  function Locked(c: Control, session: Session): Answered {
    if c.lockOwner.Some? && c.lockOwner.value != session && !Stale(c, c.lockOwner.value) then Answered(c, false)
    else Answered(Published(c.(lockOwner := Some(session), paused := true)), true)
  }

  function Unlocked(c: Control, session: Session): Answered {
    if c.lockOwner != Some(session) || c.operations != map[] then Answered(c, false)
    else Answered(Published(c.(lockOwner := None)), true)
  }

  function Freed(c: Control, session: Session): Control {
    if c.lockOwner == Some(session) then c.(lockOwner := None) else c
  }

  function Registered(c: Control, session: Session, socket: Socket): Control {
    c.(sockets := c.sockets[session := (if session in c.sockets then c.sockets[session] else {}) + {socket}])
  }

  function Unregistered(c: Control, session: Session, socket: Socket): Control {
    if session !in c.sockets then c
    else
      var rest := c.sockets[session] - {socket};
      if rest != {} then c.(sockets := c.sockets[session := rest])
      else if c.lockOwner == Some(session) then Published(c.(sockets := c.sockets - {session}, lockOwner := None))
      else c.(sockets := c.sockets - {session})
  }

  function Resumed(c: Control): Answered {
    if c.lockOwner.Some? || c.operations != map[] then Answered(c, false)
    else Answered(Published(c.(paused := false)), true)
  }

  function Begun(c: Control, role: Role, id: OperationId): Answered {
    if role in c.operations && c.operations[role] != id then Answered(c, false)
    else Answered(Published(c.(operations := c.operations[role := id], paused := true)), true)
  }

  /** Only the exact operation can be ended by a report; a report of work in progress may install one. */
  function Reconciled(c: Control, role: Role, id: Option<OperationId>, state: BrokerState): Answered {
    if state.STARTING? || state.STOPPING? then
      if id.None? || (role in c.operations && c.operations[role] != id.value) then Answered(c, false)
      else Answered(c.(operations := c.operations[role := id.value], paused := true), true)
    else if state.UNKNOWN? || role !in c.operations || id != Some(c.operations[role]) then Answered(c, false)
    else Answered(Published(c.(operations := c.operations - {role})), true)
  }

  /** `closed` is set while the market is closed: the runner then claims although the queue is paused. */
  function TaskClaimed(c: Control, m: Mem, closed: bool, now: int): ClaimAnswer {
    if c.operations != map[] then ClaimAnswer(c, m, Nothing)
    else
      var l := if c.paused then Live(m, now) else m;
      if c.paused && BoundId(l.lease).Some? == closed then ClaimAnswer(c, l, Nothing)
      else
        var claim := ClaimedNext(l, now);
        ClaimAnswer(Published(c), claim.mem, claim.reply)
  }

  /** What `maintenance` asks before it lets a host action run. */
  predicate MayMaintain(c: Control, m: Mem, session: Session) {
    c.lockOwner == Some(session) && c.paused && c.operations == map[] && !AnyBusy(m.tasks)
  }

  /**
   A claim is refused while an operation is about, and in a paused queue unless a live lease has bound a task (with the
   market closed: unless none has). A refusal leaves the store alone but for a lease that had run out.
   */
  lemma ClaimIsRefused(c: Control, m: Mem, closed: bool, now: int)
    ensures
      var bound := m.lease.Some? && now < m.lease.value.expiresAt && m.lease.value.bound.Some?;
      var refused := c.operations != map[] || (c.paused && bound == closed);
      var a := TaskClaimed(c, m, closed, now);
      if refused then
        a.control == c && a.reply == Nothing
        && (a.mem == m || (m.lease.Some? && now >= m.lease.value.expiresAt && a.mem == Mem(m.tasks, m.fifo, m.aliases, None)))
      else
        a.control.sequence == c.sequence + 1 && a.control.lockOwner == c.lockOwner && a.control.paused == c.paused
        && a.control.operations == c.operations && a.control.sockets == c.sockets
        && a.mem == ClaimedNext(m, now).mem && a.reply == ClaimedNext(m, now).reply
  {
    hide NextId, QueuedOf, Without;
    LookingTwice(m, now);
  }

  lemma LookingTwice(m: Mem, now: int)
    ensures ClaimedNext(Live(m, now), now) == ClaimedNext(m, now)
  {
    hide NextId, Without, Claimed;
    assert Live(Live(m, now), now) == Live(m, now);
  }

  /** Maintenance is for the owner of a paused device with no operation about and no task worked on. */
  lemma MayMaintainMeans(c: Control, m: Mem, session: Session)
    ensures MayMaintain(c, m, session) <==>
              && c.lockOwner == Some(session) && c.paused && c.operations == map[]
              && forall id <- m.tasks :: m.tasks[id].status != Running && (m.tasks[id].status == Partial ==> m.tasks[id].completed)
  {
    if AnyBusy(m.tasks) {
      var id :| id in m.tasks && Busy(m.tasks[id]);
    }
  }

  // --------------------------------------------------------------- the class

  class RunnerControl {
    var lockOwner: Option<Session>
    var paused: bool
    var operations: map<Role, OperationId>
    var sockets: map<Session, set<Socket>>
    var sequence: nat

    function State(): Control
      reads this
    {
      Control(lockOwner, paused, operations, sockets, sequence)
    }

    /** An owned or operated device means a paused queue. */
    ghost predicate Valid()
      reads this
    {
      PausedWhileOwned(State())
    }

    constructor ()
      ensures Valid() && State() == IDLE
    {
      lockOwner, paused, operations, sockets, sequence := None, false, map[], map[], 0;
    }

    method Publish()
      modifies this`sequence
      ensures State() == Published(old(State()))
    {
      sequence := sequence + 1;
    }

    method Lock(session: Session) returns (ok: bool)
      requires Valid()
      modifies this
      ensures Valid() && Answered(State(), ok) == Locked(old(State()), session)
      ensures ok <==> (old(lockOwner) == None || old(lockOwner) == Some(session)
                       || old(lockOwner).value !in old(sockets) || old(sockets)[old(lockOwner).value] == {})
      ensures ok ==> lockOwner == Some(session) && paused && sequence == old(sequence) + 1
      ensures operations == old(operations) && sockets == old(sockets)
      ensures !ok ==> State() == old(State())
    {
      if lockOwner.Some? && lockOwner.value != session {
        if lockOwner.value in sockets && sockets[lockOwner.value] != {} {
          return false;
        }
        lockOwner := None;
      }
      lockOwner := Some(session);
      paused := true;
      Publish();
      ok := true;
    }

    method Release(session: Session) returns (ok: bool)
      requires Valid()
      modifies this
      ensures Valid() && Answered(State(), ok) == Unlocked(old(State()), session)
      ensures ok <==> old(lockOwner) == Some(session) && old(operations) == map[]
      ensures ok ==> lockOwner == None && sequence == old(sequence) + 1
      ensures paused == old(paused) && operations == old(operations) && sockets == old(sockets)
      ensures !ok ==> State() == old(State())
    {
      if lockOwner != Some(session) || operations != map[] {
        return false;
      }
      lockOwner := None;
      Publish();
      ok := true;
    }

    method DisconnectSession(session: Session)
      requires Valid()
      modifies this
      ensures Valid() && State() == Published(Freed(old(State()), session))
      ensures lockOwner == if old(lockOwner) == Some(session) then None else old(lockOwner)
      ensures paused == old(paused) && operations == old(operations) && sockets == old(sockets) && sequence == old(sequence) + 1
    {
      if lockOwner == Some(session) {
        lockOwner := None;
      }
      Publish();
    }

    method RegisterSocket(session: Session, socket: Socket)
      requires Valid()
      modifies this
      ensures Valid() && State() == Registered(old(State()), session, socket)
      ensures session in sockets && socket in sockets[session]
      ensures forall s, x :: (s in sockets && x in sockets[s]) <==> (s in old(sockets) && x in old(sockets)[s]) || (s == session && x == socket)
      ensures lockOwner == old(lockOwner) && paused == old(paused) && operations == old(operations) && sequence == old(sequence)
    {
      if session !in sockets {
        sockets := sockets[session := {}];
      }
      sockets := sockets[session := sockets[session] + {socket}];
    }

    method UnregisterSocket(session: Session, socket: Socket)
      requires Valid()
      modifies this
      ensures Valid() && State() == Unregistered(old(State()), session, socket)
      ensures forall s, x :: (s in sockets && x in sockets[s]) <==> s in old(sockets) && x in old(sockets)[s] && !(s == session && x == socket)
      ensures forall s :: s in sockets <==> s in old(sockets) && (s == session ==> exists x :: x in old(sockets)[s] && x != socket)
      ensures var freed := old(lockOwner) == Some(session) && session in old(sockets) && session !in sockets;
              && lockOwner == (if freed then None else old(lockOwner))
              && sequence == old(sequence) + (if freed then 1 else 0)
      ensures paused == old(paused) && operations == old(operations)
    {
      if session !in sockets {
        return;
      }
      sockets := sockets[session := sockets[session] - {socket}];
      if sockets[session] == {} {
        assert forall x <- old(sockets)[session] :: x == socket || x in sockets[session];
        sockets := sockets - {session};
        assert sockets == old(sockets) - {session};
        if lockOwner == Some(session) {
          lockOwner := None;
          Publish();
        }
      }
    }

    method PauseQueue()
      requires Valid()
      modifies this
      ensures Valid() && State() == Published(old(State()).(paused := true))
      ensures paused && lockOwner == old(lockOwner) && operations == old(operations) && sockets == old(sockets)
      ensures sequence == old(sequence) + 1
    {
      paused := true;
      Publish();
    }

    method ResumeQueue() returns (ok: bool)
      requires Valid()
      modifies this
      ensures Valid() && Answered(State(), ok) == Resumed(old(State()))
      ensures ok <==> old(lockOwner) == None && old(operations) == map[]
      ensures ok ==> !paused && sequence == old(sequence) + 1
      ensures lockOwner == old(lockOwner) && operations == old(operations) && sockets == old(sockets)
      ensures !ok ==> State() == old(State())
    {
      if lockOwner.Some? || operations != map[] {
        return false;
      }
      paused := false;
      Publish();
      ok := true;
    }

    method BeginOperation(role: Role, id: OperationId) returns (ok: bool)
      requires Valid()
      modifies this
      ensures Valid() && Answered(State(), ok) == Begun(old(State()), role, id)
      ensures ok <==> (role !in old(operations) || old(operations)[role] == id)
      ensures ok ==> operations == old(operations)[role := id] && paused && sequence == old(sequence) + 1
      ensures lockOwner == old(lockOwner) && sockets == old(sockets)
      ensures !ok ==> State() == old(State())
    {
      if role in operations && operations[role] != id {
        return false;
      }
      operations := operations[role := id];
      paused := true;
      Publish();
      ok := true;
    }

    method ReconcileOperation(role: Role, id: Option<OperationId>, state: BrokerState) returns (ok: bool)
      requires Valid()
      modifies this
      ensures Valid() && Answered(State(), ok) == Reconciled(old(State()), role, id, state)
      ensures state in {STARTING, STOPPING} ==>
                (ok <==> id.Some? && (role !in old(operations) || old(operations)[role] == id.value))
                && (ok ==> operations == old(operations)[role := id.value] && paused && sequence == old(sequence))
      ensures state in {RUNNING, STOPPED, ERROR} ==>
                (ok <==> role in old(operations) && id == Some(old(operations)[role]))
                && (ok ==> operations == old(operations) - {role} && paused == old(paused) && sequence == old(sequence) + 1)
      ensures state == UNKNOWN ==> !ok
      ensures lockOwner == old(lockOwner) && sockets == old(sockets)
      ensures !ok ==> State() == old(State())
    {
      if state.STARTING? || state.STOPPING? {
        if id.None? {
          return false;
        }
        if role in operations && operations[role] != id.value {
          return false;
        }
        operations := operations[role := id.value];
        paused := true;
        return true;
      }
      if state.UNKNOWN? {
        return false;
      }
      if role !in operations || id != Some(operations[role]) {
        return false;
      }
      operations := operations - {role};
      Publish();
      ok := true;
    }

    /** _claim_next_task: whether a task may be claimed is decided under the gate, together with the claim. */
    method ClaimNextTask(store: Streams.InMemoryStreams, closed: bool, now: int) returns (reply: Reply)
      requires Valid() && store.Valid()
      modifies this`sequence, store
      ensures Valid() && store.Valid()
      ensures ClaimAnswer(State(), store.Abs(), reply) == TaskClaimed(old(State()), old(store.Abs()), closed, now)
    {
      hide Sound, ClaimedNext;
      if operations != map[] {
        return Nothing;
      }
      if paused {
        var lease := store.ActiveLease(now);
        var bound := lease.Some? && lease.value.bound.Some?;
        if bound == closed {
          return Nothing;
        }
      }
      Publish();
      reply := store.NextRunnable(now);
    }

    /** What entering `maintenance` checks; Err where it refuses. */
    method EnterMaintenance(session: Session, store: Streams.InMemoryStreams) returns (r: Result<(), Refusal>)
      ensures r == if lockOwner != Some(session) then Err(LockRequired)
                   else if MayMaintain(State(), store.Abs(), session) then Ok(()) else Err(DeviceBusy)
    {
      if lockOwner != Some(session) {
        return Err(LockRequired);
      }
      if !paused || operations != map[] {
        return Err(DeviceBusy);
      }
      var busy := store.HasRunningTask();
      return if busy then Err(DeviceBusy) else Ok(());
    }
  }

  datatype Refusal = LockRequired | DeviceBusy

  ghost predicate PausedWhileOwned(c: Control) {
    c.lockOwner.Some? || c.operations != map[] ==> c.paused
  }

  // -------------------------------------------------- the runner and the store

  /**
   * `gate` is the session inside `maintenance`, if any; everybody else who needs the gate waits for it.
   * `recorded` are the operations begun inside `maintenance` whose end was not reported yet.
   */
  datatype System = System(control: Control, mem: Mem, gate: Option<Session>, recorded: map<Role, OperationId>)

  datatype Event =
    | Lock(session: Session)
    | Unlock(session: Session)
    | Disconnect(session: Session)
    | Register(session: Session, socket: Socket)
    | Unregister(session: Session, socket: Socket)
    | Pause
    | Resume
    | Reconcile(role: Role, reported: Option<OperationId>, state: BrokerState)
    | ClaimTask(closed: bool)
    | Enter(session: Session)
    | Begin(role: Role, id: OperationId)
    | Leave
    | StoreCall(op: Op)

  /** Begin and Leave belong to the session inside; calls of the store that are no claims need no gate. */
  predicate Enabled(s: System, e: Event) {
    match e
    case Begin(_, _) => s.gate.Some?
    case Leave => s.gate.Some?
    case StoreCall(op) => !op.Claim?
    case Enter(session) => s.gate.None? && MayMaintain(s.control, s.mem, session)
    case _ => s.gate.None?
  }

  function Next(s: System, e: Event, cap: nat, now: int): System
    requires WellKeyed(s.mem.tasks)
  {
    match e
    case Lock(session) => s.(control := Locked(s.control, session).control)
    case Unlock(session) => s.(control := Unlocked(s.control, session).control)
    case Disconnect(session) => s.(control := Published(Freed(s.control, session)))
    case Register(session, socket) => s.(control := Registered(s.control, session, socket))
    case Unregister(session, socket) => s.(control := Unregistered(s.control, session, socket))
    case Pause => s.(control := Published(s.control.(paused := true)))
    case Resume => s.(control := Resumed(s.control).control)
    case Reconcile(role, id, state) =>
      var answer := Reconciled(s.control, role, id, state);
      var ended := answer.ok && !state.STARTING? && !state.STOPPING?;
      s.(control := answer.control, recorded := if ended then s.recorded - {role} else s.recorded)
    case ClaimTask(closed) =>
      var answer := TaskClaimed(s.control, s.mem, closed, now);
      s.(control := answer.control, mem := answer.mem)
    case Enter(session) => s.(gate := Some(session))
    case Begin(role, id) =>
      var answer := Begun(s.control, role, id);
      s.(control := answer.control, recorded := if answer.ok then s.recorded[role := id] else s.recorded)
    case Leave => s.(gate := None)
    case StoreCall(op) => s.(mem := Step(s.mem, op, cap, now).mem)
  }

  /** The raw transitions that put a task to work without a claim. */
  predicate Stirs(m: Mem, op: Op) {
    op.Report? && op.progress.Transition? && op.id in m.tasks && Allowed(m.tasks[op.id].status, op.progress.next)
    && (op.progress.next.Running? || (op.progress.next.Partial? && !m.tasks[op.id].completed))
  }

  ghost predicate Guarded(s: System) {
    && WellKeyed(s.mem.tasks) && PausedWhileOwned(s.control)
    && (forall role <- s.recorded :: role in s.control.operations && s.control.operations[role] == s.recorded[role])
    && (s.gate.Some? ==> s.control.lockOwner == s.gate)
    && (s.gate.Some? || s.recorded != map[] ==> !AnyBusy(s.mem.tasks))
  }

  lemma GuardedMeans(s: System, role: Role)
    requires Guarded(s)
    ensures s.control.lockOwner != None || s.control.operations != map[] ==> s.control.paused
    ensures s.gate != None ==> s.control.lockOwner == s.gate
    ensures role in s.recorded ==> role in s.control.operations && s.control.operations[role] == s.recorded[role]
    ensures s.gate != None || s.recorded != map[] ==>
              forall id <- s.mem.tasks :: s.mem.tasks[id].status != Running && (s.mem.tasks[id].status == Partial ==> s.mem.tasks[id].completed)
  {
    if s.gate.Some? || s.recorded != map[] {
      forall id <- s.mem.tasks ensures !Busy(s.mem.tasks[id]) {
      }
    }
  }

  /** Every event is the call it is named after; only entering, leaving and operations begun inside touch what is beside it. */
  lemma NextMeans(s: System, e: Event, cap: nat, now: int)
    requires WellKeyed(s.mem.tasks)
    ensures
      var n := Next(s, e, cap, now);
      var stays := n.gate == s.gate && n.recorded == s.recorded;
      match e
      case Lock(session) => n.control == Locked(s.control, session).control && n.mem == s.mem && stays
      case Unlock(session) => n.control == Unlocked(s.control, session).control && n.mem == s.mem && stays
      case Disconnect(session) => n.control == Published(Freed(s.control, session)) && n.mem == s.mem && stays
      case Register(session, socket) => n.control == Registered(s.control, session, socket) && n.mem == s.mem && stays
      case Unregister(session, socket) => n.control == Unregistered(s.control, session, socket) && n.mem == s.mem && stays
      case Pause => n.control == Published(s.control.(paused := true)) && n.mem == s.mem && stays
      case Resume => n.control == Resumed(s.control).control && n.mem == s.mem && stays
      case ClaimTask(closed) =>
        ClaimAnswer(n.control, n.mem, TaskClaimed(s.control, s.mem, closed, now).reply) == TaskClaimed(s.control, s.mem, closed, now) && stays
      case StoreCall(op) => n.control == s.control && n.mem == Step(s.mem, op, cap, now).mem && stays
      case Enter(session) => n.control == s.control && n.mem == s.mem && n.gate == Some(session) && n.recorded == s.recorded
      case Leave => n.control == s.control && n.mem == s.mem && n.gate == None && n.recorded == s.recorded
      case Begin(role, id) =>
        n.control == Begun(s.control, role, id).control && n.mem == s.mem && n.gate == s.gate
        && n.recorded == if Begun(s.control, role, id).ok then s.recorded[role := id] else s.recorded
      case Reconcile(role, id, state) =>
        n.control == Reconciled(s.control, role, id, state).control && n.mem == s.mem && n.gate == s.gate
        && n.recorded == if state in {RUNNING, STOPPED, ERROR} && role in s.control.operations && id == Some(s.control.operations[role])
                         then s.recorded - {role} else s.recorded
  {
    hide Step, TaskClaimed;
  }

  // ------------------------------------------------- who puts tasks to work

  lemma PutIsBusy(tasks: Tasks, id: Id, task: Task)
    requires !AnyBusy(tasks)
    ensures AnyBusy(tasks[id := task]) <==> Busy(task)
  {
    assert tasks[id := task][id] == task;
  }

  /** While nobody works, exactly the raw transitions put a task to work. */
  lemma OnlyStirringMakesBusy(m: Mem, op: Op, cap: nat, now: int)
    requires WellKeyed(m.tasks) && !AnyBusy(m.tasks) && !op.Claim?
    requires (op.Enqueue? || op.Submit?) ==> op.task.status.Queued?
    ensures AnyBusy(Step(m, op, cap, now).mem.tasks) <==> Stirs(m, op)
  {
    hide AnyBusy, QueuedOf, Without, ActiveCount, Canonical, WellKeyed, Allowed;
    var next := Step(m, op, cap, now).mem;
    match op
    case Report(id, p) =>
      if id in m.tasks && Progressed(m.tasks[id], p, now).Some? {
        PutIsBusy(m.tasks, id, Progressed(m.tasks[id], p, now).value);
        NotBusy(m.tasks, id);
      }
    case Recover => FewerBusy(m.tasks, next.tasks);
    case Deduplicate => FewerBusy(m.tasks, next.tasks);
    case Release(_) => FewerBusy(m.tasks, next.tasks);
    case Cleanup => FewerBusy(m.tasks, next.tasks);
    case Acquire(_, _) =>
    case Renew(_, _) =>
    case _ => QueueingKeepsIdle(m, op, cap, now);
  }

  lemma NotBusy(tasks: Tasks, id: Id)
    requires !AnyBusy(tasks) && id in tasks
    ensures !Busy(tasks[id])
  {
  }

  lemma FewerBusy(tasks: Tasks, next: Tasks)
    requires !AnyBusy(tasks) && next.Keys <= tasks.Keys
    requires forall id <- next :: Busy(next[id]) ==> next[id] == tasks[id]
    ensures !AnyBusy(next)
  {
  }

  lemma QueueingKeepsIdle(m: Mem, op: Op, cap: nat, now: int)
    requires WellKeyed(m.tasks) && !AnyBusy(m.tasks)
    requires op.Enqueue? || op.Submit? || op.Requeue? || op.Retry? || op.Refresh? || op.Bind?
    requires (op.Enqueue? || op.Submit?) ==> op.task.status.Queued?
    ensures !AnyBusy(Step(m, op, cap, now).mem.tasks)
  {
    hide QueuedOf, Without, ActiveCount, Canonical, WellKeyed, Candidates;
    if op.Bind? {
    } else if op.Submit? || op.Refresh? {
    } else {
    }
  }

  // ---------------------------------------------------------- system steps

  predicate Held(s: System) {
    s.gate.Some? || s.recorded != map[]
  }

  predicate FreshEvent(e: Event) {
    e.StoreCall? && (e.op.Enqueue? || e.op.Submit?) ==> e.op.task.status.Queued?
  }

  predicate StirsWhileHeld(s: System, e: Event) {
    Held(s) && e.StoreCall? && Stirs(s.mem, e.op)
  }

  /** With an operation about, a claim is refused before the store is asked. */
  lemma OperationBlocksClaims(c: Control, m: Mem, closed: bool, now: int)
    requires c.operations != map[]
    ensures TaskClaimed(c, m, closed, now) == ClaimAnswer(c, m, Nothing)
  {
  }

  lemma ControlKeepsGuarded(s: System, e: Event, cap: nat, now: int)
    requires Guarded(s) && Enabled(s, e) && !e.StoreCall? && !e.ClaimTask?
    ensures Guarded(Next(s, e, cap, now))
  {
    hide WellKeyed;
  }

  /** Nothing but a raw transition to work can break the guard; in particular no claim and no other session can. */
  lemma EventKeepsGuarded(s: System, e: Event, cap: nat, now: int)
    requires Guarded(s) && Enabled(s, e) && FreshEvent(e)
    ensures Guarded(Next(s, e, cap, now)) <==> !StirsWhileHeld(s, e)
  {
    hide Step, Stirs, AnyBusy, ClaimedNext, PausedWhileOwned;
    if e.StoreCall? {
      StepKeepsKeys(s.mem, e.op, cap, now);
      if Held(s) {
        OnlyStirringMakesBusy(s.mem, e.op, cap, now);
      }
    } else if e.ClaimTask? {
      ClaimKeepsGuarded(s, e.closed, cap, now);
    } else {
      ControlKeepsGuarded(s, e, cap, now);
    }
  }

  lemma ClaimKeepsGuarded(s: System, closed: bool, cap: nat, now: int)
    requires Guarded(s) && s.gate.None?
    ensures Guarded(Next(s, ClaimTask(closed), cap, now))
  {
    hide AnyBusy, QueuedOf, Without;
    StepKeepsKeys(s.mem, Op.Claim, cap, now);
    if s.control.operations != map[] {
      OperationBlocksClaims(s.control, s.mem, closed, now);
    } else {
      StepKeepsKeys(Live(s.mem, now), Op.Claim, cap, now);
    }
  }

  /** An operation begun inside `maintenance` goes away only by the report of its own end. */
  lemma OnlyItsEndEndsAnOperation(s: System, e: Event, cap: nat, now: int, role: Role)
    requires Guarded(s) && Enabled(s, e) && role in s.recorded
    ensures
      var next := Next(s, e, cap, now);
      role !in next.recorded || next.recorded[role] != s.recorded[role]
      <==> e.Reconcile? && e.role == role && e.reported == Some(s.recorded[role]) && (e.state.RUNNING? || e.state.STOPPED? || e.state.ERROR?)
  {
    hide Step, WellKeyed, AnyBusy, ClaimedNext, TaskClaimed;
  }

  /** While a recorded operation lasts, nobody works, the queue is paused and cannot be resumed, and no claim succeeds. */
  lemma HeldMeansQuiet(s: System, closed: bool, session: Session, now: int)
    requires Guarded(s) && s.recorded != map[]
    ensures !AnyBusy(s.mem.tasks) && s.control.paused
    ensures TaskClaimed(s.control, s.mem, closed, now) == ClaimAnswer(s.control, s.mem, Nothing)
    ensures !Resumed(s.control).ok && !Unlocked(s.control, session).ok
  {
    var role :| role in s.recorded;
    assert role in s.control.operations;
  }

  // ------------------------------------------------------------------- runs

  datatype Tick = Tick(event: Event, now: int)

  function Play(s: System, ticks: seq<Tick>, cap: nat): System
    requires WellKeyed(s.mem.tasks)
    decreases |ticks|
  {
    if ticks == [] then s
    else
      NextKeepsKeys(s, ticks[0].event, cap, ticks[0].now);
      Play(Next(s, ticks[0].event, cap, ticks[0].now), ticks[1..], cap)
  }

  lemma NextKeepsKeys(s: System, e: Event, cap: nat, now: int)
    requires WellKeyed(s.mem.tasks)
    ensures WellKeyed(Next(s, e, cap, now).mem.tasks)
  {
    hide Step, ClaimedNext, WellKeyed;
    if e.StoreCall? {
      StepKeepsKeys(s.mem, e.op, cap, now);
    } else if e.ClaimTask? {
      ClaimingKeepsKeys(s.mem, now);
      ClaimingKeepsKeys(Live(s.mem, now), now);
    }
  }

  lemma ClaimingKeepsKeys(m: Mem, now: int)
    requires WellKeyed(m.tasks)
    ensures WellKeyed(ClaimedNext(m, now).mem.tasks)
  {
    StepKeepsKeys(m, Op.Claim, 0, now);
  }

  predicate Ends(e: Event, role: Role, id: OperationId) {
    e.Reconcile? && e.role == role && e.reported == Some(id) && (e.state.RUNNING? || e.state.STOPPED? || e.state.ERROR?)
  }

  /** Only enabled events, no raw transitions to work while the devices are held, and no end of operation `id`. */
  predicate Lasting(s: System, ticks: seq<Tick>, role: Role, id: OperationId, cap: nat)
    requires WellKeyed(s.mem.tasks)
    decreases |ticks|
  {
    ticks != [] ==>
      var e := ticks[0].event;
      NextKeepsKeys(s, e, cap, ticks[0].now);
      Enabled(s, e) && FreshEvent(e) && !StirsWhileHeld(s, e) && !Ends(e, role, id)
      && Lasting(Next(s, e, cap, ticks[0].now), ticks[1..], role, id, cap)
  }

  /** From the moment an operation is recorded until its own end is reported, in any interleaving. */
  lemma {:induction false} QuietUntilItEnds(s: System, ticks: seq<Tick>, role: Role, id: OperationId, cap: nat)
    requires Guarded(s) && role in s.recorded && s.recorded[role] == id && Lasting(s, ticks, role, id, cap)
    ensures
      var end := Play(s, ticks, cap);
      Guarded(end) && role in end.recorded && end.recorded[role] == id && !AnyBusy(end.mem.tasks) && end.control.paused
    ensures
      forall closed, now :: TaskClaimed(Play(s, ticks, cap).control, Play(s, ticks, cap).mem, closed, now).reply == Nothing
    decreases |ticks|
  {
    hide Guarded, Enabled, Next, WellKeyed, TaskClaimed, StirsWhileHeld, FreshEvent;
    assert WellKeyed(s.mem.tasks) by { GuardedIsKeyed(s); }
    if ticks == [] {
      forall closed, now
        ensures TaskClaimed(s.control, s.mem, closed, now).reply == Nothing
      {
        HeldMeansQuiet(s, closed, 0, now);
      }
      HeldMeansQuiet(s, false, 0, 0);
    } else {
      var e, next := ticks[0].event, Next(s, ticks[0].event, cap, ticks[0].now);
      EventKeepsGuarded(s, e, cap, ticks[0].now);
      OnlyItsEndEndsAnOperation(s, e, cap, ticks[0].now, role);
      QuietUntilItEnds(next, ticks[1..], role, id, cap);
    }
  }

  lemma GuardedIsKeyed(s: System)
    requires Guarded(s)
    ensures WellKeyed(s.mem.tasks)
  {
  }

  // ------------------------------------------------------------ paused queues

  /** While the market is open a paused queue hands out the acceptance task of a live lease, or nothing. */
  lemma PausedQueueHandsOut(c: Control, m: Mem, now: int)
    requires Sound(m) && Frozen(m) && c.paused
    ensures
      var r := TaskClaimed(c, m, false, now).reply;
      r.Nothing? || (r.Answer? && m.lease.Some? && now < m.lease.value.expiresAt
                     && m.lease.value.bound == Some(r.task.id) && r.task.maintenance == Some(Digest(m.lease.value.owner)))
  {
    hide QueuedOf, Without, AliasesSound, MaintenanceSound;
    if m.lease.Some? && now < m.lease.value.expiresAt {
      ClaimUnderLease(m, now);
    }
  }

  /** While it is closed, the administrator's lock does not stop ordinary claims. */
  lemma ClosedMarketClaimsUnderLock(c: Control, m: Mem, session: Session, now: int)
    requires WellKeyed(m.tasks) && c.lockOwner == Some(session) && c.paused && c.operations == map[]
    requires BoundId(Live(m, now).lease).None?
    ensures TaskClaimed(c, m, true, now).reply.Answer? <==> Live(m, now).lease.None? && QueuedOf(m.fifo, m.tasks) != []
  {
  }
}
