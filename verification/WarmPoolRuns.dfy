/**
 Every interleaving of the warm pool's callers, background refills and
 administrators.

 A thread runs the locked blocks of `WarmPool` one at a time; authenticating,
 closing and starting a background thread happen between blocks. An `Action` is
 one such step of one thread, a run is any sequence of enabled actions.
 */
module WarmPoolRuns {
  import opened Wrappers
  import opened WarmPool

  /** What a thread does next, once it has closed what it has to close. */
  datatype Stage =
    | Done
    // acquire, between its blocks: authenticate, then confirm
    | Acquiring(acquireFor: Fingerprint, acquiredIn: nat)
    | Confirming(confirmFor: Fingerprint, confirmIn: nat, taken: Conn)
    // the caller of acquire reads with its connection, closes it, and then replenishes the pool
    | Using(usedFor: Fingerprint, conn: Conn)
    | Replenishing(replenishFor: Fingerprint)
    // _schedule_refill, after it decided to start a refill, and when start_background has raised
    | Starting(startFor: Fingerprint, startIn: nat)
    | Resetting(startedIn: nat)
    // _refill, before and after authenticate returns
    | Authenticating(refillFor: Fingerprint, refillIn: nat)
    | Refilled(filledIn: nat, warm: Option<Conn>)

  /** `client` threads hold the client's request lock for as long as they run. */
  datatype Thread = Thread(stage: Stage, toClose: seq<Conn>, client: bool)

  /** `births[id]` is the generation in which connection `id` was asked for; `closed` lists what has been closed, `handed` what was handed out. */
  datatype System = System(pool: Pool, threads: seq<Thread>, births: seq<nat>, closed: seq<Conn>, handed: set<nat>)

  const START: System := System(EMPTY, [], [], [], {})

  datatype Action =
    | Acquire(fingerprint: Fingerprint, now: int, maxIdle: int)
    | Schedule(target: Fingerprint, expected: Option<nat>)
    | Invalidate
    | ClosePool
    | Work(thread: nat, task: Task)

  /** The steps of a thread that has already run its first block. */
  datatype Task =
    | CloseNext
    | AuthenticateSucceeds(at: int)
    | AuthenticateFails
    | Confirm
    | FinishUse
    | Replenish
    | StartBackground
    | StartRaises
    | ResetRefilling
    | Park
    | CannotAuthenticate

  function Listed(conn: Option<Conn>): seq<Conn> {
    if conn.Some? then [conn.value] else []
  }

  /** The stage after the first block of `_schedule_refill`. */
  function AfterSchedule(fingerprint: Fingerprint, decision: Decision): Stage {
    match decision
    case Start(generation) => Starting(fingerprint, generation)
    case _ => Done
  }

  /** The stage after the first block of `acquire`. */
  function AfterAcquire(fingerprint: Fingerprint, taken: Taken): Stage {
    match taken.warm
    case Some(conn) => Confirming(fingerprint, taken.generation, conn)
    case None => Acquiring(fingerprint, taken.generation)
  }

  function Spawn(s: System, pool: Pool, stage: Stage, toClose: seq<Conn>, client: bool): System {
    s.(pool := pool, threads := s.threads + [Thread(stage, toClose, client)])
  }

  function Move(s: System, t: nat, pool: Pool, stage: Stage, toClose: seq<Conn>): System
    requires t < |s.threads|
  {
    s.(pool := pool, threads := s.threads[t := Thread(stage, toClose, s.threads[t].client)])
  }

  /** `authenticate` returns a connection that did not exist before. */
  function Authenticated(s: System, fingerprint: Fingerprint, generation: nat, at: int): Conn {
    Conn(|s.births|, fingerprint, generation, at)
  }

  /** The next step of thread `t`, which has nothing to close. */
  function StageStep(s: System, t: nat, task: Task): Option<System>
    requires t < |s.threads|
  {
    match (task, s.threads[t].stage)
    case (AuthenticateSucceeds(at), Acquiring(fingerprint, generation)) =>
      var conn := Authenticated(s, fingerprint, generation, at);
      Some(Move(s, t, s.pool, Confirming(fingerprint, generation, conn), []).(births := s.births + [generation]))
    case (AuthenticateSucceeds(at), Authenticating(fingerprint, generation)) =>
      var conn := Authenticated(s, fingerprint, generation, at);
      Some(Move(s, t, s.pool, Refilled(generation, Some(conn)), []).(births := s.births + [generation]))
    case (AuthenticateFails, Acquiring(_, _)) =>
      Some(Move(s, t, s.pool, Done, []))
    case (AuthenticateFails, Authenticating(_, generation)) =>
      Some(Move(s, t, s.pool, Refilled(generation, None), []))
    case (Confirm, Confirming(fingerprint, generation, conn)) =>
      if ConfirmBlock(s.pool, generation, fingerprint) then
        Some(Move(s, t, s.pool, Using(fingerprint, conn), []).(handed := s.handed + {conn.id}))
      else
        Some(Move(s, t, s.pool, Done, [conn]))
    case (FinishUse, Using(fingerprint, conn)) =>
      Some(Move(s, t, s.pool, Replenishing(fingerprint), []).(closed := s.closed + [conn]))
    case (Replenish, Replenishing(fingerprint)) =>
      var (pool, decision, stale) := ScheduleBlock(s.pool, fingerprint, None);
      Some(Move(s, t, pool, AfterSchedule(fingerprint, decision), Listed(stale)))
    case (StartBackground, Starting(fingerprint, generation)) =>
      Some(Spawn(Move(s, t, s.pool, Done, []), s.pool, Authenticating(fingerprint, generation), [], false))
    case (StartRaises, Starting(_, generation)) =>
      Some(Move(s, t, s.pool, Resetting(generation), []))
    case (ResetRefilling, Resetting(_)) =>
      Some(Move(s, t, ResetBlock(s.pool), Done, []))
    case (Park, Refilled(generation, warm)) =>
      var (pool, unused, stale) := RefillBlock(s.pool, generation, warm);
      Some(Move(s, t, pool, Done, Listed(unused) + Listed(stale)))
    case (CannotAuthenticate, Authenticating(_, _)) =>
      Some(Move(s, t, s.pool, Done, []))
    case _ => None
  }

  function ThreadStep(s: System, t: nat, task: Task): Option<System>
    requires t < |s.threads|
  {
    var thread := s.threads[t];
    if thread.toClose == [] then StageStep(s, t, task)
    else if task.CloseNext? then
      Some(Move(s, t, s.pool, thread.stage, thread.toClose[1..]).(closed := s.closed + [thread.toClose[0]]))
    else None
  }

  /** The system after an action, or None if the action is not enabled. */
  function Step(s: System, a: Action): Option<System> {
    match a
    case Acquire(fingerprint, now, maxIdle) =>
      var (pool, taken) := AcquireBlock(s.pool, fingerprint, now, maxIdle);
      (match taken
       case None => Some(Spawn(s, pool, Done, [], true))
       case Some(t) => Some(Spawn(s, pool, AfterAcquire(fingerprint, t), Listed(t.expired) + Listed(t.stale), true)))
    case Schedule(fingerprint, expected) =>
      var (pool, decision, stale) := ScheduleBlock(s.pool, fingerprint, expected);
      Some(Spawn(s, pool, AfterSchedule(fingerprint, decision), Listed(stale), true))
    case Invalidate =>
      var (pool, stale) := InvalidateBlock(s.pool);
      Some(Spawn(s, pool, Done, Listed(stale), true))
    case ClosePool =>
      var (pool, stale) := CloseBlock(s.pool);
      Some(Spawn(s, pool, Done, Listed(stale), true))
    case Work(t, task) =>
      if t < |s.threads| then ThreadStep(s, t, task) else None
  }

  function Run(s: System, actions: seq<Action>): Option<System>
    decreases |actions|
  {
    if actions == [] then Some(s)
    else
      var next :- Step(s, actions[0]);
      Run(next, actions[1..])
  }

  // ----------------------------------------------------------------- ownership

  // How often connection `id` occurs in each kind of place.

  function InSlot(conn: Option<Conn>, id: nat): nat {
    if conn.Some? && conn.value.id == id then 1 else 0
  }

  function InList(conns: seq<Conn>, id: nat): nat {
    if conns == [] then 0 else InList(conns[..|conns| - 1], id) + InSlot(Some(conns[|conns| - 1]), id)
  }

  function InStage(stage: Stage, id: nat): nat {
    match stage
    case Confirming(_, _, conn) => InSlot(Some(conn), id)
    case Using(_, conn) => InSlot(Some(conn), id)
    case Refilled(_, warm) => InSlot(warm, id)
    case _ => 0
  }

  function InThread(thread: Thread, id: nat): nat {
    InStage(thread.stage, id) + InList(thread.toClose, id)
  }

  function InThreads(threads: seq<Thread>, id: nat): nat {
    if threads == [] then 0 else InThreads(threads[..|threads| - 1], id) + InThread(threads[|threads| - 1], id)
  }

  /** In how many places connection `id` is: parked, held by a thread, or closed. */
  function Places(s: System, id: nat): nat {
    InSlot(s.pool.ready, id) + InThreads(s.threads, id) + InList(s.closed, id)
  }

  /** Every connection that `authenticate` has returned is in exactly one place. */
  ghost predicate Owned(s: System) {
    forall id: nat :: Places(s, id) == if id < |s.births| then 1 else 0
  }

  lemma {:induction false} ThreadsAfterMove(threads: seq<Thread>, t: nat, thread: Thread, id: nat)
    requires t < |threads|
    ensures InThreads(threads[t := thread], id) + InThread(threads[t], id) == InThreads(threads, id) + InThread(thread, id)
    decreases |threads|
  {
    hide InThread;
    var last := |threads| - 1;
    var changed := threads[t := thread];
    if t == last {
      assert changed[..last] == threads[..last];
    } else {
      ThreadsAfterMove(threads[..last], t, thread, id);
      assert changed[..last] == threads[..last][t := thread];
    }
  }

  lemma ThreadsAfterSpawn(threads: seq<Thread>, thread: Thread, id: nat)
    ensures InThreads(threads + [thread], id) == InThreads(threads, id) + InThread(thread, id)
  {
    assert (threads + [thread])[..|threads|] == threads;
  }

  lemma ListAfterAppend(conns: seq<Conn>, conn: Conn, id: nat)
    ensures InList(conns + [conn], id) == InList(conns, id) + InSlot(Some(conn), id)
  {
    assert (conns + [conn])[..|conns|] == conns;
  }

  lemma {:induction false} ListWithoutFirst(conns: seq<Conn>, id: nat)
    requires conns != []
    ensures InList(conns, id) == InSlot(Some(conns[0]), id) + InList(conns[1..], id)
    decreases |conns|
  {
    var last := |conns| - 1;
    if last > 0 {
      ListWithoutFirst(conns[..last], id);
      assert conns[..last][1..] == conns[1..][..last - 1];
    } else {
      assert conns[..0] == [] && conns[1..] == [];
    }
  }

  lemma ListOfSlots(a: Option<Conn>, b: Option<Conn>, id: nat)
    ensures InList(Listed(a), id) == InSlot(a, id)
    ensures InList(Listed(a) + Listed(b), id) == InSlot(a, id) + InSlot(b, id)
  {
    assert Listed(a) + [] == Listed(a);
    if a.Some? {
      ListAfterAppend([], a.value, id);
      assert [] + [a.value] == Listed(a);
    }
    if b.Some? {
      ListAfterAppend(Listed(a), b.value, id);
    }
  }

  /** 1 if the step brought connection `id` into existence. */
  function Born(s: System, s': System, id: nat): nat {
    if |s'.births| > |s.births| && id == |s.births| then 1 else 0
  }

  /** A thread that moves on changes the places by its own and the pool's. */
  lemma MoveConserves(s: System, t: nat, s': System, id: nat)
    requires t < |s.threads| == |s'.threads| && s'.threads == s.threads[t := s'.threads[t]]
    ensures
      Places(s', id) + InThread(s.threads[t], id) + InSlot(s.pool.ready, id) + InList(s.closed, id)
      == Places(s, id) + InThread(s'.threads[t], id) + InSlot(s'.pool.ready, id) + InList(s'.closed, id)
  {
    hide InThreads, InThread, InSlot, InList;
    ThreadsAfterMove(s.threads, t, s'.threads[t], id);
  }

  lemma SpawningConserves(s: System, t: nat, id: nat)
    requires t < |s.threads| && s.threads[t].toClose == [] && StageStep(s, t, StartBackground).Some?
    ensures Places(StageStep(s, t, StartBackground).value, id) == Places(s, id)
  {
    hide InThreads;
    var s' := StageStep(s, t, StartBackground).value;
    var moved := Move(s, t, s.pool, Done, []);
    ThreadsAfterMove(s.threads, t, moved.threads[t], id);
    ThreadsAfterSpawn(moved.threads, s'.threads[|s.threads|], id);
  }

  /** The steps that exchange a connection with the pool. */
  lemma PoolStepConserves(s: System, t: nat, task: Task, id: nat)
    requires t < |s.threads| && s.threads[t].toClose == [] && (task.Replenish? || task.Park?) && StageStep(s, t, task).Some?
    ensures Places(StageStep(s, t, task).value, id) == Places(s, id)
  {
    hide Places, InThreads, InSlot, InList, ScheduleBlock, RefillBlock;
    var s', stage := StageStep(s, t, task).value, s.threads[t].stage;
    MoveConserves(s, t, s', id);
    NothingListed(id);
    if task.Replenish? {
      ScheduleConserves(s.pool, stage.replenishFor, None, id);
      ListOfSlots(ScheduleBlock(s.pool, stage.replenishFor, None).2, None, id);
    } else {
      RefillConserves(s.pool, stage.filledIn, stage.warm, id);
      var (_, unused, stale) := RefillBlock(s.pool, stage.filledIn, stage.warm);
      ListOfSlots(unused, stale, id);
    }
  }

  lemma NothingListed(id: nat)
    ensures InList([], id) == 0 && InSlot(None, id) == 0
  {
  }

  lemma StageStepConserves(s: System, t: nat, task: Task, id: nat)
    requires t < |s.threads| && s.threads[t].toClose == [] && StageStep(s, t, task).Some?
    ensures var s' := StageStep(s, t, task).value; Places(s', id) == Places(s, id) + Born(s, s', id)
  {
    hide Places, InThreads, InList, ScheduleBlock, RefillBlock, ConfirmBlock;
    var s', stage := StageStep(s, t, task).value, s.threads[t].stage;
    if task.StartBackground? {
      SpawningConserves(s, t, id);
    } else if task.Replenish? || task.Park? {
      PoolStepConserves(s, t, task, id);
    } else {
      MoveConserves(s, t, s', id);
      NothingListed(id);
      if task.FinishUse? {
        ListAfterAppend(s.closed, stage.conn, id);
      } else if task.Confirm? {
        ListOfSlots(Some(stage.taken), None, id);
      }
    }
  }

  lemma ScheduleConserves(p: Pool, fingerprint: Fingerprint, expected: Option<nat>, id: nat)
    ensures var (q, _, stale) := ScheduleBlock(p, fingerprint, expected); InSlot(q.ready, id) + InSlot(stale, id) == InSlot(p.ready, id)
  {
  }

  lemma AcquireConserves(p: Pool, fingerprint: Fingerprint, now: int, maxIdle: int, id: nat)
    ensures var (q, taken) := AcquireBlock(p, fingerprint, now, maxIdle);
            InSlot(q.ready, id) + (if taken.None? then 0
                                   else InSlot(taken.value.warm, id) + InSlot(taken.value.stale, id) + InSlot(taken.value.expired, id))
            == InSlot(p.ready, id)
  {
  }

  lemma RefillConserves(p: Pool, generation: nat, warm: Option<Conn>, id: nat)
    ensures var (q, unused, stale) := RefillBlock(p, generation, warm);
            InSlot(q.ready, id) + InSlot(unused, id) + InSlot(stale, id) == InSlot(p.ready, id) + InSlot(warm, id)
  {
  }

  /** No action loses or duplicates a connection. */
  lemma {:induction false} StepConserves(s: System, a: Action, id: nat)
    requires Step(s, a).Some?
    ensures var s' := Step(s, a).value; Places(s', id) == Places(s, id) + Born(s, s', id)
  {
    hide InThreads, StageStep, ScheduleBlock, AcquireBlock;
    var s' := Step(s, a).value;
    if a.Work? {
      var thread := s.threads[a.thread];
      if thread.toClose == [] {
        StageStepConserves(s, a.thread, a.task, id);
      } else {
        assert s'.threads == s.threads[a.thread := s'.threads[a.thread]];
        ThreadsAfterMove(s.threads, a.thread, s'.threads[a.thread], id);
        ListWithoutFirst(thread.toClose, id);
        ListAfterAppend(s.closed, thread.toClose[0], id);
      }
    } else {
      ThreadsAfterSpawn(s.threads, s'.threads[|s.threads|], id);
      match a
      case Acquire(fingerprint, now, maxIdle) =>
        AcquireConserves(s.pool, fingerprint, now, maxIdle, id);
        var taken := AcquireBlock(s.pool, fingerprint, now, maxIdle).1;
        if taken.Some? {
          ListOfSlots(taken.value.expired, taken.value.stale, id);
        }
      case Schedule(fingerprint, expected) =>
        ScheduleConserves(s.pool, fingerprint, expected, id);
        ListOfSlots(ScheduleBlock(s.pool, fingerprint, expected).2, None, id);
      case _ =>
        ListOfSlots(s.pool.ready, None, id);
    }
  }

  // ------------------------------------------------------------- the invariant

  /** The connection exists and remembers the generation it was asked for in. */
  ghost predicate Known(s: System, conn: Conn) {
    conn.id < |s.births| && s.births[conn.id] == conn.born
  }

  ghost predicate StageSound(s: System, stage: Stage) {
    match stage
    case Acquiring(_, generation) => generation <= s.pool.generation
    case Confirming(fingerprint, generation, conn) =>
      generation <= s.pool.generation && conn.fingerprint == fingerprint && conn.born == generation && Known(s, conn)
    case Using(fingerprint, conn) => conn.fingerprint == fingerprint && conn.id in s.handed && Known(s, conn)
    case Starting(_, generation) => generation <= s.pool.generation
    case Resetting(generation) => generation <= s.pool.generation
    case Authenticating(_, generation) => generation <= s.pool.generation
    case Refilled(generation, warm) =>
      generation <= s.pool.generation && (warm.Some? ==> warm.value.born == generation && Known(s, warm.value))
    case _ => true
  }

  /** A connection that was handed out is closed or still with the caller that got it. */
  ghost predicate Retired(s: System, id: nat) {
    InList(s.closed, id) > 0 || exists t :: 0 <= t < |s.threads| && s.threads[t].stage.Using? && s.threads[t].stage.conn.id == id
  }

  ghost predicate Inv(s: System) {
    && Owned(s)
    && Sound(s.pool)
    && (s.pool.ready.Some? ==> Known(s, s.pool.ready.value))
    && (forall i :: 0 <= i < |s.births| ==> s.births[i] <= s.pool.generation)
    && (forall t :: 0 <= t < |s.threads| ==> StageSound(s, s.threads[t].stage))
    && (forall id <- s.handed :: Retired(s, id))
  }

  /** What no step undoes. */
  ghost predicate Later(s: System, s': System) {
    && s.pool.generation <= s'.pool.generation && s.births <= s'.births && s.handed <= s'.handed
    && (s.pool.closed ==> s'.pool.closed)
  }

  lemma StageStaysSound(s: System, s': System, stage: Stage)
    requires Later(s, s') && StageSound(s, stage)
    ensures StageSound(s', stage)
  {
  }

  lemma {:induction false} ListGrows(conns: seq<Conn>, more: seq<Conn>, id: nat)
    ensures InList(conns + more, id) >= InList(conns, id)
    decreases |more|
  {
    if more == [] {
      assert conns + more == conns;
    } else {
      var last := |more| - 1;
      ListGrows(conns, more[..last], id);
      ListAfterAppend(conns + more[..last], more[last], id);
      assert conns + more == (conns + more[..last]) + [more[last]];
    }
  }

  /** What one step does to the pool, the threads and the records. */
  lemma {:induction false} StepFacts(s: System, a: Action)
    requires Inv(s) && Step(s, a).Some?
    ensures var s' := Step(s, a).value;
            && Later(s, s') && Sound(s'.pool) && s.closed <= s'.closed
            && |s'.threads| >= |s.threads|
            && (forall i :: 0 <= i < |s'.births| ==> s'.births[i] <= s'.pool.generation)
            && (s'.pool.ready.Some? ==> Known(s', s'.pool.ready.value))
            && (forall t :: 0 <= t < |s'.threads| ==> StageSound(s', s'.threads[t].stage))
  {
    hide Owned, Retired;
    var s' := Step(s, a).value;
    if a.Work? {
      WorkFacts(s, a.thread, a.task);
    } else {
      assert s'.threads[..|s.threads|] == s.threads;
      forall t | 0 <= t < |s'.threads| ensures StageSound(s', s'.threads[t].stage) {
        if t < |s.threads| {
          StageStaysSound(s, s', s.threads[t].stage);
        }
      }
    }
  }

  lemma {:induction false} WorkFacts(s: System, t: nat, task: Task)
    requires Inv(s) && t < |s.threads| && ThreadStep(s, t, task).Some?
    ensures var s' := ThreadStep(s, t, task).value;
            && Later(s, s') && Sound(s'.pool) && s.closed <= s'.closed
            && |s'.threads| >= |s.threads|
            && (forall i :: 0 <= i < |s'.births| ==> s'.births[i] <= s'.pool.generation)
            && (s'.pool.ready.Some? ==> Known(s', s'.pool.ready.value))
            && (forall u :: 0 <= u < |s'.threads| ==> StageSound(s', s'.threads[u].stage))
  {
    hide Owned, Retired, InList;
    var s' := ThreadStep(s, t, task).value;
    assert StageSound(s, s.threads[t].stage);
    forall u | 0 <= u < |s'.threads| ensures StageSound(s', s'.threads[u].stage) {
      if u < |s.threads| && u != t {
        StageStaysSound(s, s', s.threads[u].stage);
      }
    }
  }

  /** A step either leaves `Using` threads alone, or ends the use of one by closing its connection. */
  lemma UsersStayOrClose(s: System, a: Action, t: nat)
    requires Step(s, a).Some? && t < |s.threads| && s.threads[t].stage.Using?
    ensures var s' := Step(s, a).value;
            t < |s'.threads| && (s'.threads[t].stage == s.threads[t].stage || s.threads[t].stage.conn in s'.closed)
  {
    hide InList;
    if a.Work? && a.thread == t && s.threads[t].toClose == [] {
      assert a.task.FinishUse?;
    }
  }

  lemma {:induction false} ClosedIsCounted(conns: seq<Conn>, conn: Conn)
    requires conn in conns
    ensures InList(conns, conn.id) > 0
    decreases |conns|
  {
    var last := |conns| - 1;
    if conns[last] != conn {
      assert conns == conns[..last] + [conns[last]];
      ClosedIsCounted(conns[..last], conn);
    }
  }

  lemma RetiredStays(s: System, a: Action, id: nat)
    requires Inv(s) && Step(s, a).Some? && Retired(s, id)
    ensures Retired(Step(s, a).value, id)
  {
    hide Owned, InList, Sound, StageSound;
    var s' := Step(s, a).value;
    StepFacts(s, a);
    if InList(s.closed, id) > 0 {
      ListGrows(s.closed, s'.closed[|s.closed|..], id);
      assert s'.closed == s.closed + s'.closed[|s.closed|..];
    } else {
      var t :| 0 <= t < |s.threads| && s.threads[t].stage.Using? && s.threads[t].stage.conn.id == id;
      UsersStayOrClose(s, a, t);
      if s'.threads[t].stage != s.threads[t].stage {
        ClosedIsCounted(s'.closed, s.threads[t].stage.conn);
      }
    }
  }

  lemma NewlyHandedIsInUse(s: System, a: Action, id: nat)
    requires Step(s, a).Some? && id in Step(s, a).value.handed && id !in s.handed
    ensures Retired(Step(s, a).value, id)
    ensures a.Work? && a.task.Confirm? && a.thread < |s.threads| && s.threads[a.thread].stage.Confirming?
            && s.threads[a.thread].stage.taken.id == id
            && ConfirmBlock(s.pool, s.threads[a.thread].stage.confirmIn, s.threads[a.thread].stage.confirmFor)
  {
    hide InList;
    var s' := Step(s, a).value;
    assert s'.threads[a.thread].stage.Using?;
  }

  /** Every step of every thread keeps the invariant. */
  lemma StepKeepsInv(s: System, a: Action)
    requires Inv(s) && Step(s, a).Some?
    ensures Inv(Step(s, a).value)
  {
    hide Retired, Sound, StageSound, Known, Places, Step;
    var s' := Step(s, a).value;
    StepFacts(s, a);
    forall id: nat ensures Places(s', id) == if id < |s'.births| then 1 else 0 {
      StepConserves(s, a, id);
      BirthsGrowByOne(s, a);
    }
    forall id | id in s'.handed ensures Retired(s', id) {
      if id in s.handed {
        RetiredStays(s, a, id);
      } else {
        NewlyHandedIsInUse(s, a, id);
      }
    }
  }

  lemma BirthsGrowByOne(s: System, a: Action)
    requires Step(s, a).Some?
    ensures |s.births| <= |Step(s, a).value.births| <= |s.births| + 1
  {
  }

  lemma StartKeepsInv()
    ensures Inv(START)
  {
  }

  /** So every reachable system satisfies it. */
  lemma {:induction false} RunKeepsInv(s: System, actions: seq<Action>)
    requires Inv(s) && Run(s, actions).Some?
    ensures Inv(Run(s, actions).value) && Later(s, Run(s, actions).value)
    decreases |actions|
  {
    hide Inv, Step;
    if actions != [] {
      var next := Step(s, actions[0]).value;
      StepKeepsInv(s, actions[0]);
      StepIsLater(s, actions[0]);
      RunKeepsInv(next, actions[1..]);
    }
  }

  lemma StepIsLater(s: System, a: Action)
    requires Inv(s) && Step(s, a).Some?
    ensures Later(s, Step(s, a).value)
  {
    StepFacts(s, a);
  }

  // ------------------------------------------------------------------ theorems

  /** In every interleaving, each authenticated connection is in exactly one place. */
  lemma ConnectionsHaveOneOwner(actions: seq<Action>, id: nat)
    requires Run(START, actions).Some?
    ensures var s := Run(START, actions).value; Places(s, id) == if id < |s.births| then 1 else 0
  {
    hide Run, StageSound, Sound, Retired, Places;
    StartKeepsInv();
    RunKeepsInv(START, actions);
  }

  lemma {:induction false} HoldersAreCounted(threads: seq<Thread>, t: nat, u: nat, id: nat)
    requires t < |threads| && u < |threads|
    ensures InThreads(threads, id) >= InThread(threads[t], id) + if t == u then 0 else InThread(threads[u], id)
    decreases |threads|
  {
    hide InThread;
    var last := |threads| - 1;
    if t < last && u < last {
      HoldersAreCounted(threads[..last], t, u, id);
    } else if t < last {
      HoldersAreCounted(threads[..last], t, t, id);
    } else if u < last {
      HoldersAreCounted(threads[..last], u, u, id);
    }
  }

  /** A connection that was handed out is never parked again, nor about to be handed out again, and has one user. */
  lemma HandedOutIsConsumed(s: System, id: nat, t: nat)
    requires Inv(s) && id in s.handed && t < |s.threads|
    ensures InSlot(s.pool.ready, id) == 0
    ensures !s.threads[t].stage.Using? ==> InStage(s.threads[t].stage, id) == 0
    ensures forall u :: 0 <= u < |s.threads| && s.threads[u].stage.Using? && s.threads[u].stage.conn.id == id ==>
              InSlot(s.pool.ready, id) == 0 && (u != t ==> InThread(s.threads[t], id) == 0)
  {
    hide Sound, StageSound, InThreads, InList;
    assert Retired(s, id);
    assert Places(s, id) <= 1;
    HoldersAreCounted(s.threads, t, t, id);
    if InList(s.closed, id) == 0 {
      var u :| 0 <= u < |s.threads| && s.threads[u].stage.Using? && s.threads[u].stage.conn.id == id;
      HoldersAreCounted(s.threads, t, u, id);
    }
    forall u | 0 <= u < |s.threads| && s.threads[u].stage.Using? && s.threads[u].stage.conn.id == id
      ensures InSlot(s.pool.ready, id) == 0 && (u != t ==> InThread(s.threads[t], id) == 0)
    {
      HoldersAreCounted(s.threads, t, u, id);
    }
  }

  /** `t` is handed its connection by this step. */
  ghost predicate HandsOut(s: System, t: nat) {
    && t < |s.threads| && s.threads[t].stage.Confirming? && s.threads[t].toClose == []
    && ConfirmBlock(s.pool, s.threads[t].stage.confirmIn, s.threads[t].stage.confirmFor)
  }

  /** What is handed out is of the session asked for and of the current generation, and was never handed out before. */
  lemma HandedOutIsCurrent(s: System, t: nat)
    requires Inv(s) && HandsOut(s, t)
    ensures var stage := s.threads[t].stage;
            && Step(s, Work(t, Confirm)).Some?
            && Step(s, Work(t, Confirm)).value.threads[t].stage == Using(stage.confirmFor, stage.taken)
            && stage.taken.fingerprint == stage.confirmFor && s.pool.fingerprint == Some(stage.confirmFor)
            && stage.taken.born == stage.confirmIn == s.pool.generation
            && stage.taken.id !in s.handed
  {
    hide InThreads, Retired;
    var stage := s.threads[t].stage;
    assert StageSound(s, stage);
    if stage.taken.id in s.handed {
      HandedOutIsConsumed(s, stage.taken.id, t);
    }
  }

  /** After `invalidate`, no connection that existed before it is handed out, whatever runs in between. */
  lemma NothingOldIsHandedOut(s: System, actions: seq<Action>, t: nat)
    requires Inv(s) && Run(Step(s, Invalidate).value, actions).Some?
    requires HandsOut(Run(Step(s, Invalidate).value, actions).value, t)
    ensures Run(Step(s, Invalidate).value, actions).value.threads[t].stage.taken.id >= |s.births|
  {
    hide Run, Owned, Retired;
    var s1 := Step(s, Invalidate).value;
    StepKeepsInv(s, Invalidate);
    RunKeepsInv(s1, actions);
    var s2 := Run(s1, actions).value;
    HandedOutIsCurrent(s2, t);
    assert StageSound(s2, s2.threads[t].stage);
  }

  /** After `close`, nothing is handed out and nothing is parked. */
  lemma ClosedPoolHandsOutNothing(s: System, actions: seq<Action>, t: nat)
    requires Inv(s) && Run(Step(s, ClosePool).value, actions).Some?
    ensures !HandsOut(Run(Step(s, ClosePool).value, actions).value, t)
    ensures Run(Step(s, ClosePool).value, actions).value.pool.ready == None
  {
    hide Run, Owned, Retired, StageSound;
    StepKeepsInv(s, ClosePool);
    RunKeepsInv(Step(s, ClosePool).value, actions);
  }

  ghost predicate Finished(thread: Thread) {
    thread.stage.Done? && thread.toClose == []
  }

  lemma {:induction false} FinishedHoldNothing(threads: seq<Thread>, id: nat)
    requires forall t :: 0 <= t < |threads| ==> Finished(threads[t])
    ensures InThreads(threads, id) == 0
    decreases |threads|
  {
    if threads != [] {
      var last := |threads| - 1;
      assert Finished(threads[last]);
      forall t | 0 <= t < last ensures Finished(threads[..last][t]) {
        assert Finished(threads[t]);
      }
      FinishedHoldNothing(threads[..last], id);
    }
  }

  /** No connection is leaked: once every thread has finished, each one is closed, unless it is the parked one. */
  lemma NothingLeaks(s: System, id: nat)
    requires Inv(s) && id < |s.births| && forall t :: 0 <= t < |s.threads| ==> Finished(s.threads[t])
    ensures InList(s.closed, id) == if s.pool.ready.Some? && s.pool.ready.value.id == id then 0 else 1
    ensures s.pool.closed ==> InList(s.closed, id) == 1
  {
    hide InThreads, Retired, StageSound;
    FinishedHoldNothing(s.threads, id);
    assert Places(s, id) == 1;
  }

  // ------------------------------------------------------ a warm connection is used

  /** A refill that comes back with a connection of the open, empty pool's session parks that very connection. */
  lemma RefillParks(s: System, t: nat, conn: Conn)
    requires t < |s.threads| && s.threads[t].toClose == [] && s.threads[t].stage == Refilled(s.pool.generation, Some(conn))
    requires !s.pool.closed && s.pool.ready.None? && s.pool.fingerprint == Some(conn.fingerprint)
    ensures
      var parked := Step(s, Work(t, Park));
      parked.Some? && parked.value.pool == s.pool.(ready := Some(conn), refilling := false) && parked.value.closed == s.closed
      && parked.value.threads == s.threads[t := Thread(Done, [], s.threads[t].client)]
      && parked.value.births == s.births && parked.value.handed == s.handed
  {
    assert Listed(None) + Listed(None) == [];
  }

  /** A parked connection of the session, not idle too long, is handed to the next caller without authenticating again. */
  lemma ParkedIsHandedOut(s: System, conn: Conn, now: int, maxIdle: int)
    requires s.pool.ready == Some(conn) && s.pool.fingerprint == Some(conn.fingerprint) && !s.pool.closed
    requires now - conn.authenticatedAt <= maxIdle
    ensures
      var t := |s.threads|;
      var taken := Step(s, Acquire(conn.fingerprint, now, maxIdle));
      taken.Some? && Step(taken.value, Work(t, Confirm)).Some?
      && var handed := Step(taken.value, Work(t, Confirm)).value;
      && |handed.threads| == t + 1 && handed.threads[t] == Thread(Using(conn.fingerprint, conn), [], true)
      && handed.births == s.births && handed.closed == s.closed && handed.pool == s.pool.(ready := None)
      && handed.handed == s.handed + {conn.id}
  {
    assert Listed(None) + Listed(None) == [];
  }

  /** From a new pool: what was authenticated ahead of time is what the first caller gets. */
  lemma PrewarmedIsHandedOut(fingerprint: Fingerprint, at: int, now: int, maxIdle: int)
    requires now - at <= maxIdle
    ensures
      var conn := Conn(0, fingerprint, 1, at);
      var parked := Run(START, [Schedule(fingerprint, None), Work(0, StartBackground), Work(1, AuthenticateSucceeds(at)), Work(1, Park)]);
      && parked.Some? && |parked.value.threads| == 2 && parked.value.births == [1]
      && parked.value.pool == Pool(Some(conn), Some(fingerprint), false, false, 1)
      && Run(parked.value, [Acquire(fingerprint, now, maxIdle), Work(2, Confirm)]).Some?
      && var handed := Run(parked.value, [Acquire(fingerprint, now, maxIdle), Work(2, Confirm)]).value;
      && |handed.threads| == 3 && handed.threads[2] == Thread(Using(fingerprint, conn), [], true)
      && handed.births == [1] && handed.closed == [] && handed.pool.ready.None?
  {
    hide Step, Run;
    var conn := Conn(0, fingerprint, 1, at);
    var s1, s2, s3, s4 := PrewarmState(1, fingerprint, at), PrewarmState(2, fingerprint, at), PrewarmState(3, fingerprint, at), PrewarmState(4, fingerprint, at);
    PrewarmSteps(fingerprint, at);
    RunOfOne(s3, Work(1, Park), s4);
    assert [Work(1, AuthenticateSucceeds(at))] + [Work(1, Park)] == [Work(1, AuthenticateSucceeds(at)), Work(1, Park)];
    assert [Work(0, StartBackground)] + [Work(1, AuthenticateSucceeds(at)), Work(1, Park)]
        == [Work(0, StartBackground), Work(1, AuthenticateSucceeds(at)), Work(1, Park)];
    assert [Schedule(fingerprint, None)] + [Work(0, StartBackground), Work(1, AuthenticateSucceeds(at)), Work(1, Park)]
        == [Schedule(fingerprint, None), Work(0, StartBackground), Work(1, AuthenticateSucceeds(at)), Work(1, Park)];
    assert [Acquire(fingerprint, now, maxIdle)] + [Work(2, Confirm)] == [Acquire(fingerprint, now, maxIdle), Work(2, Confirm)];
    RunOfMore(s2, Work(1, AuthenticateSucceeds(at)), s3, [Work(1, Park)], s4);
    RunOfMore(s1, Work(0, StartBackground), s2, [Work(1, AuthenticateSucceeds(at)), Work(1, Park)], s4);
    RunOfMore(START, Schedule(fingerprint, None), s1, [Work(0, StartBackground), Work(1, AuthenticateSucceeds(at)), Work(1, Park)], s4);
    ParkedIsHandedOut(s4, conn, now, maxIdle);
    var taken := Step(s4, Acquire(fingerprint, now, maxIdle)).value;
    var handed := Step(taken, Work(2, Confirm)).value;
    RunOfOne(taken, Work(2, Confirm), handed);
    RunOfMore(s4, Acquire(fingerprint, now, maxIdle), taken, [Work(2, Confirm)], handed);
  }

  function PrewarmState(k: nat, fingerprint: Fingerprint, at: int): System {
    var conn := Conn(0, fingerprint, 1, at);
    var refilling, done := Pool(None, Some(fingerprint), true, false, 1), Thread(Done, [], true);
    match k
    case 1 => System(refilling, [Thread(Starting(fingerprint, 1), [], true)], [], [], {})
    case 2 => System(refilling, [done, Thread(Authenticating(fingerprint, 1), [], false)], [], [], {})
    case 3 => System(refilling, [done, Thread(Refilled(1, Some(conn)), [], false)], [1], [], {})
    case _ => System(Pool(Some(conn), Some(fingerprint), false, false, 1), [done, Thread(Done, [], false)], [1], [], {})
  }

  lemma PrewarmSteps(fingerprint: Fingerprint, at: int)
    ensures Step(START, Schedule(fingerprint, None)) == Some(PrewarmState(1, fingerprint, at))
    ensures Step(PrewarmState(1, fingerprint, at), Work(0, StartBackground)) == Some(PrewarmState(2, fingerprint, at))
    ensures Step(PrewarmState(2, fingerprint, at), Work(1, AuthenticateSucceeds(at))) == Some(PrewarmState(3, fingerprint, at))
    ensures Step(PrewarmState(3, fingerprint, at), Work(1, Park)) == Some(PrewarmState(4, fingerprint, at))
  {
    hide Step;
    PrewarmStarts(fingerprint, at);
    PrewarmEnds(fingerprint, at);
  }

  lemma PrewarmStarts(fingerprint: Fingerprint, at: int)
    ensures Step(START, Schedule(fingerprint, None)) == Some(PrewarmState(1, fingerprint, at))
    ensures Step(PrewarmState(1, fingerprint, at), Work(0, StartBackground)) == Some(PrewarmState(2, fingerprint, at))
  {
    var done, authenticating := Thread(Done, [], true), Thread(Authenticating(fingerprint, 1), [], false);
    var starting := Thread(Starting(fingerprint, 1), [], true);
    assert [] + [starting] == [starting] && [starting][0 := done] == [done];
    assert [done] + [authenticating] == [done, authenticating];
  }

  lemma PrewarmEnds(fingerprint: Fingerprint, at: int)
    ensures Step(PrewarmState(2, fingerprint, at), Work(1, AuthenticateSucceeds(at))) == Some(PrewarmState(3, fingerprint, at))
    ensures Step(PrewarmState(3, fingerprint, at), Work(1, Park)) == Some(PrewarmState(4, fingerprint, at))
  {
    var conn := Conn(0, fingerprint, 1, at);
    var done, authenticating := Thread(Done, [], true), Thread(Authenticating(fingerprint, 1), [], false);
    var refilled := Thread(Refilled(1, Some(conn)), [], false);
    assert [done, authenticating][1 := refilled] == [done, refilled];
    assert [] + [1] == [1];
    RefillParks(PrewarmState(3, fingerprint, at), 1, conn);
    assert [done, refilled][1 := Thread(Done, [], false)] == [done, Thread(Done, [], false)];
  }

  lemma RunOfOne(s: System, a: Action, next: System)
    requires Step(s, a) == Some(next)
    ensures Run(s, [a]) == Some(next)
  {
    hide Step;
    assert [a][1..] == [];
    assert Run(next, []) == Some(next);
  }

  lemma RunOfMore(s: System, a: Action, next: System, rest: seq<Action>, end: System)
    requires Step(s, a) == Some(next) && Run(next, rest) == Some(end)
    ensures Run(s, [a] + rest) == Some(end)
  {
    hide Step;
    assert ([a] + rest)[1..] == rest;
  }

  // ------------------------------------------------------- refills in progress

  /** A refill of `generation` that is being started, is authenticating, or has not parked yet. */
  function LiveIn(stage: Stage, generation: nat): nat {
    match stage
    case Starting(_, g) => if g == generation then 1 else 0
    case Resetting(g) => if g == generation then 1 else 0
    case Authenticating(_, g) => if g == generation then 1 else 0
    case Refilled(g, _) => if g == generation then 1 else 0
    case _ => 0
  }

  function Live(threads: seq<Thread>, generation: nat): nat {
    if threads == [] then 0
    else Live(threads[..|threads| - 1], generation) + LiveIn(threads[|threads| - 1].stage, generation)
  }

  /** The flag `_refilling` covers every live refill of the current generation, and there is at most one. */
  ghost predicate Covered(s: System) {
    var live := Live(s.threads, s.pool.generation);
    live <= 1 && (live == 1 ==> s.pool.refilling)
  }

  /** A failed start that clears the flag of a refill of another generation. */
  ghost predicate HarmfulReset(s: System, a: Action) {
    && a.Work? && a.task.ResetRefilling? && a.thread < |s.threads| && s.threads[a.thread].stage.Resetting?
    && s.threads[a.thread].toClose == []
    && s.threads[a.thread].stage.startedIn != s.pool.generation
    && Live(s.threads, s.pool.generation) == 1
  }

  lemma {:induction false} LiveAfterMove(threads: seq<Thread>, t: nat, thread: Thread, generation: nat)
    requires t < |threads|
    ensures Live(threads[t := thread], generation) + LiveIn(threads[t].stage, generation)
         == Live(threads, generation) + LiveIn(thread.stage, generation)
    decreases |threads|
  {
    hide LiveIn;
    var last := |threads| - 1;
    var changed := threads[t := thread];
    if t == last {
      assert changed[..last] == threads[..last];
    } else {
      LiveAfterMove(threads[..last], t, thread, generation);
      assert changed[..last] == threads[..last][t := thread];
    }
  }

  lemma LiveAfterSpawn(threads: seq<Thread>, thread: Thread, generation: nat)
    ensures Live(threads + [thread], generation) == Live(threads, generation) + LiveIn(thread.stage, generation)
  {
    assert (threads + [thread])[..|threads|] == threads;
  }

  lemma {:induction false} NoneLiveInTheFuture(s: System, threads: seq<Thread>, generation: nat)
    requires generation > s.pool.generation && forall t :: 0 <= t < |threads| ==> StageSound(s, threads[t].stage)
    ensures Live(threads, generation) == 0
    decreases |threads|
  {
    if threads != [] {
      var last := |threads| - 1;
      assert StageSound(s, threads[last].stage);
      forall t | 0 <= t < last ensures StageSound(s, threads[..last][t].stage) {
        assert StageSound(s, threads[t].stage);
      }
      NoneLiveInTheFuture(s, threads[..last], generation);
    }
  }

  lemma WorkKeepsCoverageExactly(s: System, t: nat, task: Task)
    requires Inv(s) && Covered(s) && t < |s.threads| && ThreadStep(s, t, task).Some?
    ensures Covered(ThreadStep(s, t, task).value) <==> !HarmfulReset(s, Work(t, task))
  {
    hide Owned, Retired, StageSound, Live, Sound, AcquireBlock, ConfirmBlock;
    var s' := ThreadStep(s, t, task).value;
    var g := s'.pool.generation;
    StepIsLater(s, Work(t, task));
    if g > s.pool.generation {
      NoneLiveInTheFuture(s, s.threads, g);
    }
    if task.StartBackground? {
      var moved := s.threads[t := s'.threads[t]];
      assert s'.threads == moved + [s'.threads[|s.threads|]];
      LiveAfterMove(s.threads, t, s'.threads[t], g);
      LiveAfterSpawn(moved, s'.threads[|s.threads|], g);
    } else {
      assert s'.threads == s.threads[t := s'.threads[t]];
      LiveAfterMove(s.threads, t, s'.threads[t], g);
    }
  }

  /** A step leaves the flag covering the live refills exactly when it is not a harmful reset. */
  lemma CoverageIsKeptExactly(s: System, a: Action)
    requires Inv(s) && Covered(s) && Step(s, a).Some?
    ensures Covered(Step(s, a).value) <==> !HarmfulReset(s, a)
  {
    hide Owned, Retired, StageSound, Live, Sound, ThreadStep;
    if a.Work? {
      WorkKeepsCoverageExactly(s, a.thread, a.task);
    } else {
      var s' := Step(s, a).value;
      var g := s'.pool.generation;
      StepIsLater(s, a);
      if g > s.pool.generation {
        NoneLiveInTheFuture(s, s.threads, g);
      }
      LiveAfterSpawn(s.threads, s'.threads[|s.threads|], g);
    }
  }

  /** No action of the run is a harmful reset. */
  ghost predicate OnlyHarmlessResets(s: System, actions: seq<Action>)
    requires Run(s, actions).Some?
    decreases |actions|
  {
    actions == [] || (!HarmfulReset(s, actions[0]) && OnlyHarmlessResets(Step(s, actions[0]).value, actions[1..]))
  }

  ghost predicate AlwaysCovered(s: System, actions: seq<Action>)
    requires Run(s, actions).Some?
    decreases |actions|
  {
    Covered(s) && (actions == [] || AlwaysCovered(Step(s, actions[0]).value, actions[1..]))
  }

  /** Over a whole run there is at most one live refill, covered by the flag, exactly when no reset is harmful. */
  lemma {:induction false} RunIsCoveredExactly(s: System, actions: seq<Action>)
    requires Inv(s) && Covered(s) && Run(s, actions).Some?
    ensures AlwaysCovered(s, actions) <==> OnlyHarmlessResets(s, actions)
    decreases |actions|
  {
    hide Inv, Step, Covered, HarmfulReset;
    if actions != [] {
      CoverageIsKeptExactly(s, actions[0]);
      StepKeepsInv(s, actions[0]);
      if Covered(Step(s, actions[0]).value) {
        RunIsCoveredExactly(Step(s, actions[0]).value, actions[1..]);
      } else {
        assert actions[1..] == [] || actions[1..] != [];
      }
    }
  }

  ghost predicate NoneResetting(s: System) {
    forall t :: 0 <= t < |s.threads| ==> !s.threads[t].stage.Resetting?
  }

  /** In particular when start_background never raises. */
  lemma {:induction false} StartsThatNeverRaiseAreHarmless(s: System, actions: seq<Action>)
    requires Inv(s) && NoneResetting(s) && Run(s, actions).Some?
    requires forall a <- actions :: a.Work? ==> !a.task.StartRaises?
    ensures OnlyHarmlessResets(s, actions)
    decreases |actions|
  {
    hide Inv;
    if actions != [] {
      assert actions[0] in actions;
      NoneStartsResetting(s, actions[0]);
      StepKeepsInv(s, actions[0]);
      StartsThatNeverRaiseAreHarmless(Step(s, actions[0]).value, actions[1..]);
    }
  }

  lemma NoneStartsResetting(s: System, a: Action)
    requires NoneResetting(s) && Step(s, a).Some? && (a.Work? ==> !a.task.StartRaises?)
    ensures NoneResetting(Step(s, a).value)
  {
    hide ScheduleBlock, AcquireBlock, RefillBlock, ConfirmBlock;
    if a.Work? {
      assert !Step(s, a).value.threads[a.thread].stage.Resetting?;
    }
  }

  // Two refills: the first start raises, the session is replaced, a second
  // start is on its way when the first clears its flag, and a third follows.

  function ExampleAction(k: nat): Action {
    match k
    case 0 => Schedule(7, None)
    case 1 => Work(0, StartRaises)
    case 2 => Invalidate
    case 3 => Schedule(7, None)
    case 4 => Work(0, ResetRefilling)
    case _ => Schedule(7, None)
  }

  function ExampleThread(stage: Stage): Thread {
    Thread(stage, [], true)
  }

  function ExampleState(k: nat): System {
    var resetting, done, starting := ExampleThread(Resetting(1)), ExampleThread(Done), ExampleThread(Starting(7, 3));
    match k
    case 0 => START
    case 1 => System(Pool(None, Some(7), true, false, 1), [ExampleThread(Starting(7, 1))], [], [], {})
    case 2 => System(Pool(None, Some(7), true, false, 1), [resetting], [], [], {})
    case 3 => System(Pool(None, None, false, false, 2), [resetting, done], [], [], {})
    case 4 => System(Pool(None, Some(7), true, false, 3), [resetting, done, starting], [], [], {})
    case 5 => System(Pool(None, Some(7), false, false, 3), [done, done, starting], [], [], {})
    case _ => System(Pool(None, Some(7), true, false, 3), [done, done, starting, starting], [], [], {})
  }

  lemma ExampleSteps()
    ensures Step(ExampleState(0), ExampleAction(0)) == Some(ExampleState(1))
    ensures Step(ExampleState(1), ExampleAction(1)) == Some(ExampleState(2))
    ensures Step(ExampleState(2), ExampleAction(2)) == Some(ExampleState(3))
  {
    var t1, t2, t3 := ExampleState(1).threads, ExampleState(2).threads, ExampleState(3).threads;
    assert [] + t1 == t1;
    assert t1[0 := t2[0]] == t2;
    assert t2 + [t3[1]] == t3;
  }

  lemma ExampleStepsOn()
    ensures Step(ExampleState(3), ExampleAction(3)) == Some(ExampleState(4))
    ensures Step(ExampleState(4), ExampleAction(4)) == Some(ExampleState(5))
    ensures Step(ExampleState(5), ExampleAction(5)) == Some(ExampleState(6))
  {
    var t3, t4, t5, t6 := ExampleState(3).threads, ExampleState(4).threads, ExampleState(5).threads, ExampleState(6).threads;
    assert t3 + [t4[2]] == t4;
    assert t4[0 := t5[0]] == t5;
    assert t5 + [t6[3]] == t6;
  }

  lemma ExampleHasTwoLive()
    ensures Live(ExampleState(6).threads, 3) == 2
  {
    var done, starting := ExampleThread(Done), ExampleThread(Starting(7, 3));
    assert Live([], 3) == 0;
    LiveAfterSpawn([], done, 3);
    LiveAfterSpawn([done], done, 3);
    LiveAfterSpawn([done, done], starting, 3);
    LiveAfterSpawn([done, done, starting], starting, 3);
    assert [] + [done] == [done] && [done] + [done] == [done, done];
    assert [done, done] + [starting] == [done, done, starting];
    assert [done, done, starting] + [starting] == ExampleState(6).threads;
  }

  /** Otherwise two refills of one generation can run at once, for callers that go past the client's lock. */
  lemma TwoRefillsCanRun()
    ensures exists actions, s :: Run(START, actions) == Some(s) && Live(s.threads, s.pool.generation) == 2 && !LockedRun(START, actions)
  {
    hide Step, Live, Run, LockedRun;
    ExampleSteps();
    ExampleStepsOn();
    RunOfSix(ExampleState(0), ExampleAction(0), ExampleState(1), ExampleAction(1), ExampleState(2), ExampleAction(2),
             ExampleState(3), ExampleAction(3), ExampleState(4), ExampleAction(4), ExampleState(5), ExampleAction(5), ExampleState(6));
    ExampleHasTwoLive();
    var actions :| Run(START, actions) == Some(ExampleState(6));
    TwoRefillsNeedABypass(actions, ExampleState(6));
  }

  lemma RunOfSix(s0: System, a0: Action, s1: System, a1: Action, s2: System, a2: Action, s3: System,
      a3: Action, s4: System, a4: Action, s5: System, a5: Action, s6: System)
    requires Step(s0, a0) == Some(s1) && Step(s1, a1) == Some(s2) && Step(s2, a2) == Some(s3)
    requires Step(s3, a3) == Some(s4) && Step(s4, a4) == Some(s5) && Step(s5, a5) == Some(s6)
    ensures Run(s0, [a0, a1, a2, a3, a4, a5]) == Some(s6)
  {
    hide Step;
    assert Run(s6, []) == Some(s6);
    assert [a5][1..] == [];
    assert Run(s5, [a5]) == Some(s6);
    assert [a4, a5][1..] == [a5];
    assert Run(s4, [a4, a5]) == Some(s6);
    assert [a3, a4, a5][1..] == [a4, a5];
    assert Run(s3, [a3, a4, a5]) == Some(s6);
    assert [a2, a3, a4, a5][1..] == [a3, a4, a5];
    assert Run(s2, [a2, a3, a4, a5]) == Some(s6);
    assert [a1, a2, a3, a4, a5][1..] == [a2, a3, a4, a5];
    assert Run(s1, [a1, a2, a3, a4, a5]) == Some(s6);
    assert [a0, a1, a2, a3, a4, a5][1..] == [a1, a2, a3, a4, a5];
  }

  // ----------------------------------------------------- under the request lock

  /** A client thread still holding the request lock. */
  predicate Busy(thread: Thread) {
    thread.client && !(thread.stage.Done? && thread.toClose == [])
  }

  /** `Core9528Client` takes its request lock before it calls the pool, so only one client thread runs. */
  ghost predicate LockPermits(s: System, a: Action) {
    a.Work? || forall t :: 0 <= t < |s.threads| ==> !Busy(s.threads[t])
  }

  /** Background threads only refill. */
  predicate RoleOk(thread: Thread) {
    !thread.client ==> thread.stage.Authenticating? || thread.stage.Refilled? || thread.stage.Done?
  }

  /** At most one client thread runs, and the connection in use belongs to the current, open session. */
  ghost predicate LockInv(s: System) {
    && RolesSound(s)
    && (forall t :: 0 <= t < |s.threads| && s.threads[t].stage.Using? ==> InUseIsCurrent(s, s.threads[t].stage))
  }

  predicate InUseIsCurrent(s: System, stage: Stage)
    requires stage.Using?
  {
    !s.pool.closed && s.pool.fingerprint == Some(stage.usedFor) && stage.conn.born == s.pool.generation
  }

  ghost predicate RolesSound(s: System) {
    && (forall t :: 0 <= t < |s.threads| ==> RoleOk(s.threads[t]))
    && (forall t, u :: 0 <= t < u < |s.threads| ==> !(Busy(s.threads[t]) && Busy(s.threads[u])))
  }

  /** What one thread's step does to the threads. */
  lemma WorkOfOneThread(s: System, t: nat, task: Task)
    requires t < |s.threads| && ThreadStep(s, t, task).Some? && RoleOk(s.threads[t])
    ensures
      var threads := ThreadStep(s, t, task).value.threads;
      && |s.threads| <= |threads| <= |s.threads| + 1
      && (forall u :: 0 <= u < |s.threads| && u != t ==> threads[u] == s.threads[u])
      && RoleOk(threads[t]) && (Busy(threads[t]) ==> Busy(s.threads[t]))
      && (|threads| > |s.threads| ==> RoleOk(threads[|s.threads|]) && !Busy(threads[|s.threads|]))
  {
    hide ScheduleBlock, AcquireBlock, RefillBlock, ConfirmBlock;
  }

  lemma RolesAreKept(s: System, a: Action)
    requires RolesSound(s) && LockPermits(s, a) && Step(s, a).Some?
    ensures RolesSound(Step(s, a).value)
  {
    hide ScheduleBlock, AcquireBlock, ThreadStep, RoleOk, Busy;
    var s' := Step(s, a).value;
    if a.Work? {
      WorkOfOneThread(s, a.thread, a.task);
    } else {
      NewThreadIsClient(s, a);
    }
  }

  lemma NewThreadIsClient(s: System, a: Action)
    requires !a.Work? && Step(s, a).Some?
    ensures
      var threads := Step(s, a).value.threads;
      |threads| == |s.threads| + 1 && threads[..|s.threads|] == s.threads && RoleOk(threads[|s.threads|])
  {
    hide ScheduleBlock, AcquireBlock;
  }

  /** Only `Replenish` and the actions that need the lock touch the session. */
  lemma SessionIsKept(s: System, t: nat, task: Task)
    requires t < |s.threads| && ThreadStep(s, t, task).Some? && !task.Replenish?
    ensures var p := ThreadStep(s, t, task).value.pool;
            p.closed == s.pool.closed && p.fingerprint == s.pool.fingerprint && p.generation == s.pool.generation
  {
    hide ScheduleBlock;
  }

  lemma UsersBefore(s: System, a: Action, t: nat)
    requires Step(s, a).Some? && t < |Step(s, a).value.threads| && Step(s, a).value.threads[t].stage.Using?
    ensures (t < |s.threads| && Step(s, a).value.threads[t].stage == s.threads[t].stage)
            || (a == Work(t, Confirm) && HandsOut(s, t)
                && Step(s, a).value.threads[t].stage == Using(s.threads[t].stage.confirmFor, s.threads[t].stage.taken))
  {
    hide ScheduleBlock, AcquireBlock, RefillBlock, ConfirmBlock;
  }

  /** Under the request lock nothing invalidates, closes or replaces a session while a caller uses its connection. */
  lemma LockedStepKeepsUseCurrent(s: System, a: Action)
    requires Inv(s) && LockInv(s) && LockPermits(s, a) && Step(s, a).Some?
    ensures LockInv(Step(s, a).value)
  {
    hide Owned, Retired, Sound, StageSound, ThreadStep, ScheduleBlock, AcquireBlock;
    var s' := Step(s, a).value;
    RolesAreKept(s, a);
    forall t | 0 <= t < |s'.threads| && s'.threads[t].stage.Using?
      ensures InUseIsCurrent(s', s'.threads[t].stage)
    {
      UsersBefore(s, a, t);
      if t < |s.threads| && s'.threads[t].stage == s.threads[t].stage {
        assert RoleOk(s.threads[t]) && Busy(s.threads[t]);
        assert a.Work?;
        if a.task.Replenish? {
          ReplenisherIsBusy(s, a.thread);
        } else {
          SessionIsKept(s, a.thread, a.task);
        }
      } else {
        HandedOutIsCurrent(s, t);
        SessionIsKept(s, t, Confirm);
      }
    }
  }

  lemma ReplenisherIsBusy(s: System, t: nat)
    requires LockInv(s) && t < |s.threads| && ThreadStep(s, t, Replenish).Some?
    ensures Busy(s.threads[t]) && !s.threads[t].stage.Using?
  {
    assert RoleOk(s.threads[t]);
  }

  ghost predicate LockedRun(s: System, actions: seq<Action>)
    decreases |actions|
  {
    actions == [] || (LockPermits(s, actions[0]) && Step(s, actions[0]).Some? && LockedRun(Step(s, actions[0]).value, actions[1..]))
  }

  lemma {:induction false} LockedRunKeepsUseCurrent(s: System, actions: seq<Action>)
    requires Inv(s) && LockInv(s) && LockedRun(s, actions)
    ensures Run(s, actions).Some? && LockInv(Run(s, actions).value)
    decreases |actions|
  {
    hide Inv, LockInv, Step;
    if actions != [] {
      LockedStepKeepsUseCurrent(s, actions[0]);
      StepKeepsInv(s, actions[0]);
      LockedRunKeepsUseCurrent(Step(s, actions[0]).value, actions[1..]);
    }
  }

  /** A start under way, or a failed one not yet undone, is of the current generation. */
  predicate StartIsCurrent(s: System, stage: Stage) {
    && (stage.Starting? ==> stage.startIn == s.pool.generation)
    && (stage.Resetting? ==> stage.startedIn == s.pool.generation)
  }

  ghost predicate StartsAreCurrent(s: System) {
    forall t :: 0 <= t < |s.threads| ==> StartIsCurrent(s, s.threads[t].stage)
  }

  /** What one thread's step means for starts: its own is current, and the generation moves only with `Replenish`. */
  lemma WorkStartsCurrent(s: System, t: nat, task: Task)
    requires t < |s.threads| && ThreadStep(s, t, task).Some? && StartIsCurrent(s, s.threads[t].stage)
    ensures
      var s' := ThreadStep(s, t, task).value;
      && StartIsCurrent(s', s'.threads[t].stage)
      && (|s'.threads| > |s.threads| ==> StartIsCurrent(s', s'.threads[|s.threads|].stage))
      && (s'.pool.generation == s.pool.generation || s.threads[t].stage.Replenishing?)
  {
    hide AcquireBlock, ConfirmBlock;
  }

  lemma NewStartIsCurrent(s: System, a: Action)
    requires !a.Work? && Step(s, a).Some?
    ensures var s' := Step(s, a).value; |s'.threads| == |s.threads| + 1 && StartIsCurrent(s', s'.threads[|s.threads|].stage)
  {
  }

  /** Under the request lock no action is a harmful reset. */
  lemma LockedStepIsHarmless(s: System, a: Action)
    requires Inv(s) && LockInv(s) && StartsAreCurrent(s) && LockPermits(s, a) && Step(s, a).Some?
    ensures !HarmfulReset(s, a) && StartsAreCurrent(Step(s, a).value)
  {
    hide Inv, ThreadStep, ScheduleBlock, AcquireBlock, Live;
    var s' := Step(s, a).value;
    if a.Work? {
      WorkStartsCurrent(s, a.thread, a.task);
      WorkOfOneThread(s, a.thread, a.task);
    } else {
      NewThreadIsClient(s, a);
      NewStartIsCurrent(s, a);
    }
    forall t | 0 <= t < |s'.threads|
      ensures StartIsCurrent(s', s'.threads[t].stage)
    {
      if t < |s.threads| && s'.threads[t] == s.threads[t] {
        assert StartIsCurrent(s, s.threads[t].stage) && RoleOk(s.threads[t]);
      }
    }
  }

  /** So through the client there is never more than one live refill of a generation, whatever fails or raises. */
  lemma {:induction false} LockedRunIsCovered(s: System, actions: seq<Action>)
    requires Inv(s) && LockInv(s) && StartsAreCurrent(s) && Covered(s) && LockedRun(s, actions)
    ensures Run(s, actions).Some? && OnlyHarmlessResets(s, actions) && AlwaysCovered(s, actions)
    decreases |actions|
  {
    hide Inv, LockInv, Step, Covered, HarmfulReset, StartsAreCurrent;
    if actions != [] {
      LockedStepKeepsUseCurrent(s, actions[0]);
      LockedStepIsHarmless(s, actions[0]);
      CoverageIsKeptExactly(s, actions[0]);
      StepKeepsInv(s, actions[0]);
      LockedRunIsCovered(Step(s, actions[0]).value, actions[1..]);
    }
  }

  lemma ClientKeepsOneRefill(actions: seq<Action>)
    requires LockedRun(START, actions)
    ensures Run(START, actions).Some? && OnlyHarmlessResets(START, actions) && AlwaysCovered(START, actions)
  {
    StartKeepsInv();
    LockedRunIsCovered(START, actions);
  }

  lemma {:induction false} CoveredAtTheEnd(s: System, actions: seq<Action>)
    requires Run(s, actions).Some? && AlwaysCovered(s, actions)
    ensures Covered(Run(s, actions).value)
    decreases |actions|
  {
    hide Step, Covered;
    if actions != [] {
      CoveredAtTheEnd(Step(s, actions[0]).value, actions[1..]);
    }
  }

  /** A run that ends with two live refills is not one the client makes. */
  lemma TwoRefillsNeedABypass(actions: seq<Action>, s: System)
    requires Run(START, actions) == Some(s) && Live(s.threads, s.pool.generation) >= 2
    ensures !LockedRun(START, actions)
  {
    hide Run, LockedRun, Live;
    if LockedRun(START, actions) {
      ClientKeepsOneRefill(actions);
      CoveredAtTheEnd(START, actions);
    }
  }
}
