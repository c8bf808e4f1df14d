/** What every operation of the in-memory queue keeps: sound records and the deployment freeze. */
module QueueInvariants {
  import opened Wrappers
  import opened TaskRecords
  import opened InMemoryQueue

  // ---------------------------------------------------------- sound states

  /** Aliases are of ids that are gone and lead to ordinary tasks in one hop. */
  ghost predicate AliasesSound(m: Mem) {
    forall a <- m.aliases :: a !in m.tasks && m.aliases[a] in m.tasks && Ordinary(m.tasks[m.aliases[a]])
  }

  ghost predicate MaintenanceSound(tasks: Tasks) {
    forall id <- tasks :: tasks[id].maintenance.Some? ==> tasks[id].symbol == ACCEPTANCE_SYMBOL && !tasks[id].includeLongCapture
  }

  /** A lease carries its owner's hash, and the task bound to it exists and carries that hash too. */
  ghost predicate LeaseSound(m: Mem) {
    m.lease.Some? ==>
      var lease := m.lease.value;
      lease.digest == Some(Digest(lease.owner))
      && (lease.bound.Some? ==> lease.bound.value in m.tasks && m.tasks[lease.bound.value].maintenance == Some(Digest(lease.owner)))
  }

  ghost predicate Sound(m: Mem) {
    WellKeyed(m.tasks) && AliasesSound(m) && MaintenanceSound(m.tasks) && LeaseSound(m)
  }

  /** No task but the one bound to the lease is being worked on. */
  ghost predicate Frozen(m: Mem) {
    m.lease.Some? ==> forall id <- m.tasks :: Busy(m.tasks[id]) ==> m.lease.value.bound == Some(id)
  }

  /** New tasks start queued, under ids that were never used. */
  ghost predicate FreshOp(m: Mem, op: Op) {
    match op
    case Enqueue(task) => task.id !in m.tasks && task.id !in m.aliases && task.status.Queued?
    case Submit(task) => task.id !in m.tasks && task.id !in m.aliases && task.status.Queued?
    case Bind(_, task) => task.id !in m.aliases
    case _ => true
  }

  /**
   * The one call that can break the freeze: a raw transition of a task not bound to the lease, to RUNNING,
   * or to PARTIAL before the task was ever completed.
   */
  predicate Thaws(m: Mem, op: Op) {
    op.Report? && op.progress.Transition? && op.id in m.tasks
    && m.lease.Some? && m.lease.value.bound != Some(op.id)
    && Allowed(m.tasks[op.id].status, op.progress.next)
    && (op.progress.next.Running? || (op.progress.next.Partial? && !m.tasks[op.id].completed))
  }

  lemma StepKeepsKeys(m: Mem, op: Op, cap: nat, now: int)
    requires WellKeyed(m.tasks)
    ensures WellKeyed(Step(m, op, cap, now).mem.tasks)
  {
    hide QueuedOf, Without, ActiveCount;
    if op.Release? {
    } else if op.Bind? || op.Submit? || op.Refresh? {
    } else {
    }
  }

  // ------------------------------------------------- every step stays sound

  /** What no operation changes about a task. */
  predicate SameOrigin(a: Task, b: Task) {
    a.id == b.id && a.symbol == b.symbol && a.maintenance == b.maintenance
    && (a.maintenance.Some? ==> a.includeLongCapture == b.includeLongCapture)
  }

  predicate LeaseKept(lease: Option<Lease>, next: Option<Lease>) {
    next.Some? ==>
      || (lease.Some? && next.value == lease.value.(expiresAt := next.value.expiresAt))
      || (next.value.bound.None? && next.value.digest == Some(Digest(next.value.owner)))
  }

  /** The same tasks in other states. */
  ghost predicate Similar(m: Mem, next: Mem) {
    && next.tasks.Keys == m.tasks.Keys
    && (forall id <- m.tasks :: SameOrigin(m.tasks[id], next.tasks[id]))
    && next.aliases == m.aliases
    && LeaseKept(m.lease, next.lease)
  }

  /** The same tasks without some, whose aliases and ids lead to ordinary tasks of the same symbol that stay. */
  ghost predicate Pruned(m: Mem, next: Mem) {
    && next.tasks.Keys <= m.tasks.Keys
    && (forall id <- next.tasks :: next.tasks[id] == m.tasks[id])
    && (forall id <- next.aliases :: Known(m, id) && id !in next.tasks && next.aliases[id] in next.tasks && Ordinary(next.tasks[next.aliases[id]]))
    && (forall id | Known(m, id) && Resolved(m.aliases, id) in m.tasks ::
          Known(next, id) && Resolved(next.aliases, id) in next.tasks
          && next.tasks[Resolved(next.aliases, id)].symbol == m.tasks[Resolved(m.aliases, id)].symbol)
    && (next.lease.Some? ==> next.lease == m.lease && (m.lease.value.bound.Some? ==> m.lease.value.bound.value in next.tasks))
  }

  predicate AddsATask(op: Op) {
    op.Enqueue? || op.Submit? || op.Bind?
  }

  predicate RemovesTasks(op: Op) {
    op.Deduplicate? || op.Release? || op.Cleanup?
  }

  /** One task put back in another state. */
  lemma PutIsSimilar(m: Mem, l: Mem, id: Id, task: Task, next: Mem)
    requires Similar(m, l) && id in l.tasks && SameOrigin(l.tasks[id], task)
    requires next.tasks == l.tasks[id := task] && next.aliases == l.aliases && next.lease == l.lease
    ensures Similar(m, next)
  {
  }

  lemma LiveIsSimilar(m: Mem, now: int)
    ensures Similar(m, m) && Similar(m, Live(m, now))
  {
  }

  lemma RefreshIsSimilar(m: Mem, l: Mem, id: Id, longCapture: Option<bool>, cap: nat, now: int)
    requires Similar(m, l) && id in l.tasks && (l.tasks[id].maintenance.Some? ==> longCapture == Some(l.tasks[id].includeLongCapture))
    ensures Similar(m, RefreshedLocked(l, id, longCapture, cap, now).mem)
  {
    hide Similar, ToTail, ActiveCount;
    PutIsSimilar(m, l, id, Reset(l.tasks[id], longCapture, now), l.(tasks := l.tasks[id := Reset(l.tasks[id], longCapture, now)], fifo := ToTail(l.fifo, id)));
  }

  lemma ChangeIsSimilar(m: Mem, op: Op, cap: nat, now: int)
    requires Sound(m) && !AddsATask(op) && !RemovesTasks(op)
    ensures Similar(m, Step(m, op, cap, now).mem)
  {
    hide QueuedOf, Without, ActiveCount, Allowed, Similar, AliasesSound, MaintenanceSound, ToTail, NextId, RefreshedLocked;
    LiveIsSimilar(m, now);
    var next := Step(m, op, cap, now).mem;
    match op
    case Claim =>
      var l := Live(m, now);
      if NextId(l).Some? {
        NextIdExists(l);
        PutIsSimilar(m, l, NextId(l).value, Claimed(l.tasks[NextId(l).value], now), next);
      }
    case Requeue(id) =>
      if id in m.tasks { PutIsSimilar(m, LiveFor(m, m.tasks[id], now), id, Requeued(m.tasks[id], now), next.(tasks := LiveFor(m, m.tasks[id], now).tasks[id := Requeued(m.tasks[id], now)])); }
    case Retry(id) =>
      if id in m.tasks { PutIsSimilar(m, LiveFor(m, m.tasks[id], now), id, Recovered(m.tasks[id], now), next.(tasks := LiveFor(m, m.tasks[id], now).tasks[id := Recovered(m.tasks[id], now)])); }
    case Refresh(name, longCapture) =>
      var id := Resolved(m.aliases, name);
      if id in m.tasks && m.tasks[id].maintenance.None? { RefreshIsSimilar(m, Live(m, now), id, longCapture, cap, now); }
    case Report(id, p) =>
      if id in m.tasks && Progressed(m.tasks[id], p, now).Some? { PutIsSimilar(m, m, id, Progressed(m.tasks[id], p, now).value, next); }
    case _ =>
      LeaseChangesAreSimilar(m, op, cap, now);
  }

  lemma LeaseChangesAreSimilar(m: Mem, op: Op, cap: nat, now: int)
    requires LeaseSound(m) && (op.Recover? || op.Acquire? || op.Renew?) && WellKeyed(m.tasks)
    ensures Similar(m, Step(m, op, cap, now).mem)
  {
  }

  /** The task picked by a claim is queued; without a lease it is ordinary. */
  lemma NextIdExists(l: Mem)
    requires NextId(l).Some?
    ensures var id := NextId(l).value; id in l.tasks && l.tasks[id].status.Queued?
    ensures l.lease.None? ==> Ordinary(l.tasks[NextId(l).value])
    ensures l.lease.Some? ==> l.lease.value.bound == NextId(l)
  {
    hide QueuedOf;
    if l.lease.None? {
      QueuedOfMembers(l.fifo, l.tasks);
      assert QueuedOf(l.fifo, l.tasks)[0] in QueuedOf(l.fifo, l.tasks);
    }
  }

  lemma RemovalPrunes(m: Mem, op: Op, cap: nat, now: int)
    requires Sound(m) && RemovesTasks(op)
    ensures Pruned(m, Step(m, op, cap, now).mem)
  {
    hide QueuedOf, Without, ActiveCount, Pruned, Merged, Duplicates, Canonical, AliasesSound, MaintenanceSound;
    var l := Live(m, now);
    LivePrunes(m, now);
    match op
    case Release(owner) =>
      if OwnedBy(l.lease, owner) {
        ReleasePrunes(l, now);
        PruneTrans(m, l, Step(m, op, cap, now).mem);
      }
    case Cleanup =>
      CleanupPrunes(l);
      PruneTrans(m, l, Step(m, op, cap, now).mem);
    case Deduplicate =>
      MergingPrunes(l);
      PruneTrans(m, l, Step(m, op, cap, now).mem);
  }

  lemma LivePrunes(m: Mem, now: int)
    requires Sound(m)
    ensures Sound(Live(m, now)) && Pruned(m, Live(m, now))
  {
  }

  lemma PruneTrans(m: Mem, l: Mem, next: Mem)
    requires Sound(m) && Pruned(m, l) && Pruned(l, next) && l.tasks == m.tasks && l.aliases == m.aliases
    ensures Pruned(m, next)
  {
  }

  lemma ReleasePrunes(l: Mem, now: int)
    requires Sound(l) && l.lease.Some?
    ensures Pruned(l, if l.lease.value.bound.Some? then Removed(l, l.lease.value.bound.value).(lease := None) else l.(lease := None))
  {
    hide Without, Canonical;
  }

  lemma CleanupPrunes(l: Mem)
    requires Sound(l)
    ensures Pruned(l, l.(tasks := l.tasks - Leftovers(l), fifo := Without(l.fifo, Leftovers(l))))
  {
    hide Without;
  }

  lemma MergingPrunes(l: Mem)
    requires Sound(l)
    ensures Pruned(l, Merged(l, Duplicates(l)))
  {
    hide QueuedOf, Without, ActiveCount, Keeper, MaintenanceSound;
    var dups := Duplicates(l);
    forall id | id in l.tasks && Ordinary(l.tasks[id])
      ensures var t := MergedTarget(l, dups, id); t in l.tasks && t !in dups && Ordinary(l.tasks[t]) && l.tasks[t].symbol == l.tasks[id].symbol
    {
      KeeperStays(l, id);
    }
  }

  /** The keeper of a symbol is an ordinary task of it, not itself a duplicate. */
  lemma KeeperStays(l: Mem, id: Id)
    requires Sound(l) && id in l.tasks && Ordinary(l.tasks[id])
    ensures
      var k := Keeper(l, l.tasks[id].symbol);
      k.Some? && k.value in l.tasks && k.value !in Duplicates(l) && Ordinary(l.tasks[k.value]) && l.tasks[k.value].symbol == l.tasks[id].symbol
  {
    assert id in Candidates(l.tasks, l.tasks[id].symbol, BoundId(l.lease));
  }

  lemma SimilarStaysSound(m: Mem, next: Mem)
    requires Sound(m) && Similar(m, next)
    ensures Sound(next)
    ensures forall id | Known(m, id) :: Known(next, id) && SymbolOf(next, id) == SymbolOf(m, id)
  {
  }

  lemma PrunedStaysSound(m: Mem, next: Mem)
    requires Sound(m) && Pruned(m, next)
    ensures Sound(next)
    ensures forall id | Known(m, id) :: Known(next, id) && SymbolOf(next, id) == SymbolOf(m, id)
  {
  }

  /** One ordinary task, or the acceptance task of the lease, put under a fresh id. */
  ghost predicate Added(m: Mem, next: Mem, task: Task) {
    && next.tasks == m.tasks[task.id := task] && next.aliases == m.aliases
    && task.id !in m.tasks && task.id !in m.aliases
    && (task.maintenance.Some? ==> task.symbol == ACCEPTANCE_SYMBOL && !task.includeLongCapture)
    && (LeaseKept(m.lease, next.lease)
        || (m.lease.Some? && next.lease == Some(m.lease.value.(bound := Some(task.id))) && task.maintenance == Some(Digest(m.lease.value.owner))))
  }

  lemma AddedStaysSound(m: Mem, next: Mem, task: Task)
    requires Sound(m) && Added(m, next, task)
    ensures Sound(next)
    ensures forall id | Known(m, id) :: Known(next, id) && SymbolOf(next, id) == SymbolOf(m, id)
  {
  }

  /** Submitting and binding either put a new task into the store or change the state of one that is there. */
  lemma AdditionAddsOrChanges(m: Mem, op: Op, cap: nat, now: int)
    requires Sound(m) && FreshOp(m, op) && AddsATask(op)
    ensures
      var r := Step(m, op, cap, now);
      Similar(m, r.mem) || (r.reply.Answer? && Added(m, r.mem, r.reply.task))
  {
    hide QueuedOf, Without, ActiveCount, Similar, Added, AliasesSound, MaintenanceSound, Canonical, RefreshedLocked;
    LiveIsSimilar(m, now);
    var l := Live(m, now);
    match op
    case Enqueue(task) =>
      EnqueueAdds(m, m, task, cap);
    case Submit(task) =>
      EnqueueAdds(m, l, task, cap);
      var ids := Candidates(l.tasks, task.symbol, BoundId(l.lease));
      if ids != {} {
        RefreshIsSimilar(m, l, Canonical(l.tasks, ids), Some(task.includeLongCapture), cap, now);
      }
    case Bind(owner, task) =>
      if ValidAcceptance(task) && OwnedBy(l.lease, owner) {
        BindAddsOrChanges(m, owner, task, cap, now);
      }
  }

  lemma EnqueueAdds(m: Mem, l: Mem, task: Task, cap: nat)
    requires Similar(m, l) && l.tasks == m.tasks && l.aliases == m.aliases && task.id !in m.tasks && task.id !in m.aliases
    ensures var r := Enqueued(l, task, false, cap); if r.reply.Answer? then r.reply.task == task && Added(m, r.mem, task) else r.mem == l
  {
    hide ActiveCount;
  }

  lemma BindAddsOrChanges(m: Mem, owner: Owner, task: Task, cap: nat, now: int)
    requires Sound(m) && FreshOp(m, Bind(owner, task)) && ValidAcceptance(task) && OwnedBy(Live(m, now).lease, owner)
    ensures
      var r := AcceptanceBound(m, owner, task, cap, now);
      Similar(m, r.mem) || (r.reply.Answer? && Added(m, r.mem, r.reply.task))
  {
    hide ActiveCount, AliasesSound, RefreshedLocked;
    var signed := m.(lease := Some(m.lease.value.(digest := Some(Digest(owner)))));
    assert signed == m;
    if m.lease.value.bound.Some? {
      var bound := m.lease.value.bound.value;
      RefreshIsSimilar(m, m, bound, Some(false), cap, now);
      var existing := m.tasks[bound];
      assert m.tasks[bound := existing.(maintenance := Some(Digest(owner)))] == m.tasks;
    }
  }

  /**
   * Sound states stay sound, and an id that led to an ordinary task of some symbol keeps leading to one,
   * through every operation.
   */
  lemma StepKeepsSound(m: Mem, op: Op, cap: nat, now: int)
    requires Sound(m) && FreshOp(m, op)
    ensures
      var next := Step(m, op, cap, now).mem;
      Sound(next) && forall id | Known(m, id) :: Known(next, id) && SymbolOf(next, id) == SymbolOf(m, id)
  {
    hide Step, AliasesSound, MaintenanceSound, LeaseSound, FreshOp, Similar, Pruned, Added;
    if AddsATask(op) {
      AdditionAddsOrChanges(m, op, cap, now);
      var r := Step(m, op, cap, now);
      if Similar(m, r.mem) {
        SimilarStaysSound(m, r.mem);
      } else {
        AddedStaysSound(m, r.mem, r.reply.task);
      }
    } else if RemovesTasks(op) {
      RemovalPrunes(m, op, cap, now);
      PrunedStaysSound(m, Step(m, op, cap, now).mem);
    } else {
      ChangeIsSimilar(m, op, cap, now);
      SimilarStaysSound(m, Step(m, op, cap, now).mem);
    }
  }

  // ---------------------------------------------------------- known ordinary ids

  /** An ordinary task or an alias. */
  predicate Known(m: Mem, id: Id) {
    id in m.aliases || (id in m.tasks && Ordinary(m.tasks[id]))
  }

  ghost function SymbolOf(m: Mem, id: Id): Symbol
    requires Sound(m) && Known(m, id)
  {
    m.tasks[Resolved(m.aliases, id)].symbol
  }

  lemma RemovalsKeepFrozen(m: Mem, op: Op, cap: nat, now: int)
    requires Sound(m) && Frozen(m) && RemovesTasks(op)
    ensures Frozen(Step(m, op, cap, now).mem)
  {
    hide Frozen, AliasesSound, MaintenanceSound;
    RemovalPrunes(m, op, cap, now);
    PrunedStaysFrozen(m, Step(m, op, cap, now).mem);
  }

  lemma PrunedStaysFrozen(m: Mem, next: Mem)
    requires Pruned(m, next) && Frozen(m)
    ensures Frozen(next)
  {
  }

  lemma AdditionsKeepFrozen(m: Mem, op: Op, cap: nat, now: int)
    requires Sound(m) && Frozen(m) && FreshOp(m, op) && AddsATask(op)
    ensures Frozen(Step(m, op, cap, now).mem)
  {
    hide QueuedOf, Without, ActiveCount, AliasesSound, MaintenanceSound;
    if op.Bind? {
    } else if op.Submit? {
    } else {
    }
  }

  lemma ReportsKeepFrozen(m: Mem, op: Op, cap: nat, now: int)
    requires Sound(m) && Frozen(m) && op.Report?
    ensures Frozen(Step(m, op, cap, now).mem) <==> !Thaws(m, op)
  {
    hide AliasesSound, MaintenanceSound;
  }

  lemma ChangesKeepFrozen(m: Mem, op: Op, cap: nat, now: int)
    requires Sound(m) && Frozen(m) && !AddsATask(op) && !RemovesTasks(op) && !op.Report?
    ensures Frozen(Step(m, op, cap, now).mem)
  {
    hide QueuedOf, Without, ActiveCount, AliasesSound, MaintenanceSound;
    if op.Claim? {
    } else if op.Refresh? {
    } else if op.Requeue? || op.Retry? {
    } else {
    }
  }

  /** While a lease is there, only the raw transition described above ends the freeze. */
  lemma StepKeepsFrozen(m: Mem, op: Op, cap: nat, now: int)
    requires Sound(m) && Frozen(m) && FreshOp(m, op)
    ensures Frozen(Step(m, op, cap, now).mem) <==> !Thaws(m, op)
  {
    hide Step, Frozen, FreshOp, Sound;
    if AddsATask(op) {
      AdditionsKeepFrozen(m, op, cap, now);
    } else if RemovesTasks(op) {
      RemovalsKeepFrozen(m, op, cap, now);
    } else if op.Report? {
      ReportsKeepFrozen(m, op, cap, now);
    } else {
      ChangesKeepFrozen(m, op, cap, now);
    }
  }

  // ------------------------------------------------------------------- runs

  datatype Call = Call(op: Op, now: int)

  function Run(m: Mem, calls: seq<Call>, cap: nat): (o: Mem)
    requires WellKeyed(m.tasks)
    ensures WellKeyed(o.tasks)
    decreases |calls|
  {
    if calls == [] then m
    else
      StepKeepsKeys(m, calls[0].op, cap, calls[0].now);
      Run(Step(m, calls[0].op, cap, calls[0].now).mem, calls[1..], cap)
  }

  /** The state after the first call. */
  function After(m: Mem, calls: seq<Call>, cap: nat): (next: Mem)
    requires WellKeyed(m.tasks) && calls != []
    ensures WellKeyed(next.tasks)
  {
    StepKeepsKeys(m, calls[0].op, cap, calls[0].now);
    Step(m, calls[0].op, cap, calls[0].now).mem
  }

  /** Ids are fresh when they are submitted. */
  ghost predicate FreshRun(m: Mem, calls: seq<Call>, cap: nat)
    requires WellKeyed(m.tasks)
    decreases |calls|
  {
    calls != [] ==> FreshOp(m, calls[0].op) && FreshRun(After(m, calls, cap), calls[1..], cap)
  }

  predicate NeverThaws(m: Mem, calls: seq<Call>, cap: nat)
    requires WellKeyed(m.tasks)
    decreases |calls|
  {
    calls != [] ==> !Thaws(m, calls[0].op) && NeverThaws(After(m, calls, cap), calls[1..], cap)
  }

  ghost predicate AlwaysFrozen(m: Mem, calls: seq<Call>, cap: nat)
    requires WellKeyed(m.tasks)
    decreases |calls|
  {
    Frozen(m) && (calls != [] ==> AlwaysFrozen(After(m, calls, cap), calls[1..], cap))
  }

  lemma {:induction false} RunKeepsSound(m: Mem, calls: seq<Call>, cap: nat)
    requires Sound(m) && FreshRun(m, calls, cap)
    ensures Sound(Run(m, calls, cap))
    decreases |calls|
  {
    hide FreshOp, Step, AliasesSound, MaintenanceSound, LeaseSound, WellKeyed;
    if calls != [] {
      StepKeepsSound(m, calls[0].op, cap, calls[0].now);
      RunKeepsSound(After(m, calls, cap), calls[1..], cap);
    }
  }

  /** Over a whole run the freeze holds at every moment exactly when no call thaws it. */
  lemma {:induction false} RunIsFrozenExactly(m: Mem, calls: seq<Call>, cap: nat)
    requires Sound(m) && Frozen(m) && FreshRun(m, calls, cap)
    ensures AlwaysFrozen(m, calls, cap) <==> NeverThaws(m, calls, cap)
    decreases |calls|
  {
    hide FreshOp, Step, AliasesSound, MaintenanceSound, LeaseSound, WellKeyed, Frozen, Thaws;
    if calls != [] {
      var next := After(m, calls, cap);
      StepKeepsSound(m, calls[0].op, cap, calls[0].now);
      StepKeepsFrozen(m, calls[0].op, cap, calls[0].now);
      if Frozen(next) {
        RunIsFrozenExactly(next, calls[1..], cap);
      }
    }
  }

  // ------------------------------------------------------- under the freeze

  /** Under an unexpired lease a claim returns the lease's own acceptance task, and only while it is queued. */
  lemma ClaimUnderLease(m: Mem, now: int)
    requires Sound(m) && Frozen(m) && m.lease.Some? && now < m.lease.value.expiresAt
    ensures
      var r, lease := ClaimedNext(m, now).reply, m.lease.value;
      if lease.bound.Some? && m.tasks[lease.bound.value].status.Queued?
      then r.Answer? && r.task == Claimed(m.tasks[lease.bound.value], now) && r.task.maintenance == Some(Digest(lease.owner))
      else r.Nothing?
  {
  }

  /** No ordinary task runs while a lease is held, whatever came before. */
  lemma NothingOrdinaryRuns(calls: seq<Call>, cap: nat, id: Id)
    requires FreshRun(EMPTY, calls, cap) && NeverThaws(EMPTY, calls, cap)
    ensures
      var m := Run(EMPTY, calls, cap);
      Sound(m) && Frozen(m) && (m.lease.Some? && id in m.tasks && Ordinary(m.tasks[id]) ==> !Busy(m.tasks[id]))
  {
    RunKeepsSound(EMPTY, calls, cap);
    RunIsFrozenExactly(EMPTY, calls, cap);
    FrozenAtTheEnd(EMPTY, calls, cap);
  }

  lemma {:induction false} FrozenAtTheEnd(m: Mem, calls: seq<Call>, cap: nat)
    requires WellKeyed(m.tasks) && AlwaysFrozen(m, calls, cap)
    ensures Frozen(Run(m, calls, cap))
    decreases |calls|
  {
    hide Step, Frozen, WellKeyed;
    if calls != [] {
      FrozenAtTheEnd(After(m, calls, cap), calls[1..], cap);
    }
  }

  /**
   * Every lease taken by this code carries its owner's hash and binds a task that carries it too, so its owner
   * is never refused: a renewal and a release succeed, and the release takes the bound task away. The branches
   * for leases and tasks without a hash are never taken.
   */
  lemma OwnerIsNeverRefused(m: Mem, ttl: int, now: int)
    requires Sound(m) && m.lease.Some? && now < m.lease.value.expiresAt && ValidTtl(ttl)
    ensures
      var owner, bound := m.lease.value.owner, m.lease.value.bound;
      var renewed, released := LeaseRenewed(m, owner, ttl, now), LeaseReleased(m, owner, now);
      && renewed.reply == Flag(true)
      && renewed.mem == m.(lease := Some(m.lease.value.(expiresAt := now + ttl)))
      && released.reply == Flag(true) && released.mem.lease.None?
      && released.mem.tasks == (if bound.Some? then m.tasks - {bound.value} else m.tasks)
      && released.mem.aliases == m.aliases
      && (bound.Some? ==> ValidBound(m.tasks[bound.value], bound.value, Digest(owner)) && !ValidLegacyBound(m.tasks[bound.value], bound.value))
  {
    hide Without, QueuedOf;
  }

  /** Nobody else can renew, bind or release it. */
  lemma OthersAreRefused(m: Mem, owner: Owner, ttl: int, task: Task, cap: nat, now: int)
    requires Sound(m) && (m.lease.Some? ==> m.lease.value.owner != owner)
    ensures LeaseRenewed(m, owner, ttl, now).reply == Flag(false)
    ensures LeaseReleased(m, owner, now) == Outcome(Live(m, now), Flag(false))
    ensures AcceptanceBound(m, owner, task, cap, now).reply.Nothing?
  {
  }

  /** Over any run, an ordinary id once accepted leads to an ordinary task of its symbol. */
  lemma {:induction false} RunKeepsKnown(m: Mem, calls: seq<Call>, cap: nat, id: Id)
    requires Sound(m) && FreshRun(m, calls, cap) && Known(m, id)
    ensures Sound(Run(m, calls, cap)) && Known(Run(m, calls, cap), id)
    ensures SymbolOf(Run(m, calls, cap), id) == SymbolOf(m, id)
    decreases |calls|
  {
    hide FreshOp, Step, AliasesSound, MaintenanceSound, LeaseSound, WellKeyed, Known, Resolved;
    if calls != [] {
      StepKeepsSound(m, calls[0].op, cap, calls[0].now);
      RunKeepsKnown(After(m, calls, cap), calls[1..], cap, id);
    }
  }

  // ----------------------------------------------------------- deduplication

  /** One ordinary task is left per symbol. */
  lemma OneTaskPerSymbol(m: Mem, now: int, a: Id, b: Id)
    requires Sound(m)
    requires var tasks := Deduplicated(m, now).tasks; a in tasks && b in tasks && Ordinary(tasks[a]) && Ordinary(tasks[b]) && tasks[a].symbol == tasks[b].symbol
    ensures a == b
  {
    hide Without;
    var l := Live(m, now);
    assert l.lease.Some? ==> l == m;
    assert Keeper(l, l.tasks[a].symbol) == Some(a);
  }

  /** A task that is still active is merged into an active one of its symbol. */
  lemma ActiveSurvives(m: Mem, now: int, id: Id)
    requires Sound(m) && id in m.tasks && Ordinary(m.tasks[id]) && Active(m.tasks[id].status)
    ensures
      var d := Deduplicated(m, now);
      var kept := Resolved(d.aliases, id);
      kept in d.tasks && Active(d.tasks[kept].status) && Ordinary(d.tasks[kept]) && d.tasks[kept].symbol == m.tasks[id].symbol
  {
    hide Without, MaintenanceSound;
    var l := Live(m, now);
    KeeperStays(l, id);
    assert id in Candidates(l.tasks, l.tasks[id].symbol, BoundId(l.lease));
  }

  lemma MergingNothing(l: Mem)
    requires WellKeyed(l.tasks)
    ensures Merged(l, {}) == l
  {
    WithoutAbsent(l.fifo, {});
    assert l.tasks - {} == l.tasks;
    assert l.aliases.Keys + {} == l.aliases.Keys;
    assert Merged(l, {}).aliases == l.aliases;
  }

  lemma NothingLeftToMerge(m: Mem, now: int, later: int)
    requires Sound(m)
    ensures var d := Deduplicated(m, now); Sound(d) && Duplicates(Live(d, later)) == {}
  {
    hide Step, Merged, Canonical, Without;
    var d := Deduplicated(m, now);
    assert Sound(d) by { StepKeepsSound(m, Deduplicate, 0, now); DeduplicateStep(m, now); }
    var again := Live(d, later);
    forall id | id in d.tasks && Ordinary(d.tasks[id])
      ensures Keeper(again, d.tasks[id].symbol) == Some(id)
    {
      KeeperStays(again, id);
      OneTaskPerSymbol(m, now, id, Keeper(again, d.tasks[id].symbol).value);
    }
  }

  lemma DeduplicateStep(m: Mem, now: int)
    requires WellKeyed(m.tasks)
    ensures Step(m, Deduplicate, 0, now).mem == Deduplicated(m, now)
  {
  }

  /** A second pass, at any later time, changes nothing. */
  lemma DeduplicationIsIdempotent(m: Mem, now: int, later: int)
    requires Sound(m)
    ensures
      var d := Deduplicated(m, now);
      WellKeyed(d.tasks) && Duplicates(Live(d, later)) == {} && Deduplicated(d, later) == Live(d, later)
  {
    hide Merged, Duplicates;
    NothingLeftToMerge(m, now, later);
    MergingNothing(Live(Deduplicated(m, now), later));
  }
}
