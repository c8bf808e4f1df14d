/** What the queue's operations do, in statuses, times and list positions. */
module QueueMeaning {
  import opened Wrappers
  import opened TaskRecords
  import opened InMemoryQueue
  import opened QueueInvariants

  // ----------------------------------------------------------------- statuses

  lemma StatusGroups(task: Task)
    ensures Active(task.status) <==> task.status in {Queued, Running, WaitingAdmin}
    ensures Busy(task) <==> task.status == Running || (task.status == Partial && !task.completed)
    ensures Retryable(task) <==> task.status in {Completed, MarketSnapshot, Failed, Expired} || (task.status == Partial && task.completed)
  {
  }

  /** A task with only status, update time and completion changed. */
  predicate Moves(before: Task, after: Task, status: Status, now: int, completed: bool) {
    && after.status == status && after.updatedAt == now && after.completed == completed
    && after.id == before.id && after.symbol == before.symbol && after.maintenance == before.maintenance
    && after.includeLongCapture == before.includeLongCapture && after.createdAt == before.createdAt
  }

  /** The task is answered in a new state, and nothing else in the store changes. */
  predicate AnswersMoved(m: Mem, o: Outcome, id: Id, status: Status, now: int, completed: bool) {
    && o.reply.Answer? && id in m.tasks && Moves(m.tasks[id], o.reply.task, status, now, completed)
    && o.mem.tasks.Keys == m.tasks.Keys && (forall x <- m.tasks :: o.mem.tasks[x] == if x == id then o.reply.task else m.tasks[x])
    && o.mem.fifo == m.fifo && o.mem.aliases == m.aliases && o.mem.lease == m.lease
  }

  lemma TransitionMeans(m: Mem, id: Id, next: Status, now: int)
    ensures
      var o := Reported(m, id, Transition(next), now);
      if id !in m.tasks then o == Outcome(m, Missing)
      else if (m.tasks[id].status, next) !in TRANSITIONS then o == Outcome(m, Invalid)
      else AnswersMoved(m, o, id, next, now, m.tasks[id].completed || next in {Completed, MarketSnapshot, Failed})
  {
    if id in m.tasks {
      TransitionTable(m.tasks[id].status, next);
    }
  }

  /** COMPLETED with the last capture; PARTIAL, and no more completed than before, with any other. */
  lemma CaptureMeans(m: Mem, id: Id, all: bool, now: int)
    ensures
      var o := Reported(m, id, CaptureReady(all), now);
      if id !in m.tasks then o == Outcome(m, Missing)
      else if m.tasks[id].status !in {Running, Partial} then o == Outcome(m, Invalid)
      else if all then AnswersMoved(m, o, id, Completed, now, true)
      else AnswersMoved(m, o, id, Partial, now, m.tasks[id].completed)
  {
  }

  /** COMPLETED if the values are complete, else PARTIAL; completed either way; a path exactly for long captures. */
  lemma ResultMeans(m: Mem, id: Id, longCapture: bool, complete: bool, now: int)
    ensures
      var o := Reported(m, id, ResultReady(longCapture, complete), now);
      if id !in m.tasks then o == Outcome(m, Missing)
      else if m.tasks[id].status !in {Running, Partial} || m.tasks[id].includeLongCapture != longCapture then o == Outcome(m, Invalid)
      else if complete then AnswersMoved(m, o, id, Completed, now, true)
      else AnswersMoved(m, o, id, Partial, now, true)
  {
  }

  lemma SnapshotMeans(m: Mem, id: Id, now: int)
    ensures
      var o := Reported(m, id, SnapshotReady, now);
      if id !in m.tasks then o == Outcome(m, Missing)
      else if m.tasks[id].status != Running then o == Outcome(m, Invalid)
      else AnswersMoved(m, o, id, MarketSnapshot, now, true)
  {
  }

  // ------------------------------------------------------------------- order

  /** The canonical task: an active one if there is one; then the newest, the last updated, the highest id. */
  lemma CanonicalMeans(tasks: Tasks, ids: set<Id>, other: Id)
    requires WellKeyed(tasks) && ids <= tasks.Keys && other in ids
    ensures
      var best, t := tasks[Canonical(tasks, ids)], tasks[other];
      var activeBest, active := best.status in {Queued, Running, WaitingAdmin}, t.status in {Queued, Running, WaitingAdmin};
      && (active ==> activeBest)
      && (activeBest == active ==> best.createdAt >= t.createdAt)
      && (activeBest == active && best.createdAt == t.createdAt ==> best.updatedAt >= t.updatedAt)
      && (activeBest == active && best.createdAt == t.createdAt && best.updatedAt == t.updatedAt ==> best.id >= t.id)
  {
    assert Canonical(tasks, ids) == other || Above(tasks[Canonical(tasks, ids)], tasks[other]);
  }

  lemma {:induction false} WithoutOne(before: seq<Id>, id: Id, after: seq<Id>)
    requires id !in before && id !in after
    ensures Without(before + [id] + after, {id}) == before + after && Without(before + after, {id}) == before + after
  {
    WithoutAbsent(before, {id});
    WithoutAbsent(after, {id});
    WithoutConcat(before + [id], after, {id});
    WithoutConcat(before, [id], {id});
    WithoutConcat(before, after, {id});
    assert [id][1..] == [];
    assert Without([id], {id}) == [];
    assert before + [] == before;
  }

  /** Moving to the tail takes the id out of its place and puts it last; all others keep their order. */
  lemma TailMeans(before: seq<Id>, id: Id, after: seq<Id>)
    requires id !in before && id !in after
    ensures ToTail(before + [id] + after, id) == before + after + [id] == ToTail(before + after, id)
  {
    WithoutOne(before, id, after);
  }

  /** The claimed id is the first in the deque whose task is queued and ordinary. */
  lemma {:induction false} FirstQueuedMeans(fifo: seq<Id>, tasks: Tasks, i: nat)
    requires i < |fifo| && fifo[i] in tasks && tasks[fifo[i]].status == Queued && tasks[fifo[i]].maintenance == None
    requires forall j :: 0 <= j < i ==> !(fifo[j] in tasks && tasks[fifo[j]].status == Queued && tasks[fifo[j]].maintenance == None)
    ensures QueuedOf(fifo, tasks) != [] && QueuedOf(fifo, tasks)[0] == fifo[i]
  {
    if i > 0 {
      FirstQueuedMeans(fifo[1..], tasks, i - 1);
    }
  }

  // ------------------------------------------------------------------ leases

  /** The lease a caller sees at a time: none once it has run out. */
  function Unexpired(m: Mem, now: int): Option<Lease> {
    if m.lease.Some? && now < m.lease.value.expiresAt then m.lease else None
  }

  /** Everything but the lease is as before; the lease is, unless it had run out and was dropped. */
  predicate OnlyLooks(m: Mem, o: Mem, now: int) {
    o == m || (m.lease.Some? && now >= m.lease.value.expiresAt && o == Mem(m.tasks, m.fifo, m.aliases, None))
  }

  lemma LiveMeans(m: Mem, now: int)
    ensures Live(m, now).lease == Unexpired(m, now) && OnlyLooks(m, Live(m, now), now)
  {
  }

  /** A lease is granted for up to two hours, while there is no other and nobody works. */
  lemma AcquireMeans(m: Mem, owner: Owner, ttl: int, now: int)
    ensures
      var o := LeaseAcquired(m, owner, ttl, now);
      var granted := 0 < ttl <= 7200 && Unexpired(m, now).None?
        && forall id <- m.tasks :: m.tasks[id].status != Running && !(m.tasks[id].status == Partial && !m.tasks[id].completed);
      if granted then o == Outcome(Mem(m.tasks, m.fifo, m.aliases, Some(Lease(owner, Some(Digest(owner)), None, now + ttl))), Flag(true))
      else o.reply == Flag(false) && OnlyLooks(m, o.mem, now)
  {
    if AnyBusy(m.tasks) {
      var id :| id in m.tasks && Busy(m.tasks[id]);
    }
  }

  /** Only the owner of an unexpired lease renews it, for up to two hours from now. */
  lemma RenewMeans(m: Mem, owner: Owner, ttl: int, now: int)
    requires Sound(m)
    ensures
      var o := LeaseRenewed(m, owner, ttl, now);
      if 0 < ttl <= 7200 && m.lease.Some? && now < m.lease.value.expiresAt && m.lease.value.owner == owner then
        o == Outcome(Mem(m.tasks, m.fifo, m.aliases, Some(Lease(owner, Some(Digest(owner)), m.lease.value.bound, now + ttl))), Flag(true))
      else o.reply == Flag(false) && OnlyLooks(m, o.mem, now)
  {
  }

  /** The offered task: the acceptance symbol, data only, new. */
  predicate Offerable(task: Task) {
    task.symbol == 601872 && !task.includeLongCapture && task.status == Queued && !task.completed && task.maintenance == None
  }

  /** Room in the queue: fewer queued, running and waiting tasks than the cap. */
  predicate Room(tasks: Tasks, cap: nat) {
    |set id | id in tasks && tasks[id].status in {Queued, Running, WaitingAdmin}| < cap
  }

  lemma RoomMeans(tasks: Tasks, cap: nat)
    ensures Room(tasks, cap) <==> ActiveCount(tasks) < cap
  {
    assert ActiveIds(tasks) == set id | id in tasks && tasks[id].status in {Queued, Running, WaitingAdmin};
  }

  /** The owner's first binding queues the offered task under the owner's hash, if there is room. */
  lemma FirstBindMeans(m: Mem, owner: Owner, task: Task, cap: nat, now: int)
    requires Sound(m) && (m.lease.Some? ==> m.lease.value.bound.None?)
    ensures
      var o := AcceptanceBound(m, owner, task, cap, now);
      if Offerable(task) && m.lease.Some? && now < m.lease.value.expiresAt && m.lease.value.owner == owner && task.id !in m.tasks && Room(m.tasks, cap) then
        var bound := Task(task.id, 601872, false, Some(Digest(owner)), Queued, task.createdAt, task.updatedAt, false);
        o == Outcome(Mem(m.tasks[task.id := bound], m.fifo + [task.id], m.aliases,
                         Some(Lease(owner, Some(Digest(owner)), Some(task.id), m.lease.value.expiresAt))), Answer(bound))
      else o.reply.Nothing? && OnlyLooks(m, o.mem, now)
  {
    hide ActiveCount;
    RoomMeans(m.tasks, cap);
  }

  /** A later binding hands the bound task back, restarted at the tail once it is over, if there is room. */
  lemma LaterBindMeans(m: Mem, owner: Owner, task: Task, cap: nat, now: int)
    requires Sound(m) && m.lease.Some? && m.lease.value.bound.Some?
    ensures
      var o := AcceptanceBound(m, owner, task, cap, now);
      var id := m.lease.value.bound.value;
      if !(Offerable(task) && now < m.lease.value.expiresAt && m.lease.value.owner == owner) then o.reply.Nothing? && OnlyLooks(m, o.mem, now)
      else
        var bound := m.tasks[id];
        var over := bound.status in {Completed, MarketSnapshot, Failed, Expired} || (bound.status == Partial && bound.completed);
        if !over then o == Outcome(m, Answer(bound))
        else if !Room(m.tasks, cap) then o == Outcome(m, Nothing)
        else
          var again := Task(id, 601872, false, Some(Digest(owner)), Queued, now, now, false);
          o == Outcome(Mem(m.tasks[id := again], ToTail(m.fifo, id), m.aliases, m.lease), Answer(again))
  {
    hide ActiveCount, ToTail;
    RoomMeans(m.tasks, cap);
    var bound := m.tasks[m.lease.value.bound.value];
    assert m.tasks[m.lease.value.bound.value := bound.(maintenance := Some(Digest(m.lease.value.owner)))] == m.tasks;
  }

  /** The owner's release ends the lease and takes its task away; nobody else's does anything. */
  lemma ReleaseMeans(m: Mem, owner: Owner, now: int)
    requires Sound(m)
    ensures
      var o := LeaseReleased(m, owner, now);
      if m.lease.Some? && now < m.lease.value.expiresAt && m.lease.value.owner == owner then
        o.reply == Flag(true) && o.mem.lease.None? && o.mem.aliases == m.aliases
        && match m.lease.value.bound
           case None => o.mem.tasks == m.tasks && o.mem.fifo == m.fifo
           case Some(id) => o.mem.tasks == m.tasks - {id} && o.mem.fifo == Without(m.fifo, {id})
      else o.reply == Flag(false) && OnlyLooks(m, o.mem, now)
  {
    hide Without, Canonical;
  }

  /** A clean-up removes the acceptance tasks that no unexpired lease is bound to, and nothing else. */
  lemma CleanupMeans(m: Mem, now: int, id: Id)
    requires id in m.tasks
    ensures
      var o := CleanedUp(m, now);
      var needed := m.tasks[id].maintenance == None || (m.lease.Some? && now < m.lease.value.expiresAt && m.lease.value.bound == Some(id));
      && (id in o.tasks <==> needed)
      && (needed ==> o.tasks[id] == m.tasks[id])
      && o.tasks.Keys <= m.tasks.Keys
      && o.aliases == m.aliases
      && o.lease == Unexpired(m, now)
      && (id in o.fifo <==> needed && id in m.fifo)
  {
    hide Without;
    var l := Live(m, now);
    WithoutMeans(m.fifo, Leftovers(l));
    LiveMeans(m, now);
  }

  lemma WithoutMeans(list: seq<Id>, ids: set<Id>)
    ensures forall x :: x in Without(list, ids) <==> x in list && x !in ids
  {
  }

  // -------------------------------------------------------------- submissions

  /** A symbol without an ordinary task: the new task is stored at the tail, if there is room. */
  lemma NewSubmissionMeans(m: Mem, task: Task, cap: nat, now: int)
    requires Sound(m) && forall id <- m.tasks :: m.tasks[id].symbol == task.symbol ==> m.tasks[id].maintenance != None
    ensures
      var o := Submitted(m, task, cap, now);
      if task.maintenance != None then o == Outcome(m, Invalid)
      else if !Room(m.tasks, cap) then o == Outcome(o.mem, QueueFull) && OnlyLooks(m, o.mem, now)
      else o == Outcome(Mem(m.tasks[task.id := task], m.fifo + [task.id], m.aliases, Unexpired(m, now)), Answer(task))
  {
    hide ActiveCount, Canonical;
    RoomMeans(m.tasks, cap);
    assert Candidates(m.tasks, task.symbol, BoundId(Live(m, now).lease)) == {};
  }

  /** A symbol with ordinary tasks: the canonical one is answered while it is active, else queued anew at the tail. */
  lemma RepeatedSubmissionMeans(m: Mem, task: Task, cap: nat, now: int, some: Id)
    requires Sound(m) && task.maintenance == None
    requires some in m.tasks && m.tasks[some].symbol == task.symbol && m.tasks[some].maintenance == None
    ensures
      var o := Submitted(m, task, cap, now);
      var ids := set id | id in m.tasks && m.tasks[id].symbol == task.symbol && m.tasks[id].maintenance == None;
      ids != {}
      && var kept := Canonical(m.tasks, ids);
      if m.tasks[kept].status in {Queued, Running, WaitingAdmin} then o.reply == Answer(m.tasks[kept]) && OnlyLooks(m, o.mem, now)
      else if !Room(m.tasks, cap) then o.reply == QueueFull && OnlyLooks(m, o.mem, now)
      else
        var again := Task(kept, task.symbol, task.includeLongCapture, None, Queued, now, now, false);
        o == Outcome(Mem(m.tasks[kept := again], ToTail(m.fifo, kept), m.aliases, Unexpired(m, now)), Answer(again))
  {
    hide ActiveCount, ToTail;
    RoomMeans(m.tasks, cap);
    var ids := set id | id in m.tasks && m.tasks[id].symbol == task.symbol && m.tasks[id].maintenance == None;
    assert some in ids;
    assert Candidates(m.tasks, task.symbol, BoundId(Live(m, now).lease)) == ids;
    var kept := Canonical(m.tasks, ids);
    assert m.tasks[kept].id == kept && m.tasks[kept].symbol == task.symbol && m.tasks[kept].maintenance == None;
  }

  lemma EnqueueMeans(m: Mem, task: Task, cap: nat)
    ensures
      Enqueued(m, task, false, cap)
      == if task.maintenance != None then Outcome(m, Invalid)
         else if !Room(m.tasks, cap) then Outcome(m, QueueFull)
         else Outcome(Mem(m.tasks[task.id := task], m.fifo + [task.id], m.aliases, m.lease), Answer(task))
  {
    hide ActiveCount;
    RoomMeans(m.tasks, cap);
  }

  // ------------------------------------------------------ claims and recovery

  /** Without a lease the first queued ordinary task of the deque runs, and keeps its place there. */
  lemma OrdinaryClaimMeans(m: Mem, now: int, i: nat)
    requires Unexpired(m, now).None? && WellKeyed(m.tasks)
    requires i < |m.fifo| && m.fifo[i] in m.tasks && m.tasks[m.fifo[i]].status == Queued && m.tasks[m.fifo[i]].maintenance == None
    requires forall j :: 0 <= j < i ==> !(m.fifo[j] in m.tasks && m.tasks[m.fifo[j]].status == Queued && m.tasks[m.fifo[j]].maintenance == None)
    ensures
      var o := ClaimedNext(m, now);
      AnswersMoved(Mem(m.tasks, m.fifo, m.aliases, None), o, m.fifo[i], Running, now, m.tasks[m.fifo[i]].completed)
  {
    FirstQueuedMeans(m.fifo, m.tasks, i);
  }

  lemma NoClaimMeans(m: Mem, now: int)
    requires Unexpired(m, now).None?
    requires forall id <- m.fifo :: !(id in m.tasks && m.tasks[id].status == Queued && m.tasks[id].maintenance == None)
    ensures ClaimedNext(m, now).reply.Nothing? && OnlyLooks(m, ClaimedNext(m, now).mem, now)
  {
    NothingQueuedMeans(m.fifo, m.tasks);
  }

  lemma {:induction false} NothingQueuedMeans(fifo: seq<Id>, tasks: Tasks)
    requires forall id <- fifo :: !(id in tasks && tasks[id].status == Queued && tasks[id].maintenance == None)
    ensures QueuedOf(fifo, tasks) == []
  {
    if fifo != [] {
      assert fifo[0] in fifo;
      NothingQueuedMeans(fifo[1..], tasks);
    }
  }

  /** Under a lease its queued task runs and leaves the deque. */
  lemma LeasedClaimMeans(m: Mem, now: int)
    requires Sound(m) && m.lease.Some? && now < m.lease.value.expiresAt
    ensures
      var o, bound := ClaimedNext(m, now), m.lease.value.bound;
      if bound.Some? && m.tasks[bound.value].status == Queued then
        AnswersMoved(Mem(m.tasks, Without(m.fifo, {bound.value}), m.aliases, m.lease), o, bound.value, Running, now, m.tasks[bound.value].completed)
      else o == Outcome(m, Nothing)
  {
    hide Without, QueuedOf;
  }

  /** Running tasks are queued again, no longer completed; all others stay as they are. */
  lemma RecoverMeans(tasks: Tasks, now: int, id: Id)
    requires id in tasks
    ensures
      var after := RecoveredTasks(tasks, now);
      after.Keys == tasks.Keys
      && if tasks[id].status == Running then Moves(tasks[id], after[id], Queued, now, false) else after[id] == tasks[id]
  {
  }

  // --------------------------------------------------- administrator's changes

  /** Only an ordinary task that waits is requeued: queued, at the tail, with its times and completion kept. */
  lemma RequeueMeans(m: Mem, id: Id, now: int)
    requires Sound(m)
    ensures
      var o := RequeuedTask(m, id, now);
      if id !in m.tasks then o == Outcome(m, Missing)
      else if m.tasks[id].maintenance != None || m.tasks[id].status != WaitingAdmin then o.reply.Invalid? && OnlyLooks(m, o.mem, now)
      else AnswersMoved(Mem(m.tasks, ToTail(m.fifo, id), m.aliases, Unexpired(m, now)), o, id, Queued, now, m.tasks[id].completed)
  {
    hide ToTail, AliasesSound, MaintenanceSound;
  }

  /** A failed ordinary task is queued at the tail, no longer completed; a queued one is answered as it is. */
  lemma RetryMeans(m: Mem, id: Id, now: int)
    requires Sound(m)
    ensures
      var o := RetriedTask(m, id, now);
      if id !in m.tasks then o == Outcome(m, Missing)
      else if m.tasks[id].maintenance != None || m.tasks[id].status !in {Queued, Failed} then o.reply.Invalid? && OnlyLooks(m, o.mem, now)
      else if m.tasks[id].status == Queued then o.reply == Answer(m.tasks[id]) && OnlyLooks(m, o.mem, now)
      else AnswersMoved(Mem(m.tasks, ToTail(m.fifo, id), m.aliases, Unexpired(m, now)), o, id, Queued, now, false)
  {
    hide ToTail, AliasesSound, MaintenanceSound;
  }

  /** An ordinary task that is over is queued at the tail as if new, if there is room; an active one is answered. */
  lemma RefreshMeans(m: Mem, name: Id, longCapture: Option<bool>, cap: nat, now: int)
    requires Sound(m)
    ensures
      var o := RefreshedTask(m, name, longCapture, cap, now);
      var id := if name in m.aliases then m.aliases[name] else name;
      if id !in m.tasks then o == Outcome(m, Missing)
      else if m.tasks[id].maintenance != None then o.reply.Invalid? && OnlyLooks(m, o.mem, now)
      else if m.tasks[id].status in {Queued, Running, WaitingAdmin} then o.reply == Answer(m.tasks[id]) && OnlyLooks(m, o.mem, now)
      else if !Room(m.tasks, cap) then o.reply == QueueFull && OnlyLooks(m, o.mem, now)
      else
        var again := Task(id, m.tasks[id].symbol, if longCapture.Some? then longCapture.value else m.tasks[id].includeLongCapture, None, Queued, now, now, false);
        o == Outcome(Mem(m.tasks[id := again], ToTail(m.fifo, id), m.aliases, Unexpired(m, now)), Answer(again))
  {
    hide ToTail, ActiveCount, MaintenanceSound;
    RoomMeans(m.tasks, cap);
  }

  // ------------------------------------------------------------ deduplication

  /** Of each symbol's ordinary tasks the canonical one stays as it is; the others go, and their ids lead to it. */
  lemma MergeMeans(m: Mem, now: int, id: Id)
    requires Sound(m) && id in m.tasks && m.tasks[id].maintenance == None
    ensures
      var o := Deduplicated(m, now);
      var ids := set x | x in m.tasks && m.tasks[x].symbol == m.tasks[id].symbol && m.tasks[x].maintenance == None;
      ids != {}
      && var kept := Canonical(m.tasks, ids);
      && kept in o.tasks && o.tasks[kept] == m.tasks[kept]
      && (id != kept ==> id !in o.tasks && id !in o.fifo && id in o.aliases && o.aliases[id] == kept)
      && o.lease == Unexpired(m, now)
  {
    hide MaintenanceSound, AliasesSound, Merged, Without, Duplicates;
    var l := Live(m, now);
    var ids := set x | x in m.tasks && m.tasks[x].symbol == m.tasks[id].symbol && m.tasks[x].maintenance == None;
    assert id in ids;
    LivePrunes(m, now);
    assert Candidates(m.tasks, m.tasks[id].symbol, BoundId(l.lease)) == ids by { BoundIsReserved(l); }
    KeeperStays(l, id);
    MergedMeans(l, id, Canonical(m.tasks, ids));
  }

  lemma BoundIsReserved(l: Mem)
    requires Sound(l)
    ensures var bound := BoundId(l.lease); bound.Some? ==> bound.value in l.tasks && l.tasks[bound.value].maintenance.Some?
  {
  }

  lemma MergedMeans(l: Mem, id: Id, kept: Id)
    requires Sound(l) && id in l.tasks && l.tasks[id].maintenance == None && Keeper(l, l.tasks[id].symbol) == Some(kept)
    requires kept in l.tasks && kept !in Duplicates(l)
    ensures
      var o := Merged(l, Duplicates(l));
      && kept in o.tasks && o.tasks[kept] == l.tasks[kept] && o.lease == l.lease
      && (id != kept ==> id !in o.tasks && id !in o.fifo && id in o.aliases && o.aliases[id] == kept)
  {
    hide MaintenanceSound, AliasesSound, Without, Keeper;
    WithoutMeans(l.fifo, Duplicates(l));
    assert id != kept ==> id in Duplicates(l);
  }

  /** Acceptance tasks are left alone. */
  lemma MergeSparesMaintenance(m: Mem, now: int, id: Id)
    requires Sound(m) && id in m.tasks && m.tasks[id].maintenance != None
    ensures var o := Deduplicated(m, now); id in o.tasks && o.tasks[id] == m.tasks[id]
  {
  }
}
