/** `InMemoryStreams`: the queue kept in a dict, a deque and an alias dict, updated in place. */
module InMemoryStreams {
  import opened Wrappers
  import opened TaskRecords
  import opened InMemoryQueue
  import opened QueueInvariants

  class InMemoryStreams {
    const cap: nat
    var tasks: Tasks
    var fifo: seq<Id>
    var aliases: map<Id, Id>
    var lease: Option<Lease>

    function Abs(): Mem
      reads this
    {
      Mem(tasks, fifo, aliases, lease)
    }

    ghost predicate Valid()
      reads this
    {
      Sound(Abs())
    }

    constructor (cap: nat)
      ensures Valid() && Abs() == EMPTY && this.cap == cap
    {
      this.cap := cap;
      tasks, fifo, aliases, lease := map[], [], map[], None;
    }

    method ActiveLease(now: int) returns (r: Option<Lease>)
      requires Valid()
      modifies this
      ensures Abs() == Live(old(Abs()), now) && r == lease && Valid()
    {
      if lease.Some? && now >= lease.value.expiresAt {
        lease := None;
      }
      r := lease;
    }

    method EnqueueLocked(task: Task, maintenance: bool) returns (reply: Reply)
      modifies this
      ensures Outcome(Abs(), reply) == Enqueued(old(Abs()), task, maintenance, cap)
    {
      if task.maintenance.Some? != maintenance {
        return Invalid;
      }
      if ActiveCount(tasks) >= cap {
        return QueueFull;
      }
      tasks := tasks[task.id := task];
      fifo := fifo + [task.id];
      reply := Answer(task);
    }

    method RefreshLocked(id: Id, longCapture: Option<bool>, now: int) returns (reply: Reply)
      requires id in tasks
      modifies this
      ensures Outcome(Abs(), reply) == RefreshedLocked(old(Abs()), id, longCapture, cap, now)
    {
      if Active(tasks[id].status) {
        return Answer(tasks[id]);
      }
      if ActiveCount(tasks) >= cap {
        return QueueFull;
      }
      tasks := tasks[id := Reset(tasks[id], longCapture, now)];
      fifo := ToTail(fifo, id);
      reply := Answer(tasks[id]);
    }

    method SubmitOrRefresh(task: Task, now: int) returns (reply: Reply)
      requires Valid() && FreshOp(Abs(), Submit(task))
      modifies this
      ensures Valid() && Outcome(Abs(), reply) == Submitted(old(Abs()), task, cap, now)
    {
      hide AliasesSound, MaintenanceSound, LeaseSound, ActiveCount, Without;
      StepKeepsSound(Abs(), Submit(task), cap, now);
      if task.maintenance.Some? {
        return Invalid;
      }
      var live := ActiveLease(now);
      var found := Candidates(tasks, task.symbol, BoundId(live));
      if found == {} {
        reply := EnqueueLocked(task, false);
      } else {
        reply := RefreshLocked(Canonical(tasks, found), Some(task.includeLongCapture), now);
      }
    }

    /** The deque keeps ids of tasks that are no longer queued; the scan skips them. */
    method NextRunnable(now: int) returns (reply: Reply)
      requires Valid()
      modifies this
      ensures Valid() && Outcome(Abs(), reply) == ClaimedNext(old(Abs()), now)
    {
      hide AliasesSound, MaintenanceSound, LeaseSound;
      StepKeepsSound(Abs(), Op.Claim, cap, now);
      var live := ActiveLease(now);
      ghost var l := Abs();
      if live.Some? {
        var bound := live.value.bound;
        if bound.None? || live.value.digest.None? || bound.value !in tasks {
          return Nothing;
        }
        var task := tasks[bound.value];
        if !task.status.Queued? || !ValidBound(task, bound.value, live.value.digest.value) {
          return Nothing;
        }
        fifo := Without(fifo, {bound.value});
        tasks := tasks[bound.value := Claimed(task, now)];
        return Answer(tasks[bound.value]);
      }
      for i := 0 to |fifo|
        invariant Abs() == l && lease.None?
        invariant QueuedOf(fifo, tasks) == QueuedOf(fifo[i..], tasks)
      {
        var id := fifo[i];
        assert fifo[i..][1..] == fifo[i + 1..];
        if id in tasks && tasks[id].status.Queued? && Ordinary(tasks[id]) {
          assert QueuedOf(fifo[i..], tasks)[0] == id;
          tasks := tasks[id := Claimed(tasks[id], now)];
          return Answer(tasks[id]);
        }
      }
      reply := Nothing;
    }

    /** Follows aliases; in a valid state one hop is enough. */
    method ResolveTaskId(name: Id) returns (r: Id)
      requires Valid()
      ensures r == Resolved(aliases, name)
      ensures r !in aliases
    {
      r := name;
      var visited: set<Id> := {};
      while r in aliases && r !in visited
        invariant (visited == {} && r == name) || (r == Resolved(aliases, name) && r !in aliases)
        decreases r in aliases
      {
        visited := visited + {r};
        r := aliases[r];
      }
    }

    /** Running tasks go back to the queue; their ids never left the deque. */
    method RecoverRunning(now: int)
      requires Valid()
      modifies this
      ensures Valid() && Abs() == old(Abs()).(tasks := RecoveredTasks(old(tasks), now))
    {
      hide AliasesSound, MaintenanceSound, LeaseSound, WellKeyed, RecoveredTasks, RecoveredPart;
      WholeStoreStepsKeepSound(Abs(), now);
      ghost var before := tasks;
      var running := set id | id in tasks && tasks[id].status.Running?;
      ghost var all := running;
      RecoveredBounds(before, now);
      while running != {}
        invariant running <= all && tasks == RecoveredPart(before, running, now)
        invariant fifo == old(fifo) && aliases == old(aliases) && lease == old(lease)
        decreases |running|
      {
        var id :| id in running;
        RecoverOne(before, running, id, now);
        running := running - {id};
        tasks := tasks[id := Recovered(tasks[id], now)];
      }
    }

    // ------------------------------------------------ administrator's changes

    /** _is_maintenance_task_locked */
    method IsReserved(id: Id, now: int) returns (r: bool)
      requires Valid() && id in tasks
      modifies this
      ensures Valid() && tasks == old(tasks) && Abs() == LiveFor(old(Abs()), tasks[id], now)
      ensures r == Reserved(Abs(), tasks[id])
    {
      if tasks[id].maintenance.Some? {
        return true;
      }
      var live := ActiveLease(now);
      r := BoundId(live) == Some(id);
    }

    method RequeueWaiting(id: Id, now: int) returns (reply: Reply)
      requires Valid()
      modifies this
      ensures Valid() && Outcome(Abs(), reply) == RequeuedTask(old(Abs()), id, now)
    {
      hide AliasesSound, MaintenanceSound, LeaseSound, Without;
      StepKeepsSound(Abs(), Requeue(id), cap, now);
      if id !in tasks {
        return Missing;
      }
      var reserved := IsReserved(id, now);
      if reserved || !tasks[id].status.WaitingAdmin? {
        return Invalid;
      }
      fifo := ToTail(fifo, id);
      tasks := tasks[id := Requeued(tasks[id], now)];
      reply := Answer(tasks[id]);
    }

    method RetryFailed(id: Id, now: int) returns (reply: Reply)
      requires Valid()
      modifies this
      ensures Valid() && Outcome(Abs(), reply) == RetriedTask(old(Abs()), id, now)
    {
      hide AliasesSound, MaintenanceSound, LeaseSound, Without;
      StepKeepsSound(Abs(), Retry(id), cap, now);
      if id !in tasks {
        return Missing;
      }
      var reserved := IsReserved(id, now);
      if reserved {
        return Invalid;
      }
      if tasks[id].status.Queued? {
        return Answer(tasks[id]);
      }
      if !tasks[id].status.Failed? {
        return Invalid;
      }
      fifo := ToTail(fifo, id);
      tasks := tasks[id := Recovered(tasks[id], now)];
      reply := Answer(tasks[id]);
    }

    method RefreshTask(name: Id, longCapture: Option<bool>, now: int) returns (reply: Reply)
      requires Valid()
      modifies this
      ensures Valid() && Outcome(Abs(), reply) == RefreshedTask(old(Abs()), name, longCapture, cap, now)
    {
      hide AliasesSound, MaintenanceSound, LeaseSound, Without, ActiveCount;
      StepKeepsSound(Abs(), Refresh(name, longCapture), cap, now);
      var id := ResolveTaskId(name);
      if id !in tasks {
        return Missing;
      }
      var reserved := IsReserved(id, now);
      if reserved {
        return Invalid;
      }
      reply := RefreshLocked(id, longCapture, now);
    }

    // ------------------------------------------------------- runner's reports

    method Transition(id: Id, next: Status, now: int) returns (reply: Reply)
      requires Valid()
      modifies this
      ensures Valid() && Outcome(Abs(), reply) == Reported(old(Abs()), id, Progress.Transition(next), now)
      ensures reply.Answer? <==> id in old(tasks) && (old(tasks)[id].status, next) in TRANSITIONS
      ensures reply.Answer? ==>
                tasks[id] == reply.task && reply.task.status == next && reply.task.updatedAt == now
                && (reply.task.completed <==> old(tasks)[id].completed || next in {Completed, MarketSnapshot, Failed})
    {
      hide AliasesSound, MaintenanceSound, LeaseSound;
      StepKeepsSound(Abs(), Report(id, Progress.Transition(next)), cap, now);
      if id !in tasks {
        return Missing;
      }
      var task := tasks[id];
      TransitionTable(task.status, next);
      if !Allowed(task.status, next) {
        return Invalid;
      }
      task := task.(status := next, updatedAt := now);
      if next.Completed? || next.MarketSnapshot? || next.Failed? {
        task := task.(completed := true);
      }
      tasks := tasks[id := task];
      reply := Answer(task);
    }

    /** `all` says that every kind of capture is ready now. */
    method CompleteCapture(id: Id, all: bool, now: int) returns (reply: Reply)
      requires Valid()
      modifies this
      ensures Valid() && Outcome(Abs(), reply) == Reported(old(Abs()), id, CaptureReady(all), now)
      ensures reply.Answer? <==> id in old(tasks) && old(tasks)[id].status in {Running, Partial}
      ensures reply.Answer? ==>
                tasks[id] == reply.task && reply.task.status == (if all then Completed else Partial) && reply.task.updatedAt == now
                && (reply.task.completed <==> old(tasks)[id].completed || all)
    {
      hide AliasesSound, MaintenanceSound, LeaseSound;
      StepKeepsSound(Abs(), Report(id, CaptureReady(all)), cap, now);
      if id !in tasks {
        return Missing;
      }
      var task := tasks[id];
      if !task.status.Running? && !task.status.Partial? {
        return Invalid;
      }
      task := task.(updatedAt := now, status := if all then Completed else Partial);
      if task.status.Completed? {
        task := task.(completed := true);
      }
      tasks := tasks[id := task];
      reply := Answer(task);
    }

    /** `complete`: every required value is there and the fund source gave no error that counts. */
    method CompleteResult(id: Id, longCapture: bool, complete: bool, now: int) returns (reply: Reply)
      requires Valid()
      modifies this
      ensures Valid() && Outcome(Abs(), reply) == Reported(old(Abs()), id, ResultReady(longCapture, complete), now)
      ensures reply.Answer? <==>
                id in old(tasks) && old(tasks)[id].status in {Running, Partial} && old(tasks)[id].includeLongCapture == longCapture
      ensures reply.Answer? ==>
                tasks[id] == reply.task && reply.task.completed && reply.task.updatedAt == now
                && (reply.task.status == Completed <==> complete) && (reply.task.status == Partial <==> !complete)
    {
      hide AliasesSound, MaintenanceSound, LeaseSound;
      StepKeepsSound(Abs(), Report(id, ResultReady(longCapture, complete)), cap, now);
      if id !in tasks {
        return Missing;
      }
      var task := tasks[id];
      if !task.status.Running? && !task.status.Partial? {
        return Invalid;
      }
      if task.includeLongCapture {
        if !longCapture {
          return Invalid;
        }
      } else if longCapture {
        return Invalid;
      }
      task := task.(updatedAt := now, status := if complete then Completed else Partial, completed := true);
      tasks := tasks[id := task];
      reply := Answer(task);
    }

    method CompleteMarketSnapshot(id: Id, now: int) returns (reply: Reply)
      requires Valid()
      modifies this
      ensures Valid() && Outcome(Abs(), reply) == Reported(old(Abs()), id, SnapshotReady, now)
      ensures reply.Answer? <==> id in old(tasks) && old(tasks)[id].status == Running
      ensures reply.Answer? ==> tasks[id] == reply.task && reply.task.status == MarketSnapshot && reply.task.completed && reply.task.updatedAt == now
    {
      hide AliasesSound, MaintenanceSound, LeaseSound;
      StepKeepsSound(Abs(), Report(id, SnapshotReady), cap, now);
      if id !in tasks {
        return Missing;
      }
      if !tasks[id].status.Running? {
        return Invalid;
      }
      tasks := tasks[id := tasks[id].(status := MarketSnapshot, updatedAt := now, completed := true)];
      reply := Answer(tasks[id]);
    }

    // ------------------------------------------------------ deployment leases

    method HasRunningTask() returns (r: bool)
      ensures r <==> exists id :: id in tasks && Busy(tasks[id])
    {
      r := AnyBusy(tasks);
    }

    method AcquireLease(owner: Owner, ttl: int, now: int) returns (reply: Reply)
      requires Valid()
      modifies this
      ensures Valid() && Outcome(Abs(), reply) == LeaseAcquired(old(Abs()), owner, ttl, now)
    {
      hide AliasesSound, MaintenanceSound, LeaseSound;
      StepKeepsSound(Abs(), Acquire(owner, ttl), cap, now);
      if !ValidTtl(ttl) {
        return Flag(false);
      }
      var live := ActiveLease(now);
      if live.Some? {
        return Flag(false);
      }
      var busy := HasRunningTask();
      if busy {
        return Flag(false);
      }
      lease := Some(Lease(owner, Some(Digest(owner)), None, now + ttl));
      reply := Flag(true);
    }

    method RenewLease(owner: Owner, ttl: int, now: int) returns (reply: Reply)
      requires Valid()
      modifies this
      ensures Valid() && Outcome(Abs(), reply) == LeaseRenewed(old(Abs()), owner, ttl, now)
    {
      hide AliasesSound, MaintenanceSound, LeaseSound;
      StepKeepsSound(Abs(), Renew(owner, ttl), cap, now);
      if !ValidTtl(ttl) {
        return Flag(false);
      }
      var live := ActiveLease(now);
      if live.None? || live.value.owner != owner {
        return Flag(false);
      }
      if live.value.digest.Some? && live.value.digest.value != Digest(owner) {
        return Flag(false);
      }
      lease := Some(lease.value.(digest := Some(Digest(owner))));
      lease := Some(lease.value.(expiresAt := now + ttl));
      reply := Flag(true);
    }

    method BindAcceptance(owner: Owner, task: Task, now: int) returns (reply: Reply)
      requires Valid() && FreshOp(Abs(), Bind(owner, task))
      modifies this
      ensures Valid() && Outcome(Abs(), reply) == AcceptanceBound(old(Abs()), owner, task, cap, now)
    {
      hide AliasesSound, MaintenanceSound, LeaseSound, Without, ActiveCount;
      StepKeepsSound(Abs(), Bind(owner, task), cap, now);
      if !ValidAcceptance(task) {
        return Nothing;
      }
      var live := ActiveLease(now);
      if live.None? || live.value.owner != owner {
        return Nothing;
      }
      var digest := Digest(owner);
      if live.value.digest.Some? && live.value.digest.value != digest {
        return Nothing;
      }
      lease := Some(live.value.(digest := Some(digest)));
      if live.value.bound.Some? {
        var bound := live.value.bound.value;
        if bound !in tasks {
          return Nothing;
        }
        if tasks[bound].maintenance.Some? {
          if !ValidBound(tasks[bound], bound, digest) {
            return Nothing;
          }
          assert tasks == tasks[bound := tasks[bound].(maintenance := Some(digest))];
        } else if ValidLegacyBound(tasks[bound], bound) {
          tasks := tasks[bound := tasks[bound].(maintenance := Some(digest))];
        } else {
          return Nothing;
        }
        if !Retryable(tasks[bound]) {
          return Answer(tasks[bound]);
        }
        reply := RefreshLocked(bound, Some(false), now);
        return if reply.QueueFull? then Nothing else reply;
      }
      if task.id in tasks {
        return Nothing;
      }
      var candidate := task.(maintenance := Some(digest));
      reply := EnqueueLocked(candidate, true);
      if reply.QueueFull? {
        return Nothing;
      }
      lease := Some(lease.value.(bound := Some(candidate.id)));
      reply := Answer(candidate);
    }

    method ReleaseLease(owner: Owner, now: int) returns (reply: Reply)
      requires Valid()
      modifies this
      ensures Valid() && Outcome(Abs(), reply) == LeaseReleased(old(Abs()), owner, now)
    {
      hide AliasesSound, MaintenanceSound, LeaseSound, Without, Canonical;
      StepKeepsSound(Abs(), Release(owner), cap, now);
      var live := ActiveLease(now);
      if live.None? || live.value.owner != owner {
        return Flag(false);
      }
      var digest := Digest(owner);
      if live.value.digest.Some? && live.value.digest.value != digest {
        return Flag(false);
      }
      if live.value.bound.Some? {
        var bound := live.value.bound.value;
        if bound !in tasks {
          return Flag(false);
        }
        if tasks[bound].maintenance.Some? {
          if !ValidBound(tasks[bound], bound, digest) {
            return Flag(false);
          }
        } else if !ValidLegacyBound(tasks[bound], bound) {
          return Flag(false);
        }
        var removed := RemoveMaintenanceTask(bound, Some(digest), true);
        if !removed {
          return Flag(false);
        }
      }
      lease := None;
      reply := Flag(true);
    }

    /** What pointed at the task points at the canonical task of its symbol afterwards, or nowhere. */
    method RemoveMaintenanceTask(id: Id, digest: Option<Digest>, allowLegacy: bool) returns (removed: bool)
      requires WellKeyed(tasks)
      modifies this
      ensures removed == (id in old(tasks) && Removable(old(tasks)[id], digest, allowLegacy))
      ensures Abs() == if removed then Removed(old(Abs()), id) else old(Abs())
    {
      hide Without, Canonical;
      if id !in tasks || !Removable(tasks[id], digest, allowLegacy) {
        return false;
      }
      ghost var before := aliases;
      var others := Candidates(tasks, tasks[id].symbol, Some(id));
      var todo := aliases.Keys;
      while todo != {}
        invariant todo <= before.Keys && aliases.Keys <= before.Keys
        invariant tasks == old(tasks) && fifo == old(fifo) && lease == old(lease)
        invariant forall a <- before :: a in aliases <==> (a in todo || (a != id && (before[a] != id || others != {})))
        invariant forall a <- aliases :: aliases[a] == if a in todo || before[a] != id then before[a] else Canonical(tasks, others)
        decreases |todo|
      {
        var alias :| alias in todo;
        todo := todo - {alias};
        if alias == id {
          aliases := aliases - {alias};
        } else if aliases[alias] == id {
          if others == {} {
            aliases := aliases - {alias};
          } else {
            aliases := aliases[alias := Canonical(tasks, others)];
          }
        }
      }
      assert aliases == Removed(old(Abs()), id).aliases;
      tasks := tasks - {id};
      fifo := Without(fifo, {id});
      removed := true;
    }

    method Cleanup(now: int)
      requires Valid()
      modifies this
      ensures Valid() && Abs() == CleanedUp(old(Abs()), now)
    {
      hide Sound, WellKeyed, Removed, Removable, Leftovers, LeftoversTodo;
      WholeStoreStepsKeepSound(Abs(), now);
      var live := ActiveLease(now);
      ghost var l := Abs();
      var todo := Leftovers(Abs());
      AllLeftoversTodo(l);
      while todo != {}
        invariant todo <= Leftovers(l) && Abs() == LeftoversTodo(l, todo)
        decreases |todo|
      {
        var id :| id in todo;
        NextLeftover(l, todo, id);
        todo := todo - {id};
        var removed := RemoveMaintenanceTask(id, None, false);
      }
      NoLeftoversTodo(l);
    }

    /** Keeps the canonical task of every symbol; the ids of the others become aliases of it. */
    method DeduplicateBySymbol(now: int) returns (total: nat, kept: nat, deleted: nat)
      requires Valid()
      modifies this
      ensures Valid() && Abs() == Deduplicated(old(Abs()), now)
      ensures var l := Live(old(Abs()), now); kept == |Groups(l)| && deleted == |Duplicates(l)| && total == kept + deleted
    {
      hide AliasesSound, MaintenanceSound, LeaseSound, Without, Canonical, Merged, Duplicates, DuplicatesOf, Groups, Candidates, MergedInto;
      WholeStoreStepsKeepSound(Abs(), now);
      var live := ActiveLease(now);
      ghost var l := Abs();
      var bound := BoundId(live);
      var groups := Groups(Abs());
      kept := |groups|;
      total, deleted := 0, 0;
      NoGroupsMerged(l);
      while groups != {}
        invariant groups <= Groups(l) && Abs() == Merged(l, DuplicatesOf(l, Groups(l) - groups))
        invariant deleted == |DuplicatesOf(l, Groups(l) - groups)| && total + |groups| == kept + deleted
        decreases |groups|
      {
        var symbol :| symbol in groups;
        NextGroup(l, Groups(l) - groups, symbol);
        assert Groups(l) - (groups - {symbol}) == Groups(l) - groups + {symbol};
        groups := groups - {symbol};
        var members := Candidates(tasks, symbol, bound);
        var keeper := Canonical(tasks, members);
        SetWithout(members, keeper);
        total := total + |members|;
        var merged := MergeGroup(members - {keeper}, keeper);
        deleted := deleted + merged;
      }
      AllGroupsMerged(l);
    }

    method MergeGroup(dups: set<Id>, keeper: Id) returns (deleted: nat)
      requires dups <= tasks.Keys
      modifies this
      ensures Abs() == MergedInto(old(Abs()), dups, keeper) && deleted == |dups|
    {
      hide Without, Retargeted, Popped, MergedInto;
      PoppedAfterRetargeted(Abs(), dups, keeper);
      RetargetAliases(dups, keeper);
      deleted := PopDuplicates(dups, keeper);
      fifo := Without(fifo, dups);
    }

    method RetargetAliases(dups: set<Id>, keeper: Id)
      modifies this
      ensures Abs() == Retargeted(old(Abs()), dups, keeper)
    {
      ghost var before := aliases;
      var todo := aliases.Keys;
      while todo != {}
        invariant todo <= before.Keys == aliases.Keys && tasks == old(tasks) && fifo == old(fifo) && lease == old(lease)
        invariant forall a <- before :: aliases[a] == if a !in todo && before[a] in dups then keeper else before[a]
        decreases |todo|
      {
        var alias :| alias in todo;
        todo := todo - {alias};
        if aliases[alias] in dups {
          aliases := aliases[alias := keeper];
        }
      }
      assert aliases == Retargeted(old(Abs()), dups, keeper).aliases;
    }

    method PopDuplicates(dups: set<Id>, keeper: Id) returns (deleted: nat)
      requires dups <= tasks.Keys
      modifies this
      ensures Abs() == Popped(old(Abs()), dups, keeper) && deleted == |dups|
    {
      hide Popped;
      ghost var before := Abs();
      var rest := dups;
      deleted := 0;
      PoppedNothing(before, keeper);
      assert dups - dups == {} && dups - {} == dups;
      while rest != {}
        invariant rest <= dups && Abs() == Popped(before, dups - rest, keeper) && deleted + |rest| == |dups|
        decreases |rest|
      {
        var id :| id in rest;
        PopOne(before, dups - rest, id, keeper);
        assert dups - (rest - {id}) == dups - rest + {id};
        rest := rest - {id};
        tasks := tasks - {id};
        aliases := aliases[id := keeper];
        deleted := deleted + 1;
      }
    }
  }

  lemma WholeStoreStepsKeepSound(m: Mem, now: int)
    requires Sound(m)
    ensures Sound(m.(tasks := RecoveredTasks(m.tasks, now))) && Sound(CleanedUp(m, now)) && Sound(Deduplicated(m, now))
  {
    hide AliasesSound, MaintenanceSound, LeaseSound, RecoveredTasks, CleanedUp, Deduplicated;
    StepKeepsSound(m, Op.Recover, 0, now);
    StepKeepsSound(m, Op.Cleanup, 0, now);
    StepKeepsSound(m, Op.Deduplicate, 0, now);
  }

  // ----------------------------------------------------------------- recovery

  /** The tasks while those in `todo` are still to be recovered. */
  function RecoveredPart(tasks: Tasks, todo: set<Id>, now: int): Tasks {
    map id | id in tasks :: if tasks[id].status.Running? && id !in todo then Recovered(tasks[id], now) else tasks[id]
  }

  lemma RecoveredBounds(tasks: Tasks, now: int)
    ensures RecoveredPart(tasks, (set id | id in tasks && tasks[id].status.Running?), now) == tasks
    ensures RecoveredPart(tasks, {}, now) == RecoveredTasks(tasks, now)
  {
  }

  lemma RecoverOne(tasks: Tasks, todo: set<Id>, id: Id, now: int)
    requires id in todo && id in tasks && tasks[id].status.Running?
    ensures
      var part := RecoveredPart(tasks, todo, now);
      id in part && RecoveredPart(tasks, todo - {id}, now) == part[id := Recovered(part[id], now)]
  {
  }

  // ------------------------------------------------------------------ cleanup

  /** The state in which the leftovers in `todo` are still there. */
  ghost function LeftoversTodo(l: Mem, todo: set<Id>): Mem {
    l.(tasks := l.tasks - (Leftovers(l) - todo), fifo := Without(l.fifo, Leftovers(l) - todo))
  }

  lemma AllLeftoversTodo(l: Mem)
    ensures LeftoversTodo(l, Leftovers(l)) == l
  {
    assert Leftovers(l) - Leftovers(l) == {};
    WithoutAbsent(l.fifo, {});
    assert l.tasks - {} == l.tasks;
  }

  lemma NoLeftoversTodo(l: Mem)
    ensures LeftoversTodo(l, {}) == l.(tasks := l.tasks - Leftovers(l), fifo := Without(l.fifo, Leftovers(l)))
  {
    assert Leftovers(l) - {} == Leftovers(l);
  }

  /** Every unbound maintenance task can be removed, and no alias points at it. */
  lemma NextLeftover(l: Mem, todo: set<Id>, id: Id)
    requires Sound(l) && id in todo && todo <= Leftovers(l)
    ensures
      var m := LeftoversTodo(l, todo);
      WellKeyed(m.tasks) && id in m.tasks && Removable(m.tasks[id], None, false)
      && Removed(m, id) == LeftoversTodo(l, todo - {id})
  {
    hide Without;
    var m, done := LeftoversTodo(l, todo), Leftovers(l) - todo;
    assert Leftovers(l) - (todo - {id}) == done + {id};
    WithoutTwice(l.fifo, done, {id});
    assert m.tasks - {id} == l.tasks - (done + {id});
    assert Removed(m, id).aliases == l.aliases;
  }

  // ------------------------------------------------------------ deduplication

  ghost function DuplicatesOf(l: Mem, symbols: set<Symbol>): set<Id>
    requires WellKeyed(l.tasks)
  {
    set id | id in Duplicates(l) && l.tasks[id].symbol in symbols
  }

  /** The symbols of tasks that can be merged. */
  function Groups(l: Mem): set<Symbol> {
    set id | id in l.tasks && Ordinary(l.tasks[id]) && BoundId(l.lease) != Some(id) :: l.tasks[id].symbol
  }

  function MergedInto(m: Mem, dups: set<Id>, keeper: Id): Mem {
    m.(tasks := m.tasks - dups,
       fifo := Without(m.fifo, dups),
       aliases := map a | a in m.aliases.Keys + dups :: if a in dups || m.aliases[a] in dups then keeper else m.aliases[a])
  }

  /** The two loops of a merge, and their composition. */
  function Retargeted(m: Mem, dups: set<Id>, keeper: Id): Mem {
    m.(aliases := map a | a in m.aliases :: if m.aliases[a] in dups then keeper else m.aliases[a])
  }

  function Popped(m: Mem, gone: set<Id>, keeper: Id): Mem {
    m.(tasks := m.tasks - gone, aliases := map a | a in m.aliases.Keys + gone :: if a in gone then keeper else m.aliases[a])
  }

  lemma PoppedNothing(m: Mem, keeper: Id)
    ensures Popped(m, {}, keeper) == m
  {
    assert m.tasks - {} == m.tasks;
    assert Popped(m, {}, keeper).aliases == m.aliases;
  }

  lemma PopOne(m: Mem, gone: set<Id>, id: Id, keeper: Id)
    ensures var p := Popped(m, gone, keeper); Popped(m, gone + {id}, keeper) == p.(tasks := p.tasks - {id}, aliases := p.aliases[id := keeper])
  {
    var p := Popped(m, gone, keeper);
    assert m.tasks - (gone + {id}) == p.tasks - {id};
    assert Popped(m, gone + {id}, keeper).aliases == p.aliases[id := keeper];
  }

  lemma PoppedAfterRetargeted(m: Mem, dups: set<Id>, keeper: Id)
    ensures Popped(Retargeted(m, dups, keeper), dups, keeper).(fifo := Without(m.fifo, dups)) == MergedInto(m, dups, keeper)
    ensures Popped(Retargeted(m, dups, keeper), dups, keeper).fifo == m.fifo && Retargeted(m, dups, keeper).tasks == m.tasks
  {
    assert Popped(Retargeted(m, dups, keeper), dups, keeper).aliases == MergedInto(m, dups, keeper).aliases;
  }

  lemma NoGroupsMerged(l: Mem)
    requires Sound(l)
    ensures DuplicatesOf(l, Groups(l) - Groups(l)) == {} && Merged(l, DuplicatesOf(l, Groups(l) - Groups(l))) == l
  {
    assert DuplicatesOf(l, Groups(l) - Groups(l)) == {};
    MergingNothing(l);
  }

  lemma AllGroupsMerged(l: Mem)
    requires WellKeyed(l.tasks)
    ensures DuplicatesOf(l, Groups(l) - {}) == Duplicates(l)
  {
  }

  /** Merging one more group is one more step towards the merged state. */
  lemma NextGroup(l: Mem, done: set<Symbol>, symbol: Symbol)
    requires Sound(l) && symbol in Groups(l) && symbol !in done
    ensures
      var before, after := DuplicatesOf(l, done), DuplicatesOf(l, done + {symbol});
      var m := Merged(l, before);
      var members := Candidates(m.tasks, symbol, BoundId(l.lease));
      WellKeyed(m.tasks) && members != {} && members <= m.tasks.Keys && m.lease == l.lease
      && var keeper := Canonical(m.tasks, members);
      var dups := members - {keeper};
      dups <= m.tasks.Keys && MergedInto(m, dups, keeper) == Merged(l, after) && |after| == |before| + |dups|
  {
    hide Without, Canonical, Merged, MergedInto, Duplicates;
    var before, after := DuplicatesOf(l, done), DuplicatesOf(l, done + {symbol});
    var m := Merged(l, before);
    var keeper := GroupMembers(l, done, symbol);
    assert before <= l.tasks.Keys by { DuplicatesExist(l); }
    var dups := Candidates(l.tasks, symbol, BoundId(l.lease)) - {keeper};
    MergedTwice(l, before, dups, keeper);
  }

  lemma DuplicatesExist(l: Mem)
    requires WellKeyed(l.tasks)
    ensures Duplicates(l) <= l.tasks.Keys
  {
  }

  lemma GroupMembers(l: Mem, done: set<Symbol>, symbol: Symbol) returns (keeper: Id)
    requires Sound(l) && symbol in Groups(l) && symbol !in done
    ensures
      var before, after := DuplicatesOf(l, done), DuplicatesOf(l, done + {symbol});
      var m := Merged(l, before);
      var members := Candidates(l.tasks, symbol, BoundId(l.lease));
      && m.lease == l.lease && WellKeyed(m.tasks)
      && members != {} && Candidates(m.tasks, symbol, BoundId(l.lease)) == members
      && Keeper(l, symbol) == Some(keeper) && Canonical(m.tasks, members) == keeper
      && after == before + (members - {keeper}) && before !! members
      && members <= m.tasks.Keys
  {
    hide Without, Canonical;
    var before := DuplicatesOf(l, done);
    var m := Merged(l, before);
    var members := Candidates(l.tasks, symbol, BoundId(l.lease));
    assert Candidates(m.tasks, symbol, BoundId(l.lease)) == members;
    assert Keeper(l, symbol).Some?;
    keeper := Keeper(l, symbol).value;
    CanonicalIsUnique(l.tasks, members, keeper, Canonical(m.tasks, members));
  }

  /** Merging two sets of duplicates one after the other. */
  lemma MergedTwice(l: Mem, before: set<Id>, dups: set<Id>, keeper: Id)
    requires WellKeyed(l.tasks) && before !! dups && before <= l.tasks.Keys
    requires forall id <- dups :: id in l.tasks && Keeper(l, l.tasks[id].symbol) == Some(keeper)
    requires forall id <- before :: MergedTarget(l, before, id) !in dups
    ensures MergedInto(Merged(l, before), dups, keeper) == Merged(l, before + dups)
  {
    hide Without, Keeper;
    WithoutTwice(l.fifo, before, dups);
    assert l.tasks - before - dups == l.tasks - (before + dups);
    var x, y := MergedInto(Merged(l, before), dups, keeper).aliases, Merged(l, before + dups).aliases;
    assert x.Keys == y.Keys;
    forall a | a in x
      ensures x[a] == y[a]
    {
    }
    assert x == y;
  }

  /** A maintenance task carrying the expected hash, its own by default, or an unmarked one where that is allowed. */
  predicate Removable(task: Task, digest: Option<Digest>, allowLegacy: bool) {
    if task.maintenance.Some? then
      ValidBound(task, task.id, if digest.Some? then digest.value else task.maintenance.value)
    else allowLegacy && ValidLegacyBound(task, task.id)
  }
}
