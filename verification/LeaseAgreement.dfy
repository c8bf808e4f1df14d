/** Deployments on the two queues: the same answers and the same tasks, but for one difference in cleaning up. */
module LeaseAgreement {
  import opened Wrappers
  import opened TaskRecords
  import opened InMemoryQueue
  import opened QueueInvariants
  import opened RedisQueue

  /** The same tasks, aliases and unexpired lease; lists, symbol index and counter aside. */
  predicate SameStore(m: Mem, r: Redis, now: int) {
    m.tasks == r.tasks && m.aliases == r.aliases && Live(m, now).lease == LiveKeys(r, now).lease
  }

  /** It does not matter that an expired lease lingers in memory. */
  lemma SameStoreLater(m: Mem, r: Redis, now: int, later: int)
    requires SameStore(m, r, now) && now <= later
    ensures SameStore(m, r, later)
  {
  }

  predicate LeaseOp(op: Op) {
    op.Acquire? || op.Renew? || op.Bind? || op.Release? || op.Deduplicate?
  }

  /** New tasks are stamped with the time of the call. */
  predicate Stamped(op: Op, now: int) {
    op.Submit? || op.Bind? ==> op.task.createdAt == now && op.task.updatedAt == now && !op.task.completed
  }

  lemma BindAgrees(m: Mem, r: Redis, owner: Owner, task: Task, cap: nat, now: int)
    requires Sound(m) && SameStore(m, r, now) && task.createdAt == now && task.updatedAt == now
    ensures AcceptanceBound(m, owner, task, cap, now).reply == RedisBound(r, owner, task, cap, now).reply
    ensures SameStore(AcceptanceBound(m, owner, task, cap, now).mem, RedisBound(r, owner, task, cap, now).redis, now)
  {
    hide Without, ActiveCount, AliasesSound;
    var bound := BoundId(Live(m, now).lease);
    if ValidAcceptance(task) && OwnedBy(Live(m, now).lease, owner) && bound.Some? {
      var existing := m.tasks[bound.value];
      assert m.tasks[bound.value := existing.(maintenance := Some(Digest(owner)))] == m.tasks;
      assert Retryable(existing) ==> !Active(existing.status);
      assert Retryable(existing) ==> Reset(existing, Some(false), now) == task.(maintenance := Some(Digest(owner)), id := bound.value);
    }
  }

  lemma ReleaseAgrees(m: Mem, r: Redis, owner: Owner, now: int)
    requires Sound(m) && SameStore(m, r, now)
    ensures LeaseReleased(m, owner, now).reply == RedisReleased(r, owner, now).reply
    ensures SameStore(LeaseReleased(m, owner, now).mem, RedisReleased(r, owner, now).redis, now)
  {
    hide Without, Canonical, AliasesSound, MaintenanceSound, LeaseSound;
  }

  /** Leases are taken, renewed, bound and released alike, and duplicates are merged alike. */
  lemma LeasesAgree(m: Mem, r: Redis, op: Op, cap: nat, now: int)
    requires Sound(m) && SameStore(m, r, now) && LeaseOp(op) && Stamped(op, now)
    ensures Step(m, op, cap, now).reply == RedisStep(r, Shared(op), cap, now).reply
    ensures SameStore(Step(m, op, cap, now).mem, RedisStep(r, Shared(op), cap, now).redis, now)
  {
    hide Without, ActiveCount, AliasesSound, MaintenanceSound, LeaseSound, Canonical, Reindexed, AcceptanceBound, RedisBound, LeaseReleased, RedisReleased;
    match op
    case Bind(owner, task) => BindAgrees(m, r, owner, task, cap, now);
    case Release(owner) => ReleaseAgrees(m, r, owner, now);
    case Deduplicate => MergeIgnoresLists(Live(m, now), View(LiveKeys(r, now)));
    case _ =>
  }

  /** Under a lease both stores claim the same task, or none. */
  lemma ClaimsUnderLeaseAgree(m: Mem, r: Redis, now: int)
    requires Sound(m) && SameStore(m, r, now) && Live(m, now).lease.Some?
    ensures ClaimedNext(m, now).reply == RedisClaimed(r, now).reply
    ensures SameStore(ClaimedNext(m, now).mem, RedisClaimed(r, now).redis, now)
  {
    hide QueuedOf, Without, Popped, AliasesSound, MaintenanceSound;
  }

  lemma MergeIgnoresLists(l: Mem, v: Mem)
    requires WellKeyed(l.tasks) && l.tasks == v.tasks && l.aliases == v.aliases && l.lease == v.lease
    ensures Duplicates(l) == Duplicates(v)
    ensures Merged(l, Duplicates(l)).tasks == Merged(v, Duplicates(v)).tasks && Merged(l, Duplicates(l)).aliases == Merged(v, Duplicates(v)).aliases
  {
    hide Without, Canonical;
    assert forall s :: Keeper(l, s) == Keeper(v, s);
    assert Duplicates(l) == Duplicates(v);
    var dups := Duplicates(l);
    assert forall id :: MergedTarget(l, dups, id) == MergedTarget(v, dups, id);
    assert Merged(l, dups).aliases == Merged(v, dups).aliases;
  }

  /**
   * Cleaning up leaves the same tasks exactly when no lease is about or nothing is left over: under a lease the
   * memory queue removes the acceptance tasks of earlier leases, Redis removes nothing.
   */
  lemma CleanupAgreesExactly(m: Mem, r: Redis, now: int)
    requires Sound(m) && SameStore(m, r, now)
    ensures SameStore(CleanedUp(m, now), RedisCleanedUp(r, now), now) <==> Live(m, now).lease.None? || Leftovers(Live(m, now)) == {}
  {
    hide Without, Canonical, AliasesSound;
    var l, k := Live(m, now), LiveKeys(r, now);
    if l.lease.None? {
      assert CleanupTargets(k) == Leftovers(l);
    } else {
      assert k.tasks - {} == k.tasks;
      if Leftovers(l) != {} {
        var id :| id in Leftovers(l);
        assert id in k.tasks && id !in CleanedUp(m, now).tasks;
      }
    }
  }
}
