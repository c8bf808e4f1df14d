/** The in-memory task queue as a state machine: what each operation of `InMemoryStreams` does to its state. */
module InMemoryQueue {
  import opened Wrappers
  import opened TaskRecords

  const MAX_LEASE_SECONDS := 7200

  /** `digest` and `bound` are filled in when the lease is taken and when an acceptance task is bound. */
  datatype Lease = Lease(owner: Owner, digest: Option<Digest>, bound: Option<Id>, expiresAt: int)

  datatype Mem = Mem(tasks: Tasks, fifo: seq<Id>, aliases: map<Id, Id>, lease: Option<Lease>)

  /** `Invalid` is InvalidTransitionError (or ValueError), `Missing` KeyError, `Nothing` None. */
  datatype Reply = Answer(task: Task) | Nothing | QueueFull | Invalid | Missing | Flag(ok: bool)

  datatype Outcome = Outcome(mem: Mem, reply: Reply)

  datatype Op =
    | Enqueue(task: Task)
    | Submit(task: Task)
    | Claim
    | Recover
    | Requeue(id: Id)
    | Retry(id: Id)
    | Refresh(id: Id, longCapture: Option<bool>)
    | Report(id: Id, progress: Progress)
    | Deduplicate
    | Acquire(owner: Owner, ttl: int)
    | Renew(owner: Owner, ttl: int)
    | Bind(owner: Owner, task: Task)
    | Release(owner: Owner)
    | Cleanup

  const EMPTY := Mem(map[], [], map[], None)

  // ------------------------------------------------------------- ingredients

  /** An expired lease is dropped by whoever looks at it next. */
  function Live(m: Mem, now: int): Mem {
    if m.lease.Some? && now >= m.lease.value.expiresAt then m.(lease := None) else m
  }

  function BoundId(lease: Option<Lease>): Option<Id> {
    if lease.Some? then lease.value.bound else None
  }

  function ToTail(fifo: seq<Id>, id: Id): seq<Id> {
    Without(fifo, {id}) + [id]
  }

  /** The ordinary tasks of a symbol, except `excluded`. */
  function Candidates(tasks: Tasks, symbol: Symbol, excluded: Option<Id>): set<Id> {
    set id | id in tasks && tasks[id].symbol == symbol && Ordinary(tasks[id]) && excluded != Some(id)
  }

  function Resolved(aliases: map<Id, Id>, id: Id): Id {
    if id in aliases then aliases[id] else id
  }

  predicate ValidAcceptance(task: Task) {
    task.symbol == ACCEPTANCE_SYMBOL && !task.includeLongCapture && task.status.Queued? && !task.completed && Ordinary(task)
  }

  predicate ValidBound(task: Task, bound: Id, digest: Digest) {
    task.id == bound && task.symbol == ACCEPTANCE_SYMBOL && !task.includeLongCapture && task.maintenance == Some(digest)
  }

  predicate ValidLegacyBound(task: Task, bound: Id) {
    task.id == bound && task.symbol == ACCEPTANCE_SYMBOL && !task.includeLongCapture && Ordinary(task)
  }

  predicate Retryable(task: Task) {
    task.status.Completed? || task.status.MarketSnapshot? || task.status.Failed? || task.status.Expired?
    || (task.status.Partial? && task.completed)
  }

  predicate ValidTtl(ttl: int) {
    0 < ttl <= MAX_LEASE_SECONDS
  }

  predicate AnyBusy(tasks: Tasks) {
    exists id <- tasks :: Busy(tasks[id])
  }

  // -------------------------------------------------------------- operations

  function Enqueued(m: Mem, task: Task, maintenance: bool, cap: nat): Outcome {
    if task.maintenance.Some? != maintenance then Outcome(m, Invalid)
    else if ActiveCount(m.tasks) >= cap then Outcome(m, QueueFull)
    else Outcome(m.(tasks := m.tasks[task.id := task], fifo := m.fifo + [task.id]), Answer(task))
  }

  function RefreshedLocked(m: Mem, id: Id, longCapture: Option<bool>, cap: nat, now: int): Outcome
    requires id in m.tasks
  {
    var task := m.tasks[id];
    if Active(task.status) then Outcome(m, Answer(task))
    else if ActiveCount(m.tasks) >= cap then Outcome(m, QueueFull)
    else
      var restarted := Reset(task, longCapture, now);
      Outcome(m.(tasks := m.tasks[id := restarted], fifo := ToTail(m.fifo, id)), Answer(restarted))
  }

  function Submitted(m: Mem, task: Task, cap: nat, now: int): Outcome
    requires WellKeyed(m.tasks)
  {
    if task.maintenance.Some? then Outcome(m, Invalid)
    else
      var l := Live(m, now);
      var ids := Candidates(l.tasks, task.symbol, BoundId(l.lease));
      if ids == {} then Enqueued(l, task, false, cap)
      else RefreshedLocked(l, Canonical(l.tasks, ids), Some(task.includeLongCapture), cap, now)
  }

  /** The task `next_runnable` picks: the lease's own task under a lease, else the first queued ordinary one. */
  function NextId(l: Mem): Option<Id> {
    if l.lease.Some? then
      var bound, digest := l.lease.value.bound, l.lease.value.digest;
      if bound.Some? && digest.Some? && bound.value in l.tasks && l.tasks[bound.value].status.Queued?
         && ValidBound(l.tasks[bound.value], bound.value, digest.value)
      then bound else None
    else
      var queued := QueuedOf(l.fifo, l.tasks);
      if queued == [] then None else Some(queued[0])
  }

  function ClaimedNext(m: Mem, now: int): Outcome {
    var l := Live(m, now);
    match NextId(l)
    case None => Outcome(l, Nothing)
    case Some(id) =>
      var task := Claimed(l.tasks[id], now);
      Outcome(l.(tasks := l.tasks[id := task], fifo := if l.lease.Some? then Without(l.fifo, {id}) else l.fifo), Answer(task))
  }

  function RecoveredTasks(tasks: Tasks, now: int): Tasks {
    map id | id in tasks :: if tasks[id].status.Running? then Recovered(tasks[id], now) else tasks[id]
  }

  lemma RecoveryKeepsCount(tasks: Tasks, now: int)
    ensures ActiveCount(RecoveredTasks(tasks, now)) == ActiveCount(tasks)
  {
    assert ActiveIds(RecoveredTasks(tasks, now)) == ActiveIds(tasks);
  }

  /** Whether a task belongs to a lease, asked before an administrator's change of it. */
  predicate Reserved(l: Mem, task: Task) {
    task.maintenance.Some? || BoundId(l.lease) == Some(task.id)
  }

  /** The expiry of the lease is only looked at for tasks without maintenance data. */
  function LiveFor(m: Mem, task: Task, now: int): Mem {
    if task.maintenance.Some? then m else Live(m, now)
  }

  function RequeuedTask(m: Mem, id: Id, now: int): Outcome {
    if id !in m.tasks then Outcome(m, Missing)
    else
      var task := m.tasks[id];
      var l := LiveFor(m, task, now);
      if Reserved(l, task) || !task.status.WaitingAdmin? then Outcome(l, Invalid)
      else Outcome(l.(tasks := l.tasks[id := Requeued(task, now)], fifo := ToTail(l.fifo, id)), Answer(Requeued(task, now)))
  }

  function RetriedTask(m: Mem, id: Id, now: int): Outcome {
    if id !in m.tasks then Outcome(m, Missing)
    else
      var task := m.tasks[id];
      var l := LiveFor(m, task, now);
      if Reserved(l, task) then Outcome(l, Invalid)
      else if task.status.Queued? then Outcome(l, Answer(task))
      else if !task.status.Failed? then Outcome(l, Invalid)
      else Outcome(l.(tasks := l.tasks[id := Recovered(task, now)], fifo := ToTail(l.fifo, id)), Answer(Recovered(task, now)))
  }

  function RefreshedTask(m: Mem, name: Id, longCapture: Option<bool>, cap: nat, now: int): Outcome {
    var id := Resolved(m.aliases, name);
    if id !in m.tasks then Outcome(m, Missing)
    else
      var l := LiveFor(m, m.tasks[id], now);
      if Reserved(l, m.tasks[id]) then Outcome(l, Invalid) else RefreshedLocked(l, id, longCapture, cap, now)
  }

  function Reported(m: Mem, id: Id, p: Progress, now: int): Outcome {
    if id !in m.tasks then Outcome(m, Missing)
    else match Progressed(m.tasks[id], p, now)
      case None => Outcome(m, Invalid)
      case Some(task) => Outcome(m.(tasks := m.tasks[id := task]), Answer(task))
  }

  // ------------------------------------------------------------ deduplication

  /** The ordinary tasks that are not the canonical one of their symbol. */
  function Duplicates(l: Mem): set<Id>
    requires WellKeyed(l.tasks)
  {
    set id | id in l.tasks && Ordinary(l.tasks[id]) && BoundId(l.lease) != Some(id) && Keeper(l, l.tasks[id].symbol) != Some(id)
  }

  function Keeper(l: Mem, symbol: Symbol): Option<Id>
    requires WellKeyed(l.tasks)
  {
    var ids := Candidates(l.tasks, symbol, BoundId(l.lease));
    if ids == {} then None else Some(Canonical(l.tasks, ids))
  }

  /** Where an id points once `dups` are merged into the keepers of their symbols. */
  function MergedTarget(l: Mem, dups: set<Id>, id: Id): Id
    requires WellKeyed(l.tasks)
  {
    if id in dups && id in l.tasks && Keeper(l, l.tasks[id].symbol).Some? then Keeper(l, l.tasks[id].symbol).value else id
  }

  function Merged(l: Mem, dups: set<Id>): Mem
    requires WellKeyed(l.tasks)
  {
    l.(tasks := l.tasks - dups,
       fifo := Without(l.fifo, dups),
       aliases := map a | a in l.aliases.Keys + dups :: MergedTarget(l, dups, if a in dups then a else l.aliases[a]))
  }

  function Deduplicated(m: Mem, now: int): Mem
    requires WellKeyed(m.tasks)
  {
    Merged(Live(m, now), Duplicates(Live(m, now)))
  }

  // ------------------------------------------------------- deployment leases

  function LeaseAcquired(m: Mem, owner: Owner, ttl: int, now: int): Outcome {
    if !ValidTtl(ttl) then Outcome(m, Flag(false))
    else
      var l := Live(m, now);
      if l.lease.Some? || AnyBusy(l.tasks) then Outcome(l, Flag(false))
      else Outcome(l.(lease := Some(Lease(owner, Some(Digest(owner)), None, now + ttl))), Flag(true))
  }

  /** The lease is there, belongs to `owner`, and was not taken under another hash. */
  predicate OwnedBy(lease: Option<Lease>, owner: Owner) {
    lease.Some? && lease.value.owner == owner && (lease.value.digest.None? || lease.value.digest == Some(Digest(owner)))
  }

  function LeaseRenewed(m: Mem, owner: Owner, ttl: int, now: int): Outcome {
    if !ValidTtl(ttl) then Outcome(m, Flag(false))
    else
      var l := Live(m, now);
      if !OwnedBy(l.lease, owner) then Outcome(l, Flag(false))
      else Outcome(l.(lease := Some(l.lease.value.(digest := Some(Digest(owner)), expiresAt := now + ttl))), Flag(true))
  }

  function AcceptanceBound(m: Mem, owner: Owner, task: Task, cap: nat, now: int): Outcome {
    if !ValidAcceptance(task) then Outcome(m, Nothing)
    else
      var l := Live(m, now);
      if !OwnedBy(l.lease, owner) then Outcome(l, Nothing)
      else
        var signed := l.(lease := Some(l.lease.value.(digest := Some(Digest(owner)))));
        if l.lease.value.bound.Some? then BoundAgain(signed, l.lease.value.bound.value, owner, cap, now)
        else if task.id in l.tasks then Outcome(signed, Nothing)
        else
          var candidate := task.(maintenance := Some(Digest(owner)));
          var queued := Enqueued(signed, candidate, true, cap);
          if queued.reply.QueueFull? then Outcome(signed, Nothing)
          else Outcome(queued.mem.(lease := Some(signed.lease.value.(bound := Some(task.id)))), Answer(candidate))
  }

  /** Binding under a lease that already has a task: the task is handed back, restarted if it is over. */
  function BoundAgain(m: Mem, bound: Id, owner: Owner, cap: nat, now: int): Outcome {
    if bound !in m.tasks then Outcome(m, Nothing)
    else
      var existing := m.tasks[bound];
      if existing.maintenance.Some? && !ValidBound(existing, bound, Digest(owner)) then Outcome(m, Nothing)
      else if existing.maintenance.None? && !ValidLegacyBound(existing, bound) then Outcome(m, Nothing)
      else
        var marked := m.(tasks := m.tasks[bound := existing.(maintenance := Some(Digest(owner)))]);
        if !Retryable(existing) then Outcome(marked, Answer(marked.tasks[bound]))
        else
          var r := RefreshedLocked(marked, bound, Some(false), cap, now);
          if r.reply.QueueFull? then Outcome(marked, Nothing) else r
  }

  function LeaseReleased(m: Mem, owner: Owner, now: int): Outcome
    requires WellKeyed(m.tasks)
  {
    var l := Live(m, now);
    if !OwnedBy(l.lease, owner) then Outcome(l, Flag(false))
    else match l.lease.value.bound
      case None => Outcome(l.(lease := None), Flag(true))
      case Some(id) =>
        if id in l.tasks && (ValidBound(l.tasks[id], id, Digest(owner)) || ValidLegacyBound(l.tasks[id], id))
        then Outcome(Removed(l, id).(lease := None), Flag(true))
        else Outcome(l, Flag(false))
  }

  /** A task taken out of the store; what pointed at it now points at the canonical task of its symbol, if any. */
  function Removed(m: Mem, id: Id): Mem
    requires WellKeyed(m.tasks) && id in m.tasks
  {
    var others := Candidates(m.tasks, m.tasks[id].symbol, Some(id));
    m.(tasks := m.tasks - {id},
       fifo := Without(m.fifo, {id}),
       aliases := map a | a in m.aliases && a != id && (m.aliases[a] != id || others != {}) ::
                    if m.aliases[a] != id then m.aliases[a] else Canonical(m.tasks, others))
  }

  /** Maintenance tasks no live lease is bound to. */
  function Leftovers(l: Mem): set<Id> {
    set id | id in l.tasks && l.tasks[id].maintenance.Some? && BoundId(l.lease) != Some(id)
  }

  function CleanedUp(m: Mem, now: int): Mem {
    var l := Live(m, now);
    l.(tasks := l.tasks - Leftovers(l), fifo := Without(l.fifo, Leftovers(l)))
  }

  // -------------------------------------------------------------------- steps

  function Step(m: Mem, op: Op, cap: nat, now: int): Outcome
    requires WellKeyed(m.tasks)
  {
    match op
    case Enqueue(task) => Enqueued(m, task, false, cap)
    case Submit(task) => Submitted(m, task, cap, now)
    case Claim => ClaimedNext(m, now)
    case Recover => Outcome(m.(tasks := RecoveredTasks(m.tasks, now)), Nothing)
    case Requeue(id) => RequeuedTask(m, id, now)
    case Retry(id) => RetriedTask(m, id, now)
    case Refresh(id, longCapture) => RefreshedTask(m, id, longCapture, cap, now)
    case Report(id, p) => Reported(m, id, p, now)
    case Deduplicate => Outcome(Deduplicated(m, now), Nothing)
    case Acquire(owner, ttl) => LeaseAcquired(m, owner, ttl, now)
    case Renew(owner, ttl) => LeaseRenewed(m, owner, ttl, now)
    case Bind(owner, task) => AcceptanceBound(m, owner, task, cap, now)
    case Release(owner) => LeaseReleased(m, owner, now)
    case Cleanup => Outcome(CleanedUp(m, now), Nothing)
  }
}
