/** `RedisStreamsStore`: the scripts that update the Redis lists, hashes and the cached counter. */
module RedisStreams {
  import opened Wrappers
  import opened TaskRecords
  import opened InMemoryQueue
  import opened RedisQueue

  class RedisStreamsStore {
    const cap: nat
    var tasks: Tasks
    var queue: seq<Id>
    var symbols: map<Symbol, Id>
    var aliases: map<Id, Id>
    var count: int
    var lease: Option<Lease>

    function Keys(): Redis
      reads this
    {
      Redis(tasks, queue, symbols, aliases, count, lease)
    }

    ghost predicate Valid()
      reads this
    {
      WellKeyed(tasks)
    }

    constructor (cap: nat)
      ensures Valid() && Keys() == EMPTY_REDIS && this.cap == cap
    {
      this.cap := cap;
      tasks, queue, symbols, aliases, count, lease := map[], [], map[], map[], 0, None;
    }

    /** Redis drops the lease key when its time is over. */
    method Expire(now: int)
      modifies this
      ensures Keys() == LiveKeys(old(Keys()), now)
    {
      if lease.Some? && now >= lease.value.expiresAt {
        lease := None;
      }
    }

    /** THS_SUBMIT_OR_REFRESH */
    method SubmitOrRefresh(task: Task, now: int) returns (reply: Reply)
      requires Valid()
      modifies this
      ensures Valid() && RedisOutcome(Keys(), reply) == RedisSubmitted(old(Keys()), task, cap, now)
    {
      hide Without, Active;
      if task.maintenance.Some? {
        return Invalid;
      }
      Expire(now);
      if task.symbol in symbols {
        var id := symbols[task.symbol];
        if id in tasks {
          if BoundId(lease) == Some(id) || tasks[id].maintenance.Some? {
            symbols := symbols - {task.symbol};
          } else {
            if Active(tasks[id].status) {
              return Answer(tasks[id]);
            }
            if count >= cap {
              return QueueFull;
            }
            queue := Without(queue, {id});
            tasks := tasks[id := task.(id := id)];
            queue := queue + [id];
            count := count + 1;
            return Answer(tasks[id]);
          }
        } else {
          symbols := symbols - {task.symbol};
        }
      }
      if count >= cap {
        return QueueFull;
      }
      tasks := tasks[task.id := task];
      queue := queue + [task.id];
      symbols := symbols[task.symbol := task.id];
      count := count + 1;
      reply := Answer(task);
    }

    /** THS_CLAIM_WITH_DEPLOYMENT_LEASE: ids that cannot be claimed are popped and forgotten. */
    method NextRunnable(now: int) returns (reply: Reply)
      requires Valid()
      modifies this
      ensures Valid() && RedisOutcome(Keys(), reply) == RedisClaimed(old(Keys()), now)
    {
      hide Without;
      Expire(now);
      ghost var l := Keys();
      if lease.Some? {
        var bound, digest := lease.value.bound, lease.value.digest;
        if bound.None? || digest.None? || bound.value !in tasks {
          return Nothing;
        }
        var task := tasks[bound.value];
        if !task.status.Queued? || !ValidBound(task, bound.value, digest.value) {
          return Nothing;
        }
        tasks := tasks[bound.value := Claimed(task, now)];
        queue := Without(queue, {bound.value});
        return Answer(tasks[bound.value]);
      }
      while queue != []
        invariant Keys() == l.(queue := queue)
        invariant Popped(queue, tasks) == Popped(l.queue, tasks) && QueuedOf(queue, tasks) == QueuedOf(l.queue, tasks)
        decreases |queue|
      {
        var id := queue[0];
        queue := queue[1..];
        if id in tasks && tasks[id].status.Queued? && Ordinary(tasks[id]) {
          tasks := tasks[id := Claimed(tasks[id], now)];
          return Answer(tasks[id]);
        }
      }
      reply := Nothing;
    }

    /** THS_RECOVER_RUNNING: the sorted ids are pushed to the front, last one first. */
    method RecoverRunning(now: int)
      requires Valid()
      modifies this
      ensures Valid() && Keys() == RedisRecovered(old(Keys()), now)
    {
      hide InCreationOrder;
      var order := InCreationOrder(tasks, RunningIds(tasks));
      ghost var r := Keys();
      for i := 0 to |order|
        invariant Keys() == r.(tasks := tasks) && tasks.Keys == r.tasks.Keys
        invariant forall id <- tasks :: tasks[id] == if id in order[..i] then Recovered(r.tasks[id], now) else r.tasks[id]
      {
        assert order[i] in order;
        assert order[..i + 1] == order[..i] + [order[i]];
        tasks := tasks[order[i] := Recovered(tasks[order[i]], now)];
      }
      assert order[..|order|] == order;
      assert tasks == RecoveredTasks(r.tasks, now);
      var index := |order|;
      while index > 0
        invariant 0 <= index <= |order|
        invariant Keys() == r.(tasks := RecoveredTasks(r.tasks, now), queue := order[index..] + r.queue)
      {
        index := index - 1;
        queue := [order[index]] + queue;
        assert order[index..] == [order[index]] + order[index + 1..];
      }
    }

    /** What the store answers when a script returned nothing. */
    method Decline(name: Id) returns (reply: Reply)
      ensures reply == Declined(Keys(), name)
    {
      var id := if name in aliases then aliases[name] else name;
      if id !in tasks {
        return Missing;
      }
      return if tasks[id].status.Queued? then Answer(tasks[id]) else Invalid;
    }

    /** THS_REQUEUE_WAITING: the waiting task already counts as active. */
    method RequeueWaiting(id: Id, now: int) returns (reply: Reply)
      requires Valid()
      modifies this
      ensures Valid() && RedisOutcome(Keys(), reply) == RedisRequeued(old(Keys()), id, now)
    {
      Expire(now);
      if id in tasks {
        if tasks[id].maintenance.Some? || BoundId(lease) == Some(id) {
          return Invalid;
        }
        if tasks[id].status.WaitingAdmin? {
          tasks := tasks[id := Requeued(tasks[id], now)];
          queue := queue + [id];
          return Answer(tasks[id]);
        }
      }
      reply := Decline(id);
    }

    /** THS_RETRY_FAILED */
    method RetryFailed(id: Id, now: int) returns (reply: Reply)
      requires Valid()
      modifies this
      ensures Valid() && RedisOutcome(Keys(), reply) == RedisRetried(old(Keys()), id, now)
    {
      Expire(now);
      if id in tasks {
        if tasks[id].maintenance.Some? || BoundId(lease) == Some(id) {
          return Invalid;
        }
        if tasks[id].status.Queued? {
          return Answer(tasks[id]);
        }
        if tasks[id].status.Failed? {
          tasks := tasks[id := Recovered(tasks[id], now)];
          queue := queue + [id];
          count := count + 1;
          return Answer(tasks[id]);
        }
      }
      reply := Decline(id);
    }

    /** refresh_task and THS_REFRESH_TASK */
    method RefreshTask(name: Id, longCapture: Option<bool>, now: int) returns (reply: Reply)
      requires Valid()
      modifies this
      ensures Valid() && RedisOutcome(Keys(), reply) == RedisRefreshed(old(Keys()), name, longCapture, cap, now)
    {
      Expire(now);
      var id := if name in aliases then aliases[name] else name;
      if id !in tasks {
        return Missing;
      }
      if tasks[id].maintenance.Some? || BoundId(lease) == Some(id) {
        return Invalid;
      }
      if Active(tasks[id].status) {
        return Answer(tasks[id]);
      }
      if count >= cap {
        return QueueFull;
      }
      tasks := tasks[id := Reset(tasks[id], longCapture, now)];
      queue := queue + [id];
      count := count + 1;
      reply := Answer(tasks[id]);
    }

    /** The id an alias stands for. */
    function Named(name: Id): Id
      reads this`aliases
    {
      if name in aliases then aliases[name] else name
    }

    /** transition and the complete_ methods, with THS_PERSIST_EVENT. */
    method Persist(name: Id, progress: Progress, now: int) returns (reply: Reply)
      requires Valid()
      modifies this
      ensures Valid() && RedisOutcome(Keys(), reply) == RedisReported(old(Keys()), name, progress, now)
      ensures reply.Answer? <==> MayProgress(old(tasks), Named(name), progress)
      ensures reply.Answer? ==> Named(name) in tasks && tasks[Named(name)] == reply.task && reply.task.updatedAt == now
      ensures reply.Answer? && progress.Transition? ==>
                reply.task.status == progress.next
                && (reply.task.completed <==> old(tasks)[Named(name)].completed || progress.next in {Completed, MarketSnapshot, Failed})
      ensures reply.Answer? && progress.CaptureReady? ==>
                reply.task.status == (if progress.all then Completed else Partial)
                && (reply.task.completed <==> old(tasks)[Named(name)].completed || progress.all)
      ensures reply.Answer? && progress.ResultReady? ==>
                reply.task.completed
                && (reply.task.status == Completed <==> progress.complete) && (reply.task.status == Partial <==> !progress.complete)
      ensures reply.Answer? && progress.SnapshotReady? ==> reply.task.status == MarketSnapshot && reply.task.completed
    {
      hide Progressed, Active, One, MayProgress;
      var id := if name in aliases then aliases[name] else name;
      if id !in tasks {
        NotThere(tasks, id, progress);
        return Missing;
      }
      ProgressMeans(tasks, id, progress, now);
      var previous := tasks[id].status;
      var next := Progressed(tasks[id], progress, now);
      if next.None? {
        return Invalid;
      }
      tasks := tasks[id := next.value];
      var delta := One(Active(next.value.status)) - One(Active(previous));
      if delta != 0 {
        count := count + delta;
      }
      reply := Answer(next.value);
    }

    /** THS_BIND_DEPLOYMENT_ACCEPTANCE: looks at all tasks to enforce the cap, and leaves the counter alone. */
    method BindAcceptance(owner: Owner, task: Task, now: int) returns (reply: Reply)
      requires Valid()
      modifies this
      ensures Valid() && RedisOutcome(Keys(), reply) == RedisBound(old(Keys()), owner, task, cap, now)
    {
      hide Without, ActiveCount, RedisBoundAgain;
      Expire(now);
      if !ValidAcceptance(task) || lease.None? || lease.value.owner != owner {
        return Nothing;
      }
      var candidate := task.(maintenance := Some(Digest(owner)));
      if lease.value.digest.Some? && lease.value.digest.value != Digest(owner) {
        return Nothing;
      }
      lease := Some(lease.value.(digest := Some(Digest(owner))));
      if lease.value.bound.Some? {
        reply := BindAgain(lease.value.bound.value, candidate);
        return;
      }
      if task.id in tasks {
        return Nothing;
      }
      var pending := CountActive();
      if pending >= cap {
        return Nothing;
      }
      tasks := tasks[task.id := candidate];
      queue := queue + [task.id];
      lease := Some(lease.value.(bound := Some(task.id)));
      reply := Answer(candidate);
    }

    /** The script's branch for a lease that already has its task. */
    method BindAgain(bound: Id, candidate: Task) returns (reply: Reply)
      requires Valid()
      modifies this
      ensures Valid() && RedisOutcome(Keys(), reply) == RedisBoundAgain(old(Keys()), bound, candidate, cap)
    {
      hide Without, ActiveCount, Retryable, Marked;
      if bound !in tasks {
        return Nothing;
      }
      var existing := tasks[bound];
      if existing.id != bound || existing.symbol != ACCEPTANCE_SYMBOL || existing.includeLongCapture {
        return Nothing;
      }
      if existing.maintenance.Some? && existing.maintenance != candidate.maintenance {
        return Nothing;
      }
      MarkingKeepsCount(Keys(), bound, candidate.maintenance);
      Mark(bound, candidate.maintenance);
      if !Retryable(existing) {
        return Answer(tasks[bound]);
      }
      var pending := CountActive();
      if pending >= cap {
        return Nothing;
      }
      tasks := tasks[bound := candidate.(id := bound)];
      queue := Without(queue, {bound}) + [bound];
      reply := Answer(tasks[bound]);
    }

    method Mark(bound: Id, mark: Option<Digest>)
      requires bound in tasks && (tasks[bound].maintenance.None? || tasks[bound].maintenance == mark)
      modifies this`tasks, this`symbols
      ensures Keys() == Marked(old(Keys()), bound, mark)
    {
      if tasks[bound].maintenance.None? {
        tasks := tasks[bound := tasks[bound].(maintenance := mark)];
      } else {
        assert tasks == tasks[bound := tasks[bound].(maintenance := mark)];
      }
      if ACCEPTANCE_SYMBOL in symbols && symbols[ACCEPTANCE_SYMBOL] == bound {
        symbols := symbols - {ACCEPTANCE_SYMBOL};
      }
    }

    /** The recount: one pass over the task index. */
    method CountActive() returns (n: nat)
      ensures n == ActiveCount(tasks)
    {
      var todo := tasks.Keys;
      n := 0;
      assert ActiveIds(tasks) * todo == ActiveIds(tasks);
      while todo != {}
        invariant todo <= tasks.Keys
        invariant n + |ActiveIds(tasks) * todo| == ActiveCount(tasks)
        decreases |todo|
      {
        var id :| id in todo;
        SetWithout(ActiveIds(tasks) * todo, id);
        assert ActiveIds(tasks) * (todo - {id}) == ActiveIds(tasks) * todo - {id};
        todo := todo - {id};
        if Active(tasks[id].status) {
          n := n + 1;
        }
      }
    }

    /** _sync_active_count */
    method ReconcileActiveCount() returns (n: nat)
      requires Valid()
      modifies this`count
      ensures Valid() && Keys() == RedisReconciled(old(Keys())) && n == ActiveCount(tasks)
    {
      n := CountActive();
      count := n;
    }
  }

  lemma MarkingKeepsCount(r: Redis, id: Id, mark: Option<Digest>)
    requires id in r.tasks
    ensures
      var o := Marked(r, id, mark);
      ActiveCount(o.tasks) == ActiveCount(r.tasks) && o.tasks == r.tasks[id := r.tasks[id].(maintenance := mark)]
      && o.queue == r.queue && o.count == r.count && o.aliases == r.aliases && o.lease == r.lease
  {
    ActiveCountAfter(r.tasks, id, r.tasks[id].(maintenance := mark));
  }

  /** The updates a task takes in each of its statuses. */
  predicate MayProgress(tasks: Tasks, id: Id, p: Progress) {
    id in tasks
    && match p
       case Transition(next) => (tasks[id].status, next) in TRANSITIONS
       case CaptureReady(_) => tasks[id].status in {Running, Partial}
       case ResultReady(longCapture, _) => tasks[id].status in {Running, Partial} && tasks[id].includeLongCapture == longCapture
       case SnapshotReady => tasks[id].status == Running
  }

  lemma NotThere(tasks: Tasks, id: Id, p: Progress)
    requires id !in tasks
    ensures !MayProgress(tasks, id, p)
  {
  }

  /** What an update does to a task that takes it. */
  lemma ProgressMeans(tasks: Tasks, id: Id, p: Progress, now: int)
    requires id in tasks
    ensures MayProgress(tasks, id, p) <==> Progressed(tasks[id], p, now).Some?
    ensures
      MayProgress(tasks, id, p) ==>
        var before, after := tasks[id], Progressed(tasks[id], p, now).value;
        && after.id == before.id && after.updatedAt == now
        && match p
           case Transition(next) =>
             after.status == next && (after.completed <==> before.completed || next in {Completed, MarketSnapshot, Failed})
           case CaptureReady(all) => after.status == (if all then Completed else Partial) && (after.completed <==> before.completed || all)
           case ResultReady(_, complete) => after.completed && after.status == if complete then Completed else Partial
           case SnapshotReady => after.completed && after.status == MarketSnapshot
  {
    if p.Transition? {
      TransitionTable(tasks[id].status, p.next);
    }
  }
}
