/** Queue tasks: their status machine, the canonical task of a symbol, and filtered id lists. */
module TaskRecords {
  import opened Wrappers

  type Id = nat
  type Symbol = nat
  type Owner = nat

  /** The hash of an owner token; distinct tokens have distinct hashes. */
  datatype Digest = Digest(owner: Owner)

  const ACCEPTANCE_SYMBOL: Symbol := 601872

  datatype Status = Queued | Running | WaitingAdmin | Partial | Completed | MarketSnapshot | Failed | Expired

  /** `maintenance` marks a deployment acceptance task with the hash of the lease's owner token. */
  datatype Task = Task(
    id: Id,
    symbol: Symbol,
    includeLongCapture: bool,
    maintenance: Option<Digest>,
    status: Status,
    createdAt: int,
    updatedAt: int,
    completed: bool)

  predicate Active(status: Status) {
    status.Queued? || status.Running? || status.WaitingAdmin?
  }

  /** A task some runner is still working on. */
  predicate Busy(task: Task) {
    task.status.Running? || (task.status.Partial? && !task.completed)
  }

  predicate Ordinary(task: Task) {
    task.maintenance.None?
  }

  /** _ALLOWED_TRANSITIONS */
  predicate Allowed(status: Status, next: Status) {
    match status
    case Queued => next.Running? || next.Failed?
    case Running => next.WaitingAdmin? || next.Partial? || next.Completed? || next.MarketSnapshot? || next.Failed?
    case WaitingAdmin => next.Running? || next.Partial? || next.Failed?
    case Partial => next.Running? || next.WaitingAdmin? || next.Completed? || next.Failed?
    case _ => false
  }

  /** The pairs of `_ALLOWED_TRANSITIONS`. */
  const TRANSITIONS: set<(Status, Status)> := {
    (Queued, Running), (Queued, Failed),
    (Running, WaitingAdmin), (Running, Partial), (Running, Completed), (Running, MarketSnapshot), (Running, Failed),
    (WaitingAdmin, Running), (WaitingAdmin, Partial), (WaitingAdmin, Failed),
    (Partial, Running), (Partial, WaitingAdmin), (Partial, Completed), (Partial, Failed)}

  lemma TransitionTable(status: Status, next: Status)
    ensures Allowed(status, next) <==> (status, next) in TRANSITIONS
  {
  }

  // ----------------------------------------------------- changes of one task

  /** _reset_task_for_refresh */
  function Reset(task: Task, longCapture: Option<bool>, now: int): Task {
    task.(status := Queued, createdAt := now, updatedAt := now, completed := false,
          includeLongCapture := if longCapture.Some? then longCapture.value else task.includeLongCapture)
  }

  function Requeued(task: Task, now: int): Task {
    task.(status := Queued, updatedAt := now)
  }

  function Recovered(task: Task, now: int): Task {
    task.(status := Queued, updatedAt := now, completed := false)
  }

  function Claimed(task: Task, now: int): Task {
    task.(status := Running, updatedAt := now)
  }

  function Moved(task: Task, next: Status, now: int): Task {
    task.(status := next, updatedAt := now, completed := task.completed || next.Completed? || next.MarketSnapshot? || next.Failed?)
  }

  /** The updates a runner reports for a task it works on. */
  datatype Progress =
    | Transition(next: Status)
    | CaptureReady(all: bool) // `all`: every capture kind is ready now
    | ResultReady(longCapture: bool, complete: bool) // `longCapture`: a path was given
    | SnapshotReady

  /** transition, complete_capture, complete_result and complete_market_snapshot; None where they raise. */
  function Progressed(task: Task, p: Progress, now: int): Option<Task> {
    match p
    case Transition(next) =>
      if Allowed(task.status, next) then Some(Moved(task, next, now)) else None
    case CaptureReady(all) =>
      if task.status.Running? || task.status.Partial? then
        Some(task.(status := if all then Completed else Partial, updatedAt := now, completed := task.completed || all))
      else None
    case ResultReady(longCapture, complete) =>
      if (task.status.Running? || task.status.Partial?) && longCapture == task.includeLongCapture then
        Some(task.(status := if complete then Completed else Partial, updatedAt := now, completed := true))
      else None
    case SnapshotReady =>
      if task.status.Running? then Some(task.(status := MarketSnapshot, updatedAt := now, completed := true)) else None
  }

  // ------------------------------------------------------------ active tasks

  type Tasks = map<Id, Task>

  predicate WellKeyed(tasks: Tasks) {
    forall id <- tasks :: tasks[id].id == id
  }

  function ActiveIds(tasks: Tasks): set<Id> {
    set id | id in tasks && Active(tasks[id].status)
  }

  function ActiveCount(tasks: Tasks): nat {
    |ActiveIds(tasks)|
  }

  function One(b: bool): nat {
    if b then 1 else 0
  }

  /** Changing or adding one task changes the count by that task alone. */
  lemma ActiveCountAfter(tasks: Tasks, id: Id, task: Task)
    ensures ActiveCount(tasks[id := task]) + One(id in tasks && Active(tasks[id].status)) == ActiveCount(tasks) + One(Active(task.status))
  {
    hide Active;
    var before, after := ActiveIds(tasks), ActiveIds(tasks[id := task]);
    assert forall x :: x != id ==> (x in before <==> x in after);
    SameButOne(before, after, id);
  }

  lemma SameButOne(a: set<Id>, b: set<Id>, x: Id)
    requires forall y :: y != x ==> (y in a <==> y in b)
    ensures |a| + One(x in b) == |b| + One(x in a)
  {
    SetWithout(a, x);
    SetWithout(b, x);
    assert a - {x} == b - {x};
  }

  lemma ActiveCountWithout(tasks: Tasks, id: Id)
    requires id in tasks
    ensures ActiveCount(tasks - {id}) + One(Active(tasks[id].status)) == ActiveCount(tasks)
  {
    assert ActiveIds(tasks - {id}) == ActiveIds(tasks) - {id};
    SetWithout(ActiveIds(tasks), id);
  }

  lemma SetWithout(s: set<Id>, x: Id)
    ensures |s| == |s - {x}| + if x in s then 1 else 0
  {
    if x in s {
      assert s == (s - {x}) + {x};
    } else {
      assert s - {x} == s;
    }
  }

  // ------------------------------------------------------- the canonical task

  /** The key of `_canonical_task`, compared lexicographically; equal only for the same id. */
  predicate Above(a: Task, b: Task) {
    if Active(a.status) != Active(b.status) then Active(a.status)
    else if a.createdAt != b.createdAt then a.createdAt > b.createdAt
    else if a.updatedAt != b.updatedAt then a.updatedAt > b.updatedAt
    else a.id > b.id
  }

  predicate IsCanonical(tasks: Tasks, ids: set<Id>, id: Id)
    requires ids <= tasks.Keys
  {
    id in ids && forall other <- ids :: other != id ==> Above(tasks[id], tasks[other])
  }

  lemma {:induction false} CanonicalExists(tasks: Tasks, ids: set<Id>)
    requires WellKeyed(tasks) && ids <= tasks.Keys && ids != {}
    ensures exists id :: IsCanonical(tasks, ids, id)
    decreases |ids|
  {
    var x :| x in ids;
    var rest := ids - {x};
    if rest == {} {
      assert ids == {x};
      assert IsCanonical(tasks, ids, x);
    } else {
      CanonicalExists(tasks, rest);
      var best :| IsCanonical(tasks, rest, best);
      BetterOfTwo(tasks, rest, x, best);
      assert ids == rest + {x};
    }
  }

  /** One step of `max`: the better of a new task and the best so far. */
  lemma BetterOfTwo(tasks: Tasks, ids: set<Id>, x: Id, best: Id)
    requires WellKeyed(tasks) && ids <= tasks.Keys && x in tasks && x !in ids && IsCanonical(tasks, ids, best)
    ensures IsCanonical(tasks, ids + {x}, if Above(tasks[x], tasks[best]) then x else best)
  {
    assert tasks[x].id != tasks[best].id;
  }

  /** _canonical_task */
  function Canonical(tasks: Tasks, ids: set<Id>): (id: Id)
    requires WellKeyed(tasks) && ids <= tasks.Keys && ids != {}
    ensures IsCanonical(tasks, ids, id)
  {
    CanonicalExists(tasks, ids);
    var id :| IsCanonical(tasks, ids, id);
    id
  }

  lemma CanonicalIsUnique(tasks: Tasks, ids: set<Id>, a: Id, b: Id)
    requires ids <= tasks.Keys && IsCanonical(tasks, ids, a) && IsCanonical(tasks, ids, b)
    ensures a == b
  {
  }

  // ---------------------------------------------------------------- id lists

  /** The list without any of `ids`. */
  function Without(list: seq<Id>, ids: set<Id>): (r: seq<Id>)
    ensures forall x :: x in r <==> x in list && x !in ids
  {
    if list == [] then [] else (if list[0] in ids then [] else [list[0]]) + Without(list[1..], ids)
  }

  /** The ids of queued ordinary tasks, in order. */
  function QueuedOf(list: seq<Id>, tasks: Tasks): (r: seq<Id>)
    ensures forall x :: x in r <==> x in list && x in tasks && tasks[x].status.Queued? && Ordinary(tasks[x])
  {
    if list == [] then []
    else (if list[0] in tasks && tasks[list[0]].status.Queued? && Ordinary(tasks[list[0]]) then [list[0]] else [])
         + QueuedOf(list[1..], tasks)
  }

  lemma QueuedOfMembers(list: seq<Id>, tasks: Tasks)
    ensures forall x :: x in QueuedOf(list, tasks) <==> x in list && x in tasks && tasks[x].status.Queued? && Ordinary(tasks[x])
  {
  }

  lemma {:induction false} QueuedOfConcat(a: seq<Id>, b: seq<Id>, tasks: Tasks)
    ensures QueuedOf(a + b, tasks) == QueuedOf(a, tasks) + QueuedOf(b, tasks)
  {
    if a == [] {
      assert a + b == b;
    } else {
      assert (a + b)[1..] == a[1..] + b;
      QueuedOfConcat(a[1..], b, tasks);
    }
  }

  /** Changes of tasks that are not queued ordinary tasks before or after do not matter. */
  lemma {:induction false} QueuedOfSame(list: seq<Id>, tasks: Tasks, tasks': Tasks)
    requires forall x <- list ::
               (x in tasks && tasks[x].status.Queued? && Ordinary(tasks[x])) <==> (x in tasks' && tasks'[x].status.Queued? && Ordinary(tasks'[x]))
    ensures QueuedOf(list, tasks) == QueuedOf(list, tasks')
  {
    if list != [] {
      assert list[0] in list;
      QueuedOfSame(list[1..], tasks, tasks');
    }
  }

  lemma {:induction false} QueuedOfWithout(list: seq<Id>, ids: set<Id>, tasks: Tasks)
    ensures QueuedOf(Without(list, ids), tasks) == Without(QueuedOf(list, tasks), ids)
  {
    if list != [] {
      QueuedOfWithout(list[1..], ids, tasks);
      var head := list[..1];
      assert Without(list, ids) == (if list[0] in ids then [] else [list[0]]) + Without(list[1..], ids);
      QueuedOfConcat(if list[0] in ids then [] else [list[0]], Without(list[1..], ids), tasks);
      WithoutConcat(QueuedOf(head, tasks), QueuedOf(list[1..], tasks), ids);
      assert head[1..] == [] && head[0] == list[0];
    }
  }

  lemma {:induction false} WithoutConcat(a: seq<Id>, b: seq<Id>, ids: set<Id>)
    ensures Without(a + b, ids) == Without(a, ids) + Without(b, ids)
  {
    if a == [] {
      assert a + b == b;
    } else {
      assert (a + b)[1..] == a[1..] + b;
      WithoutConcat(a[1..], b, ids);
    }
  }

  lemma {:induction false} WithoutAbsent(list: seq<Id>, ids: set<Id>)
    requires forall x <- list :: x !in ids
    ensures Without(list, ids) == list
  {
    if list != [] {
      assert list[0] in list;
      WithoutAbsent(list[1..], ids);
    }
  }

  lemma {:induction false} WithoutTwice(list: seq<Id>, a: set<Id>, b: set<Id>)
    ensures Without(Without(list, a), b) == Without(list, a + b)
  {
    if list != [] {
      WithoutTwice(list[1..], a, b);
      WithoutConcat(if list[0] in a then [] else [list[0]], Without(list[1..], a), b);
      assert list[..1][1..] == [];
    }
  }
}
