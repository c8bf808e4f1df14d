/** Lists kept as table rows: every row has a `sort_order`, and the list is what ordering the rows gives. */
module SortOrders {

  /** The sort_order of each id (a symbol of a group, or a group of a user). */
  type Rows = map<nat, int>

  predicate Before(rows: Rows, a: nat, b: nat)
    requires a in rows && b in rows
  {
    rows[a] < rows[b] || (rows[a] == rows[b] && a < b)
  }

  predicate IsFirst(rows: Rows, x: nat) {
    x in rows && forall y <- rows :: y != x ==> Before(rows, x, y)
  }

  lemma {:induction false} FirstExists(rows: Rows)
    requires rows != map[]
    ensures exists x :: IsFirst(rows, x)
    decreases |rows|
  {
    var x :| x in rows;
    var rest := rows - {x};
    assert forall y <- rows :: y == x || y in rest;
    if rest == map[] {
      assert IsFirst(rows, x);
    } else {
      FirstExists(rest);
      var y :| IsFirst(rest, y);
      assert IsFirst(rows, if Before(rows, x, y) then x else y);
    }
  }

  function First(rows: Rows): (x: nat)
    requires rows != map[]
    ensures IsFirst(rows, x)
  {
    FirstExists(rows);
    var x :| IsFirst(rows, x);
    x
  }

  /** ORDER BY sort_order, id */
  function Ordered(rows: Rows): seq<nat>
    decreases |rows|
  {
    if rows == map[] then []
    else
      var x := First(rows);
      [x] + Ordered(rows - {x})
  }

  predicate NoRepeats(list: seq<nat>) {
    forall i, j :: 0 <= i < j < |list| ==> list[i] != list[j]
  }

  ghost predicate SameIds(rows: Rows, list: seq<nat>) {
    NoRepeats(list) && forall x :: x in rows <==> x in list
  }

  /** The rows hold exactly `list`: the i-th id has sort_order i. */
  ghost predicate Shows(rows: Rows, list: seq<nat>) {
    SameIds(rows, list) && forall i :: 0 <= i < |list| ==> rows[list[i]] == i
  }

  /** The sort_order values are exactly 0..n-1. */
  ghost predicate Dense(rows: Rows) {
    Shows(rows, Ordered(rows))
  }

  // ---------------------------------------------------------- ordering rows

  predicate Increasing(rows: Rows, list: seq<nat>) {
    (forall x <- list :: x in rows) && forall i, j :: 0 <= i < j < |list| ==> Before(rows, list[i], list[j])
  }

  /** A list of all ids in increasing order is what ordering the rows gives. */
  lemma {:induction false} OrderedIsUnique(rows: Rows, list: seq<nat>)
    requires SameIds(rows, list) && Increasing(rows, list)
    ensures Ordered(rows) == list
    decreases |list|
  {
    hide SameIds, Increasing;
    if list == [] {
      EmptyRows(rows, list);
    } else {
      var x := list[0];
      HeadIsFirst(rows, list);
      FirstIsUnique(rows, First(rows), x);
      TailIds(rows, list);
      OrderedIsUnique(rows - {x}, list[1..]);
    }
  }

  lemma EmptyRows(rows: Rows, list: seq<nat>)
    requires SameIds(rows, list) && list == []
    ensures rows == map[]
  {
    assert forall x :: x !in rows;
  }

  lemma HeadIsFirst(rows: Rows, list: seq<nat>)
    requires SameIds(rows, list) && Increasing(rows, list) && list != []
    ensures IsFirst(rows, list[0]) && rows != map[]
  {
    assert list[0] in list;
    forall y <- rows | y != list[0]
      ensures Before(rows, list[0], y)
    {
      var j :| 0 <= j < |list| && list[j] == y;
    }
  }

  lemma FirstIsUnique(rows: Rows, a: nat, b: nat)
    requires IsFirst(rows, a) && IsFirst(rows, b)
    ensures a == b
  {
  }

  lemma TailIds(rows: Rows, list: seq<nat>)
    requires SameIds(rows, list) && Increasing(rows, list) && list != []
    ensures SameIds(rows - {list[0]}, list[1..]) && Increasing(rows - {list[0]}, list[1..])
  {
    assert forall x <- list[1..] :: x in list && x != list[0];
    forall x
      ensures x in rows - {list[0]} <==> x in list[1..]
    {
      if x in list {
        var i :| 0 <= i < |list| && list[i] == x;
        assert i > 0 ==> list[1..][i - 1] == x;
      }
    }
  }

  lemma ShownIsOrdered(rows: Rows, list: seq<nat>)
    requires Shows(rows, list)
    ensures Ordered(rows) == list && Dense(rows)
  {
    OrderedIsUnique(rows, list);
  }

  /** Ordering always gives every id once. */
  lemma {:induction false} OrderedHasAll(rows: Rows)
    ensures SameIds(rows, Ordered(rows)) && |Ordered(rows)| == |rows|
    decreases |rows|
  {
    if rows != map[] {
      var x := First(rows);
      OrderedHasAll(rows - {x});
      assert |rows - {x}| == |rows| - 1;
      forall y
        ensures y in rows <==> y in Ordered(rows)
      {
        assert y in rows <==> y == x || y in rows - {x};
      }
    }
  }

  // ------------------------------------------------------------ list edits

  function IndexOf(list: seq<nat>, x: nat): (i: nat)
    requires x in list
    ensures i < |list| && list[i] == x
  {
    if list[0] == x then 0 else 1 + IndexOf(list[1..], x)
  }

  function Deleted(list: seq<nat>, x: nat): seq<nat> {
    if x in list then list[..IndexOf(list, x)] + list[IndexOf(list, x) + 1..] else list
  }

  function Clamp(index: int, n: nat): nat {
    if index < 0 then 0 else if index > n then n else index
  }

  function Inserted(list: seq<nat>, index: nat, x: nat): seq<nat>
    requires index <= |list|
  {
    list[..index] + [x] + list[index..]
  }

  /** list.insert(max(0, min(index, len(list))), x) */
  function Placed(list: seq<nat>, index: int, x: nat): seq<nat> {
    Inserted(list, Clamp(index, |list|), x)
  }

  function Ids(list: seq<nat>): set<nat> {
    set x | x in list
  }

  /** COALESCE(MAX(sort_order) + 1, 0) */
  function NextOrder(rows: Rows): int {
    if rows == map[] then 0 else Largest(rows) + 1
  }

  predicate IsLargest(rows: Rows, n: int) {
    (exists x <- rows :: rows[x] == n) && forall x <- rows :: rows[x] <= n
  }

  lemma {:induction false} LargestExists(rows: Rows)
    requires rows != map[]
    ensures exists n :: IsLargest(rows, n)
    decreases |rows|
  {
    var x :| x in rows;
    var rest := rows - {x};
    assert forall y <- rows :: y == x || y in rest;
    if rest == map[] {
      assert IsLargest(rows, rows[x]);
    } else {
      LargestExists(rest);
      var n :| IsLargest(rest, n);
      assert exists y <- rows :: rows[y] == n;
      assert IsLargest(rows, if rows[x] > n then rows[x] else n);
    }
  }

  function Largest(rows: Rows): (n: int)
    requires rows != map[]
    ensures IsLargest(rows, n)
  {
    LargestExists(rows);
    var n :| IsLargest(rows, n);
    n
  }

  // -------------------------------------------------- row updates refine edits

  /** Inserting a row after the largest sort_order appends. */
  lemma AppendShows(rows: Rows, list: seq<nat>, x: nat)
    requires Shows(rows, list) && x !in rows
    ensures Shows(rows[x := NextOrder(rows)], list + [x])
  {
    if list == [] {
      assert forall y :: y !in rows;
      assert rows == map[];
    } else {
      var last := list[|list| - 1];
      assert last in rows;
      forall y <- rows
        ensures rows[y] <= |list| - 1
      {
        var i :| 0 <= i < |list| && list[i] == y;
      }
      assert NextOrder(rows) == |list|;
    }
  }

  /** Without one row, the others keep their order. */
  lemma DeleteOrders(rows: Rows, list: seq<nat>, x: nat)
    requires Shows(rows, list) && x in rows
    ensures SameIds(rows - {x}, Deleted(list, x)) && Ordered(rows - {x}) == Deleted(list, x)
  {
    hide Ordered, IndexOf, Deleted;
    DeletedIds(rows, list, x);
    DeletedAt(list, x);
    var rest := Deleted(list, x);
    assert Increasing(rows - {x}, rest);
    OrderedIsUnique(rows - {x}, rest);
  }

  lemma DeletedIds(rows: Rows, list: seq<nat>, x: nat)
    requires SameIds(rows, list) && x in rows
    ensures SameIds(rows - {x}, Deleted(list, x))
  {
    hide IndexOf, Deleted;
    DeletedAt(list, x);
    var k, rest := IndexOf(list, x), Deleted(list, x);
    forall y
      ensures y in rows - {x} <==> y in rest
    {
      if y in list && y != x {
        var i :| 0 <= i < |list| && list[i] == y;
        assert rest[if i < k then i else i - 1] == y;
      }
    }
  }

  lemma DeletedAt(list: seq<nat>, x: nat)
    requires x in list
    ensures |Deleted(list, x)| == |list| - 1
    ensures forall i | 0 <= i < |list| - 1 :: Deleted(list, x)[i] == list[if i < IndexOf(list, x) then i else i + 1]
  {
  }

  /** Making room at an index and filling it. */
  function Shifted(rows: Rows, index: int): Rows {
    map x | x in rows :: if rows[x] >= index then rows[x] + 1 else rows[x]
  }

  lemma InsertShows(rows: Rows, list: seq<nat>, index: nat, x: nat)
    requires Shows(rows, list) && x !in rows && index <= |list|
    ensures Shows(Shifted(rows, index)[x := index], Inserted(list, index, x))
  {
    hide Inserted;
    var out, after := Inserted(list, index, x), Shifted(rows, index)[x := index];
    InsertedAt(list, index, x, out);
    InsertedIds(rows, list, index, x);
    forall i | 0 <= i < |out|
      ensures after[out[i]] == i
    {
      if i != index { assert out[i] in rows; }
    }
  }

  lemma InsertedAt(list: seq<nat>, index: nat, x: nat, out: seq<nat>)
    requires index <= |list| && out == Inserted(list, index, x)
    ensures |out| == |list| + 1 && out[index] == x
    ensures forall i | 0 <= i < index :: out[i] == list[i]
    ensures forall i | index <= i < |list| :: out[i + 1] == list[i]
    ensures forall i | index < i <= |list| :: out[i] == list[i - 1]
  {
  }

  lemma InsertedIds(rows: Rows, list: seq<nat>, index: nat, x: nat)
    requires SameIds(rows, list) && x !in rows && index <= |list|
    ensures NoRepeats(Inserted(list, index, x)) && forall y :: y in Inserted(list, index, x) <==> y == x || y in rows
  {
    hide Inserted;
    var out := Inserted(list, index, x);
    InsertedAt(list, index, x, out);
    forall y
      ensures y in out <==> y == x || y in rows
    {
      if y in list {
        var i :| 0 <= i < |list| && list[i] == y;
        assert out[if i < index then i else i + 1] == y;
      }
      if y == x { assert out[index] == x; }
    }
  }

  // ------------------------------------------------------- in plain positions

  /** ORDER BY: smaller sort_order first, smaller id first among equals. */
  lemma {:induction false} OrderedMeans(rows: Rows, i: nat, j: nat)
    requires i < j < |Ordered(rows)|
    ensures var a, b := Ordered(rows)[i], Ordered(rows)[j];
            a in rows && b in rows && (rows[a] < rows[b] || (rows[a] == rows[b] && a < b))
    decreases i
  {
    hide Ordered, First, IsFirst, SameIds;
    var x := OrderedUnfolds(rows);
    var rest := rows - {x};
    assert Ordered(rows)[j] == Ordered(rest)[j - 1];
    if i > 0 {
      assert Ordered(rows)[i] == Ordered(rest)[i - 1];
      OrderedMeans(rest, i - 1, j - 1);
    } else {
      OrderedIsThere(rest, j - 1);
      FirstComesBefore(rows, x, Ordered(rows)[j]);
    }
  }

  lemma OrderedUnfolds(rows: Rows) returns (x: nat)
    requires Ordered(rows) != []
    ensures IsFirst(rows, x) && Ordered(rows) == [x] + Ordered(rows - {x})
  {
    x := First(rows);
  }

  lemma OrderedIsThere(rows: Rows, i: nat)
    requires i < |Ordered(rows)|
    ensures Ordered(rows)[i] in rows
  {
    hide Ordered;
    OrderedHasAll(rows);
  }

  lemma FirstComesBefore(rows: Rows, x: nat, y: nat)
    requires IsFirst(rows, x) && y in rows && y != x
    ensures x in rows && (rows[x] < rows[y] || (rows[x] == rows[y] && x < y))
  {
    assert Before(rows, x, y);
  }

  /** An index before the front or behind the end means the front or the end. */
  lemma PlacedMeans(list: seq<nat>, index: int, x: nat)
    ensures index <= 0 ==> Placed(list, index, x) == [x] + list
    ensures index >= |list| ==> Placed(list, index, x) == list + [x]
    ensures 0 <= index <= |list| ==> Placed(list, index, x) == list[..index] + [x] + list[index..]
  {
    assert list[..0] + [x] == [x] && list[..|list|] == list && list[0..] == list;
    assert list + [x] + list[|list|..] == list + [x];
  }

  lemma {:induction false} DeletedMeans(before: seq<nat>, x: nat, after: seq<nat>)
    requires x !in before
    ensures Deleted(before + [x] + after, x) == before + after && (x !in after ==> Deleted(before + after, x) == before + after)
  {
    var list := before + [x] + after;
    IndexIsFirst(list, x, |before|);
    assert list[..|before|] == before && list[|before| + 1..] == after;
  }

  lemma {:induction false} IndexIsFirst(list: seq<nat>, x: nat, i: nat)
    requires i < |list| && list[i] == x && forall j :: 0 <= j < i ==> list[j] != x
    ensures IndexOf(list, x) == i
  {
    if i > 0 {
      IndexIsFirst(list[1..], x, i - 1);
    }
  }

  /** The next sort_order is one above the largest, and 0 without rows. */
  lemma NextOrderMeans(rows: Rows, x: nat)
    ensures rows == map[] ==> NextOrder(rows) == 0
    ensures x in rows ==> rows[x] < NextOrder(rows) && exists y <- rows :: NextOrder(rows) == rows[y] + 1
  {
  }
}
