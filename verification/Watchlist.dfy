/** A user's watchlist groups: row updates of the account store refine edits of plain lists. */
module Watchlist {
  import opened Wrappers
  import opened SortOrders

  type Group = nat
  type Symbol = nat

  datatype Error = NotFound | Rejected

  type Answer = Result<(), Error>

  /** The symbols a user has in any group. */
  function Distinct(items: map<Group, Rows>): set<Symbol> {
    set g, x | g in items && x in items[g] :: x
  }

  /** Only the rows of group `g` differ. */
  ghost predicate OnlyChanges(before: map<Group, Rows>, after: map<Group, Rows>, g: Group) {
    after.Keys == before.Keys && forall other <- before :: other != g ==> after[other] == before[other]
  }

  class MarketAccountStore {
    const limit: nat
    var items: map<Group, Rows>
    var groups: Rows
    var primary: Option<Group>

    ghost predicate Valid()
      reads this
    {
      && items.Keys == groups.Keys && Dense(groups)
      && (forall g <- items :: Dense(items[g]))
      && (primary.Some? ==> primary.value in items)
      && |Distinct(items)| <= limit
    }

    /** The symbols of a group in the order they are listed. */
    ghost function List(g: Group): seq<Symbol>
      reads this
      requires g in items
    {
      Ordered(items[g])
    }

    constructor (primary: Group, limit: nat)
      ensures Valid() && Ordered(groups) == [primary] && List(primary) == [] && this.primary == Some(primary) && this.limit == limit
    {
      this.limit := limit;
      items := map[primary := map[]];
      groups := map[primary := 0];
      this.primary := Some(primary);
      new;
      ShownIsOrdered(groups, [primary]);
      ShownIsOrdered(items[primary], []);
      assert Distinct(items) == {};
    }

    // ------------------------------------------------------------- symbols

    /** _normalize_item_order: one row after the other gets its place. */
    method NormalizeItemOrder(g: Group)
      requires g in items
      modifies this`items
      ensures OnlyChanges(old(items), items, g) && Shows(items[g], Ordered(old(items)[g])) && items[g].Keys == old(items)[g].Keys
    {
      var list := Ordered(items[g]);
      OrderedHasAll(items[g]);
      WriteOrder(g, list);
    }

    /** UPDATE ... SET sort_order=index, for every symbol of a list of the group's symbols. */
    method WriteOrder(g: Group, list: seq<Symbol>)
      requires g in items && SameIds(items[g], list)
      modifies this`items
      ensures OnlyChanges(old(items), items, g) && Shows(items[g], list) && items[g].Keys == old(items)[g].Keys
    {
      hide Ordered;
      ghost var before := items;
      for index := 0 to |list|
        invariant OnlyChanges(before, items, g) && g in items && items[g].Keys == before[g].Keys
        invariant forall j :: 0 <= j < index ==> items[g][list[j]] == j
      {
        items := items[g := items[g][list[index] := index]];
      }
    }

    method AddSymbol(g: Group, symbol: Symbol) returns (r: Answer)
      requires Valid()
      modifies this`items
      ensures Valid()
      ensures r == if g !in items || primary.None? then Err(NotFound)
                   else if (|Distinct(old(items))| >= limit && symbol !in Distinct(old(items))) || symbol in old(items)[g] then Err(Rejected)
                   else Ok(())
      ensures r.Err? ==> items == old(items)
      ensures r.Ok? ==> List(g) == old(List(g)) + [symbol]
      ensures r.Ok? && g != primary.value ==>
                List(primary.value) == if symbol in old(items)[primary.value] then old(List(primary.value)) else old(List(primary.value)) + [symbol]
      ensures r.Ok? ==> items.Keys == old(items).Keys && forall x <- items :: x != g && x != primary.value ==> items[x] == old(items)[x]
    {
      hide Ordered, Dense, Distinct;
      if g !in items || primary.None? {
        return Err(NotFound);
      }
      var known := Distinct(items);
      if |known| >= limit && symbol !in known {
        return Err(Rejected);
      }
      if symbol in items[g] {
        return Err(Rejected);
      }
      AddBoth(g, symbol);
      r := Ok(());
    }

    /** The symbol goes to the end of the group, and of the primary group unless it is there. */
    method AddBoth(g: Group, symbol: Symbol)
      requires Valid() && g in items && primary.Some? && symbol !in items[g]
      requires symbol in Distinct(items) || |Distinct(items)| < limit
      modifies this`items
      ensures Valid() && items.Keys == old(items).Keys && List(g) == old(List(g)) + [symbol]
      ensures g != primary.value ==>
                List(primary.value) == if symbol in old(items)[primary.value] then old(List(primary.value)) else old(List(primary.value)) + [symbol]
      ensures forall x <- items :: x != g && x != primary.value ==> items[x] == old(items)[x]
    {
      hide Ordered, Dense, Distinct;
      ghost var before := items;
      Append(g, symbol);
      if g != primary.value && symbol !in items[primary.value] {
        Append(primary.value, symbol);
      }
      AddedDistinct(before, items, symbol);
    }

    /** INSERT with COALESCE(MAX(sort_order)+1, 0) */
    method Append(g: Group, symbol: Symbol)
      requires g in items && Dense(items[g]) && symbol !in items[g]
      modifies this`items
      ensures OnlyChanges(old(items), items, g) && Dense(items[g])
      ensures List(g) == old(List(g)) + [symbol] && items[g].Keys == old(items)[g].Keys + {symbol}
    {
      AppendShows(items[g], Ordered(items[g]), symbol);
      ShownIsOrdered(items[g][symbol := NextOrder(items[g])], Ordered(items[g]) + [symbol]);
      var rows: Rows := items[g][symbol := NextOrder(items[g])];
      items := items[g := rows];
    }

    /** DELETE and renumber. */
    method Drop(g: Group, symbol: Symbol)
      requires g in items && Dense(items[g]) && symbol in items[g]
      modifies this`items
      ensures OnlyChanges(old(items), items, g) && Dense(items[g])
      ensures List(g) == Deleted(old(List(g)), symbol) && items[g].Keys == old(items)[g].Keys - {symbol}
    {
      DeleteOrders(items[g], Ordered(items[g]), symbol);
      ghost var list := Deleted(Ordered(items[g]), symbol);
      items := items[g := items[g] - {symbol}];
      NormalizeItemOrder(g);
      ShownIsOrdered(items[g], list);
    }

    method RemoveSymbol(g: Group, symbol: Symbol) returns (r: Answer)
      requires Valid()
      modifies this`items
      ensures Valid()
      ensures r == if g in old(items) && symbol in old(items)[g] then Ok(()) else Err(NotFound)
      ensures r.Err? ==> items == old(items)
      ensures r.Ok? ==> OnlyChanges(old(items), items, g) && List(g) == Deleted(old(List(g)), symbol)
    {
      hide Ordered, Dense, Distinct;
      if g !in items || symbol !in items[g] {
        return Err(NotFound);
      }
      ghost var before := items;
      Drop(g, symbol);
      FewerSymbols(before, items);
      r := Ok(());
    }

    /** `remove_symbol_everywhere` */
    method RemoveEverywhere(symbol: Symbol) returns (r: Answer)
      requires Valid()
      modifies this`items
      ensures Valid() && items.Keys == old(items).Keys
      ensures r == if symbol in Distinct(old(items)) then Ok(()) else Err(NotFound)
      ensures forall g <- items :: List(g) == if symbol in old(items)[g] then Deleted(Ordered(old(items)[g]), symbol) else Ordered(old(items)[g])
      ensures symbol !in Distinct(items)
    {
      hide Ordered, Dense, Distinct, Deleted;
      ghost var before := items;
      DistinctMembers(items, symbol);
      var affected := set g | g in items && symbol in items[g];
      assert forall g <- items :: symbol in items[g] <==> g in affected;
      if affected == {} {
        return Err(NotFound);
      }
      var some :| some in affected;
      var todo := affected;
      while todo != {}
        invariant todo <= affected && items.Keys == before.Keys
        invariant forall g <- items :: Dense(items[g])
        invariant forall g <- items :: if g in affected - todo
                    then Ordered(items[g]) == Deleted(Ordered(before[g]), symbol) && items[g].Keys == before[g].Keys - {symbol}
                    else items[g] == before[g]
        decreases |todo|
      {
        var g :| g in todo;
        todo := todo - {g};
        Drop(g, symbol);
      }
      FewerSymbols(before, items);
      DistinctMembers(items, symbol);
      r := Ok(());
    }

    /** The list must name every symbol of the group once. */
    method ReorderSymbols(g: Group, symbols: seq<Symbol>) returns (r: Answer)
      requires Valid()
      modifies this`items
      ensures Valid()
      ensures r == if g !in old(items) then Err(NotFound) else if SameIds(old(items)[g], symbols) then Ok(()) else Err(Rejected)
      ensures r.Err? ==> items == old(items)
      ensures r.Ok? ==> OnlyChanges(old(items), items, g) && List(g) == symbols
    {
      hide Ordered, Distinct;
      if g !in items {
        return Err(NotFound);
      }
      var named := Ids(symbols);
      if |symbols| != |named| || named != items[g].Keys {
        RepeatsShrink(symbols);
        return Err(Rejected);
      }
      RepeatsShrink(symbols);
      ghost var before := items;
      WriteOrder(g, symbols);
      ShownIsOrdered(items[g], symbols);
      FewerSymbols(before, items);
      r := Ok(());
    }

    /** Within a group the symbol is put at the clamped index of the others; to another group it takes its row along. */
    method MoveSymbol(source: Group, target: Group, symbol: Symbol, index: int) returns (r: Answer)
      requires Valid()
      modifies this`items
      ensures Valid()
      ensures r == if source !in old(items) || target !in old(items) || symbol !in old(items)[source] then Err(NotFound)
                   else if source != target && symbol in old(items)[target] then Err(Rejected)
                   else Ok(())
      ensures r.Err? ==> items == old(items)
      ensures r.Ok? ==> items.Keys == old(items).Keys && forall g <- items :: g != source && g != target ==> items[g] == old(items)[g]
      ensures r.Ok? ==> List(target) == Placed(if source == target then Deleted(old(List(target)), symbol) else old(List(target)), index, symbol)
      ensures r.Ok? && source != target ==> List(source) == Deleted(old(List(source)), symbol)
      ensures Distinct(items) == Distinct(old(items))
    {
      hide Ordered, Dense, Distinct, Deleted, Placed, SameIds;
      if source !in items || target !in items || symbol !in items[source] {
        return Err(NotFound);
      }
      if source == target {
        MoveWithin(source, symbol, index);
      } else {
        if symbol in items[target] {
          return Err(Rejected);
        }
        MoveAcross(source, target, symbol, index);
      }
      r := Ok(());
    }

    method MoveWithin(g: Group, symbol: Symbol, index: int)
      requires Valid() && g in items && symbol in items[g]
      modifies this`items
      ensures Valid() && OnlyChanges(old(items), items, g) && Distinct(items) == Distinct(old(items))
      ensures List(g) == Placed(Deleted(old(List(g)), symbol), index, symbol)
    {
      hide Ordered, Distinct, Deleted, Placed, Dense;
      ghost var before := items;
      var ordered := Placed(Deleted(Ordered(items[g]), symbol), index, symbol);
      MovedWithin(items[g], symbol, index);
      var r := ReorderSymbols(g, ordered);
      SameOrderedIds(before[g], items[g], ordered);
      SameSymbols(before, items);
    }

    method MoveAcross(source: Group, target: Group, symbol: Symbol, index: int)
      requires Valid() && source in items && target in items && source != target && symbol in items[source] && symbol !in items[target]
      modifies this`items
      ensures Valid() && items.Keys == old(items).Keys && Distinct(items) == Distinct(old(items))
      ensures forall g <- items :: g != source && g != target ==> items[g] == old(items)[g]
      ensures List(source) == Deleted(old(List(source)), symbol)
      ensures List(target) == Placed(old(List(target)), index, symbol)
    {
      hide Ordered, Distinct, Deleted, Placed, Dense, Shifted;
      ghost var before := items;
      Drop(source, symbol);
      var at := Clamp(index, |items[target]|);
      InsertedIsDense(items[target], index, symbol);
      var shifted: Rows := Shifted(items[target], at);
      shifted := shifted[symbol := at];
      items := items[target := shifted];
      MoveKeepsDistinct(before, items, source, target, symbol);
    }

    // -------------------------------------------------------------- groups

    /** A new group is listed last. */
    method CreateGroup(g: Group)
      requires Valid() && g !in items
      modifies this`items, this`groups
      ensures Valid() && items == old(items)[g := map[]]
      ensures Ordered(groups) == old(Ordered(groups)) + [g] && List(g) == []
    {
      hide Ordered;
      AppendShows(groups, Ordered(groups), g);
      ShownIsOrdered(groups[g := NextOrder(groups)], Ordered(groups) + [g]);
      groups := groups[g := NextOrder(groups)];
      ghost var before := items;
      items := items[g := map[]];
      ShownIsOrdered(items[g], []);
      EmptyGroup(before, g);
    }

    method DeleteGroup(g: Group) returns (r: Answer)
      requires Valid()
      modifies this`items, this`groups
      ensures Valid()
      ensures r == if g !in old(items) then Err(NotFound) else if primary == Some(g) || |old(groups)| <= 1 then Err(Rejected) else Ok(())
      ensures r.Err? ==> items == old(items) && groups == old(groups)
      ensures r.Ok? ==> items == old(items) - {g} && Ordered(groups) == Deleted(old(Ordered(groups)), g)
    {
      hide Ordered;
      if g !in items {
        return Err(NotFound);
      }
      if primary == Some(g) || |groups| <= 1 {
        return Err(Rejected);
      }
      ghost var before, list := items, Deleted(Ordered(groups), g);
      DeleteOrders(groups, Ordered(groups), g);
      items := items - {g};
      groups := groups - {g};
      assert SameIds(groups, Ordered(groups));
      WriteGroupOrder(Ordered(groups));
      ShownIsOrdered(groups, list);
      assert Distinct(items) <= Distinct(before);
      SubsetSize(Distinct(items), Distinct(before));
      r := Ok(());
    }

    method ReorderGroups(order: seq<Group>) returns (r: Answer)
      requires Valid()
      modifies this`groups
      ensures Valid()
      ensures r == if SameIds(old(groups), order) then Ok(()) else Err(Rejected)
      ensures r.Err? ==> groups == old(groups)
      ensures r.Ok? ==> Ordered(groups) == order
    {
      hide Ordered;
      var named := Ids(order);
      if |order| != |named| || named != groups.Keys {
        RepeatsShrink(order);
        return Err(Rejected);
      }
      RepeatsShrink(order);
      WriteGroupOrder(order);
      ShownIsOrdered(groups, order);
      r := Ok(());
    }

    method WriteGroupOrder(order: seq<Group>)
      requires SameIds(groups, order)
      modifies this`groups
      ensures Shows(groups, order) && groups.Keys == old(groups).Keys
    {
      hide Ordered;
      for index := 0 to |order|
        invariant groups.Keys == old(groups).Keys
        invariant forall j :: 0 <= j < index ==> groups[order[j]] == j
      {
        groups := groups[order[index] := index];
      }
    }
  }

  lemma DistinctMembers(items: map<Group, Rows>, x: Symbol)
    ensures x in Distinct(items) <==> exists g <- items :: x in items[g]
  {
  }

  lemma AddedDistinct(before: map<Group, Rows>, after: map<Group, Rows>, x: Symbol)
    requires after.Keys == before.Keys && (exists g <- after :: x in after[g])
    requires forall g <- before :: after[g].Keys == before[g].Keys || after[g].Keys == before[g].Keys + {x}
    ensures Distinct(after) == Distinct(before) + {x}
  {
    forall y
      ensures y in Distinct(after) <==> y in Distinct(before) + {x}
    {
      if y in Distinct(before) {
        var g :| g in before && y in before[g];
        assert y in after[g];
      }
    }
  }

  lemma EmptyGroup(items: map<Group, Rows>, g: Group)
    requires g !in items
    ensures Distinct(items[g := map[]]) == Distinct(items)
  {
    forall y
      ensures y in Distinct(items[g := map[]]) <==> y in Distinct(items)
    {
      if y in Distinct(items) {
        var other :| other in items && y in items[other];
        assert y in items[g := map[]][other];
      }
    }
  }

  lemma SameSymbols(before: map<Group, Rows>, after: map<Group, Rows>)
    requires after.Keys == before.Keys && forall g <- after :: after[g].Keys == before[g].Keys
    ensures Distinct(after) == Distinct(before)
  {
    FewerSymbols(before, after);
    FewerSymbols(after, before);
  }

  lemma InsertedIsDense(rows: Rows, index: int, x: Symbol)
    requires Dense(rows) && x !in rows
    ensures
      var at := Clamp(index, |rows|);
      var after: Rows := Shifted(rows, at)[x := at];
      Dense(after) && Ordered(after) == Placed(Ordered(rows), index, x) && after.Keys == rows.Keys + {x}
  {
    hide Ordered, Inserted;
    OrderedHasAll(rows);
    var at := Clamp(index, |rows|);
    InsertShows(rows, Ordered(rows), at, x);
    ShownIsOrdered(Shifted(rows, at)[x := at], Inserted(Ordered(rows), at, x));
  }

  lemma SameOrderedIds(before: Rows, after: Rows, list: seq<Symbol>)
    requires SameIds(before, list) && Dense(after) && Ordered(after) == list
    ensures before.Keys == after.Keys
  {
  }

  /** A list has as many different ids as places exactly when no id repeats. */
  lemma {:induction false} RepeatsShrink(list: seq<nat>)
    ensures |list| == |Ids(list)| <==> NoRepeats(list)
    ensures |list| >= |Ids(list)|
  {
    if list != [] {
      var rest := list[1..];
      RepeatsShrink(rest);
      assert Ids(list) == Ids(rest) + {list[0]};
      HeadRepeats(list);
      if list[0] in rest {
        assert Ids(list) == Ids(rest);
      } else {
        assert list[0] !in Ids(rest);
      }
    }
  }

  lemma HeadRepeats(list: seq<nat>)
    requires list != []
    ensures NoRepeats(list) <==> NoRepeats(list[1..]) && list[0] !in list[1..]
  {
    var rest := list[1..];
    assert forall i | 0 <= i < |rest| :: rest[i] == list[i + 1];
    if NoRepeats(rest) && list[0] !in rest {
      assert forall i, j | 0 <= i < j < |list| :: list[j] == rest[j - 1] && (i > 0 ==> list[i] == rest[i - 1]);
    }
  }

  /** Taking a symbol out and putting it back anywhere keeps the ids. */
  lemma MovedWithin(rows: Rows, x: Symbol, index: int)
    requires Dense(rows) && x in rows
    ensures SameIds(rows, Placed(Deleted(Ordered(rows), x), index, x))
  {
    hide Ordered;
    var rest := Deleted(Ordered(rows), x);
    DeleteOrders(rows, Ordered(rows), x);
    InsertedIds(rows - {x}, rest, Clamp(index, |rest|), x);
    assert forall y :: y in rows <==> y == x || y in rows - {x};
  }

  lemma MoveKeepsDistinct(before: map<Group, Rows>, after: map<Group, Rows>, source: Group, target: Group, x: Symbol)
    requires after.Keys == before.Keys && source in before && target in before && source != target && x in before[source]
    requires after[source].Keys == before[source].Keys - {x} && after[target].Keys == before[target].Keys + {x}
    requires forall g <- before :: g != source && g != target ==> after[g] == before[g]
    ensures Distinct(after) == Distinct(before)
  {
    forall y
      ensures y in Distinct(after) <==> y in Distinct(before)
    {
      if y in Distinct(before) {
        var g :| g in before && y in before[g];
        assert y in after[if g == source && y == x then target else g];
      }
    }
  }

  lemma FewerSymbols(before: map<Group, Rows>, after: map<Group, Rows>)
    requires after.Keys == before.Keys && forall g <- after :: after[g].Keys <= before[g].Keys
    ensures Distinct(after) <= Distinct(before) && |Distinct(after)| <= |Distinct(before)|
  {
    assert Distinct(after) <= Distinct(before);
    SubsetSize(Distinct(after), Distinct(before));
  }

  lemma {:induction false} SubsetSize(a: set<nat>, b: set<nat>)
    requires a <= b
    ensures |a| <= |b|
  {
    assert b == a + (b - a);
  }
}
