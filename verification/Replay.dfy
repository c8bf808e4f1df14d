/** Replay profit: the running position of the source against lot-by-lot accounting. */
module Replay {
  import opened Wrappers

  /** A marker that is neither a buy nor a sell is sorted with the sells and treated as a buy. */
  datatype Side = Buy | Sell | Other

  /** `price` is None where the source cannot read it as a number. */
  datatype Marker = Marker(index: int, side: Side, time: nat, price: Option<real>)

  datatype Performance = Performance(
    buyCount: nat,
    sellCount: nat,
    buyCost: real,
    sellProceeds: real,
    profit: real,
    returnPct: Option<real>,
    forcedExit: Option<real>)

  // ------------------------------------------------------------------ sorting

  /** The sort key: index, buys first, time. */
  predicate NotAfter(a: Marker, b: Marker) {
    if a.index != b.index then a.index < b.index
    else if a.side.Buy? != b.side.Buy? then a.side.Buy?
    else a.time <= b.time
  }

  function Placed(m: Marker, list: seq<Marker>): seq<Marker> {
    if list == [] || NotAfter(m, list[0]) then [m] + list else [list[0]] + Placed(m, list[1..])
  }

  /** sorted(markers, key=...): stable, since a marker is placed before equal later ones. */
  function Sorted(list: seq<Marker>): seq<Marker> {
    if list == [] then [] else Placed(list[0], Sorted(list[1..]))
  }

  predicate InOrder(list: seq<Marker>) {
    list != [] ==> (forall x <- list[1..] :: NotAfter(list[0], x)) && InOrder(list[1..])
  }

  lemma {:induction false} PlacedInOrder(m: Marker, list: seq<Marker>)
    requires InOrder(list)
    ensures InOrder(Placed(m, list))
    ensures forall x :: x in Placed(m, list) <==> x == m || x in list
  {
    if list != [] && !NotAfter(m, list[0]) {
      PlacedInOrder(m, list[1..]);
      assert Placed(m, list)[1..] == Placed(m, list[1..]);
    } else {
      assert ([m] + list)[1..] == list;
      assert forall x <- list :: x == list[0] || x in list[1..];
    }
  }

  /** The markers with one key, in the order they appear. */
  function WithKey(list: seq<Marker>, key: Marker): seq<Marker> {
    if list == [] then []
    else (if NotAfter(list[0], key) && NotAfter(key, list[0]) then [list[0]] else []) + WithKey(list[1..], key)
  }

  /** Sorting orders, and keeps for every key exactly its markers, in the order they came. */
  lemma {:induction false} SortedIsSorted(list: seq<Marker>, key: Marker)
    ensures InOrder(Sorted(list))
    ensures WithKey(Sorted(list), key) == WithKey(list, key)
  {
    if list != [] {
      SortedIsSorted(list[1..], key);
      PlacedInOrder(list[0], Sorted(list[1..]));
      PlacedKeepsKey(list[0], Sorted(list[1..]), key);
    }
  }

  lemma {:induction false} PlacedKeepsKey(m: Marker, list: seq<Marker>, key: Marker)
    requires InOrder(list)
    ensures WithKey(Placed(m, list), key) == (if NotAfter(m, key) && NotAfter(key, m) then [m] else []) + WithKey(list, key)
  {
    if list != [] && !NotAfter(m, list[0]) {
      PlacedKeepsKey(m, list[1..], key);
      assert Placed(m, list)[1..] == Placed(m, list[1..]);
    } else {
      assert ([m] + list)[1..] == list;
    }
  }

  lemma {:induction false} InOrderAt(list: seq<Marker>, i: nat, j: nat)
    requires InOrder(list) && i < j < |list|
    ensures NotAfter(list[i], list[j])
  {
    if i == 0 {
      assert list[1..][j - 1] == list[j] && list[j] in list[1..];
    } else {
      InOrderAt(list[1..], i - 1, j - 1);
    }
  }

  lemma {:induction false} SortedKeepsAll(list: seq<Marker>)
    ensures multiset(Sorted(list)) == multiset(list)
  {
    if list != [] {
      SortedKeepsAll(list[1..]);
      PlacedKeepsAll(list[0], Sorted(list[1..]));
      assert list == [list[0]] + list[1..];
    }
  }

  lemma {:induction false} PlacedKeepsAll(m: Marker, list: seq<Marker>)
    ensures multiset(Placed(m, list)) == multiset{m} + multiset(list)
  {
    if list != [] && !NotAfter(m, list[0]) {
      PlacedKeepsAll(m, list[1..]);
      assert list == [list[0]] + list[1..];
    }
  }

  /** Of two sorted markers the first has the smaller index; with one index, buys come first; then the time decides. */
  lemma SortedOrder(list: seq<Marker>, i: nat, j: nat)
    requires i < j < |Sorted(list)|
    ensures var a, b := Sorted(list)[i], Sorted(list)[j];
            && a.index <= b.index
            && (a.index == b.index && b.side == Buy ==> a.side == Buy)
            && (a.index == b.index && (a.side == Buy <==> b.side == Buy) ==> a.time <= b.time)
    ensures multiset(Sorted(list)) == multiset(list)
  {
    hide Sorted, InOrder;
    SortedKeepsAll(list);
    SortedIsSorted(list, Sorted(list)[i]);
    InOrderAt(Sorted(list), i, j);
  }

  // --------------------------------------------------------------- lot by lot

  predicate Priced(m: Marker) {
    m.price.Some? && m.price.value > 0.0
  }

  /** The price at which shares held before `list` leave: the first priced sell, else the close. */
  function ExitPrice(list: seq<Marker>, close: real): real {
    if list == [] then close
    else if Priced(list[0]) && list[0].side.Sell? then list[0].price.value
    else ExitPrice(list[1..], close)
  }

  /** Every priced buy is a lot of 100 shares, sold at its own exit price. */
  function LotProfit(list: seq<Marker>, close: real): real {
    if list == [] then 0.0
    else
      var rest := LotProfit(list[1..], close);
      if Priced(list[0]) && !list[0].side.Sell? then 100.0 * (ExitPrice(list[1..], close) - list[0].price.value) + rest else rest
  }

  function Cost(list: seq<Marker>): real {
    if list == [] then 0.0
    else if Priced(list[0]) && !list[0].side.Sell? then 100.0 * list[0].price.value + Cost(list[1..])
    else Cost(list[1..])
  }

  function Buys(list: seq<Marker>): nat {
    if list == [] then 0 else (if Priced(list[0]) && !list[0].side.Sell? then 1 else 0) + Buys(list[1..])
  }

  /** The buys since the last priced sell. */
  function OpenLots(list: seq<Marker>): nat {
    if list == [] then 0
    else
      var n, last := |list| - 1, list[|list| - 1];
      if !Priced(last) then OpenLots(list[..n]) else if last.side.Sell? then 0 else OpenLots(list[..n]) + 1
  }

  /** The priced sells that find shares to sell. */
  function AcceptedSells(list: seq<Marker>, holding: bool): nat {
    if list == [] then 0
    else if !Priced(list[0]) then AcceptedSells(list[1..], holding)
    else if list[0].side.Sell? then (if holding then 1 else 0) + AcceptedSells(list[1..], false)
    else AcceptedSells(list[1..], true)
  }

  /** The last point of the day, if it has a positive price. */
  function Close(points: seq<Option<real>>): real {
    if points != [] && points[|points| - 1].Some? && points[|points| - 1].value > 0.0 then points[|points| - 1].value else 0.0
  }

  /** The exit price is that of the first sell with a positive price. */
  lemma {:induction false} ExitPriceMeans(list: seq<Marker>, close: real, i: nat)
    requires i <= |list|
    requires forall j :: 0 <= j < i ==> !(list[j].side == Sell && list[j].price.Some? && list[j].price.value > 0.0)
    requires i < |list| ==> list[i].side == Sell && list[i].price.Some? && list[i].price.value > 0.0
    ensures ExitPrice(list, close) == if i < |list| then list[i].price.value else close
  {
    if i > 0 {
      ExitPriceMeans(list[1..], close, i - 1);
    }
  }

  lemma {:induction false} OnlyBuysCount(list: seq<Marker>, i: nat, close: real)
    requires i < |list| && forall j :: 0 <= j < i ==> list[j].price.None? || list[j].price.value <= 0.0 || list[j].side == Sell
    ensures LotProfit(list, close) == LotProfit(list[i..], close) && Cost(list) == Cost(list[i..]) && Buys(list) == Buys(list[i..])
  {
    if i > 0 {
      OnlyBuysCount(list[1..], i - 1, close);
      assert list[1..][i - 1..] == list[i..];
    } else {
      assert list[0..] == list;
    }
  }

  /** A buy adds a hundred shares that earn the difference to their exit price. */
  lemma LotMeans(list: seq<Marker>, close: real)
    requires list != [] && list[0].side != Sell && list[0].price.Some? && list[0].price.value > 0.0
    ensures LotProfit(list, close) == 100.0 * (ExitPrice(list[1..], close) - list[0].price.value) + LotProfit(list[1..], close)
    ensures Cost(list) == 100.0 * list[0].price.value + Cost(list[1..]) && Buys(list) == 1 + Buys(list[1..])
  {
  }

  predicate BoughtAt(list: seq<Marker>, i: nat) {
    i < |list| && list[i].side != Sell && list[i].price.Some? && list[i].price.value > 0.0
  }

  predicate SoldAt(list: seq<Marker>, i: nat) {
    i < |list| && list[i].side == Sell && list[i].price.Some? && list[i].price.value > 0.0
  }

  /** Shares are left over exactly when a buy comes after the last sell. */
  lemma {:induction false} OpenLotsMeans(list: seq<Marker>)
    ensures OpenLots(list) > 0 <==> exists i: nat :: BoughtAt(list, i) && forall j: nat :: SoldAt(list, j) ==> j < i
  {
    if list != [] {
      var n := |list| - 1;
      var before := list[..n];
      OpenLotsMeans(before);
      assert forall j: nat :: j < n ==> (SoldAt(list, j) <==> SoldAt(before, j)) && (BoughtAt(list, j) <==> BoughtAt(before, j));
      if OpenLots(before) > 0 {
        var i: nat :| BoughtAt(before, i) && forall j: nat :: SoldAt(before, j) ==> j < i;
        assert BoughtAt(list, i);
      }
      if BoughtAt(list, n) {
        assert forall j: nat :: SoldAt(list, j) ==> j < n;
      }
      if i: nat :| BoughtAt(list, i) && i < n && forall j: nat :: SoldAt(list, j) ==> j < i {
        assert BoughtAt(before, i);
        assert !SoldAt(list, n);
        assert forall j: nat :: SoldAt(before, j) ==> SoldAt(list, j);
      }
    }
  }

  /** Ten and twelve bought, both sold at fifteen; eleven bought and left to the close at thirteen. */
  lemma FourMarkers()
    ensures
      var markers := [Marker(2, Sell, 0, Some(15.0)), Marker(0, Buy, 7, Some(10.0)), Marker(2, Buy, 9, Some(12.0)), Marker(3, Buy, 0, Some(11.0))];
      var sorted := Sorted(markers);
      && sorted == [markers[1], markers[2], markers[0], markers[3]]
      && LotProfit(sorted, 13.0) == 1000.0 && Cost(sorted) == 3300.0 && Buys(sorted) == 3
      && OpenLots(sorted) == 1 && AcceptedSells(sorted, false) == 1
      && Close([None, Some(13.0)]) == 13.0
  {
    var sell, first, second, third := Marker(2, Sell, 0, Some(15.0)), Marker(0, Buy, 7, Some(10.0)), Marker(2, Buy, 9, Some(12.0)), Marker(3, Buy, 0, Some(11.0));
    FourSorted(sell, first, second, third);
    FourAccounted(sell, first, second, third);
  }

  lemma FourSorted(sell: Marker, first: Marker, second: Marker, third: Marker)
    requires sell.index == 2 && sell.side == Sell && first.index == 0 && second.index == 2 && second.side == Buy && third.index == 3
    ensures Sorted([sell, first, second, third]) == [first, second, sell, third]
  {
    assert [sell, first, second, third][1..] == [first, second, third] && [first, second, third][1..] == [second, third];
    assert [second, third][1..] == [third];
    assert Sorted([third]) == [third];
    assert Sorted([second, third]) == [second, third];
    assert Sorted([first, second, third]) == [first, second, third];
    assert Placed(sell, [third]) == [sell, third];
    assert Placed(sell, [second, third]) == [second, sell, third];
  }

  lemma FourAccounted(sell: Marker, first: Marker, second: Marker, third: Marker)
    requires sell.side == Sell && sell.price == Some(15.0)
    requires first.side == Buy == second.side == third.side
    requires first.price == Some(10.0) && second.price == Some(12.0) && third.price == Some(11.0)
    ensures
      var sorted := [first, second, sell, third];
      LotProfit(sorted, 13.0) == 1000.0 && Cost(sorted) == 3300.0 && Buys(sorted) == 3
      && OpenLots(sorted) == 1 && AcceptedSells(sorted, false) == 1
  {
    var sorted, l3, l2, l1 := [first, second, sell, third], [second, sell, third], [sell, third], [third];
    assert sorted[1..] == l3 && l3[1..] == l2 && l2[1..] == l1 && |l1[1..]| == 0;
    assert LotProfit(l1, 13.0) == 200.0 && Cost(l1) == 1100.0 && Buys(l1) == 1 && AcceptedSells(l1, false) == 0;
    assert LotProfit(l2, 13.0) == 200.0 && Cost(l2) == 1100.0 && Buys(l2) == 1 && AcceptedSells(l2, true) == 1;
    assert LotProfit(l3, 13.0) == 500.0 && Cost(l3) == 2300.0 && Buys(l3) == 2 && AcceptedSells(l3, true) == 1;
    assert sorted[..3] == [first, second, sell];
    assert OpenLots(sorted[..3]) == 0;
  }

  method CalculateReplayPerformance(markers: seq<Marker>, points: seq<Option<real>>) returns (p: Performance, position: nat)
    ensures p.profit == LotProfit(Sorted(markers), Close(points))
    ensures p.buyCost == Cost(Sorted(markers)) && p.buyCount == Buys(Sorted(markers))
    ensures p.profit == p.sellProceeds - p.buyCost
    ensures p.forcedExit == if OpenLots(Sorted(markers)) > 0 && Close(points) > 0.0 then Some(Close(points)) else None
    ensures p.sellCount == AcceptedSells(Sorted(markers), false) + if p.forcedExit.Some? then 1 else 0
    ensures position == if p.forcedExit.Some? then 0 else 100 * OpenLots(Sorted(markers))
    ensures p.returnPct == if p.buyCost == 0.0 then None else Some((p.sellProceeds / p.buyCost - 1.0) * 100.0)
  {
    hide Sorted, LotProfit, ExitPrice, Cost, Buys, OpenLots, AcceptedSells;
    var ordered := Sorted(markers);
    ghost var close := Close(points);
    position := 0;
    var buyCost, sellProceeds := 0.0, 0.0;
    var buyCount, sellCount := 0, 0;
    Bounds(ordered, close);
    for i := 0 to |ordered|
      invariant position == 100 * OpenLots(ordered[..i])
      invariant buyCost + Cost(ordered[i..]) == Cost(ordered) && buyCount + Buys(ordered[i..]) == Buys(ordered)
      invariant sellCount + AcceptedSells(ordered[i..], position > 0) == AcceptedSells(ordered, false)
      invariant sellProceeds - buyCost + position as real * ExitPrice(ordered[i..], close) + LotProfit(ordered[i..], close) == LotProfit(ordered, close)
    {
      OneMarker(ordered, i, close);
      OneSell(ordered, i, position > 0);
      var marker := ordered[i];
      if marker.price.None? || marker.price.value <= 0.0 {
        continue;
      }
      var price := marker.price.value;
      if marker.side.Sell? {
        if position <= 0 {
          continue;
        }
        sellProceeds := sellProceeds + position as real * price;
        sellCount := sellCount + 1;
        position := 0;
        continue;
      }
      AnotherLot(position, ExitPrice(ordered[i + 1..], close), price);
      position := position + 100;
      buyCost := buyCost + 100.0 * price;
      buyCount := buyCount + 1;
    }
    var forcedExit := None;
    if position > 0 && points != [] {
      var final := points[|points| - 1];
      if final.Some? && final.value > 0.0 {
        sellProceeds := sellProceeds + position as real * final.value;
        sellCount := sellCount + 1;
        forcedExit := Some(final.value);
        position := 0;
      }
    }
    p := Performance(buyCount, sellCount, buyCost, sellProceeds, sellProceeds - buyCost,
                     if buyCost == 0.0 then None else Some((sellProceeds / buyCost - 1.0) * 100.0), forcedExit);
  }

  /** 100 more shares leave at the exit price. */
  lemma AnotherLot(position: nat, exit: real, price: real)
    ensures (position + 100) as real * exit - 100.0 * price == position as real * exit + 100.0 * (exit - price)
  {
  }

  lemma Bounds(list: seq<Marker>, close: real)
    ensures list[0..] == list && list[..0] == [] && list[..|list|] == list && list[|list|..] == []
    ensures OpenLots([]) == 0 && Cost([]) == 0.0 && Buys([]) == 0 && AcceptedSells([], true) == 0 == AcceptedSells([], false) && ExitPrice([], close) == close && LotProfit([], close) == 0.0
  {
  }

  lemma OneSell(list: seq<Marker>, i: nat, holding: bool)
    requires i < |list|
    ensures
      var m, rest := list[i], list[i + 1..];
      AcceptedSells(list[i..], holding)
      == if !Priced(m) then AcceptedSells(rest, holding)
         else if m.side.Sell? then (if holding then 1 else 0) + AcceptedSells(rest, false)
         else AcceptedSells(rest, true)
  {
    assert list[i..][1..] == list[i + 1..];
  }

  /** What the i-th marker contributes, from both ends. */
  lemma OneMarker(list: seq<Marker>, i: nat, close: real)
    requires i < |list|
    ensures
      var m, here, rest := list[i], list[i..], list[i + 1..];
      if !Priced(m) then
        OpenLots(list[..i + 1]) == OpenLots(list[..i]) && Cost(here) == Cost(rest) && Buys(here) == Buys(rest)
        && ExitPrice(here, close) == ExitPrice(rest, close) && LotProfit(here, close) == LotProfit(rest, close)
      else if m.side.Sell? then
        OpenLots(list[..i + 1]) == 0 && Cost(here) == Cost(rest) && Buys(here) == Buys(rest)
        && ExitPrice(here, close) == m.price.value && LotProfit(here, close) == LotProfit(rest, close)
      else
        OpenLots(list[..i + 1]) == OpenLots(list[..i]) + 1 && Cost(here) == 100.0 * m.price.value + Cost(rest) && Buys(here) == 1 + Buys(rest)
        && ExitPrice(here, close) == ExitPrice(rest, close)
        && LotProfit(here, close) == 100.0 * (ExitPrice(rest, close) - m.price.value) + LotProfit(rest, close)
  {
    assert list[i..][1..] == list[i + 1..] && list[..i + 1][..i] == list[..i];
  }
}
