/** Three MACD implementations over the reals, before rounding, and prefix-sum moving averages. */
module Macd {
  import opened Wrappers

  // ------------------------------------------------------------ definitions

  /** The exponential moving average with weight 2/(span+1), started at the first value. */
  function Ema(values: seq<real>, span: nat, i: nat): real
    requires i < |values|
  {
    if i == 0 then values[0]
    else Ema(values, span, i - 1) + (values[i] - Ema(values, span, i - 1)) * (2.0 / (span + 1) as real)
  }

  function Difs(values: seq<real>, short: nat, long: nat): (r: seq<real>)
    ensures |r| == |values|
  {
    seq(|values|, i requires 0 <= i < |values| => Ema(values, short, i) - Ema(values, long, i))
  }

  /** One row: the difference of two averages, its own average, and twice their distance. */
  datatype Point = Point(dif: real, dea: real, hist: real)

  function MacdAt(values: seq<real>, short: nat, long: nat, signal: nat, i: nat): Point
    requires i < |values|
  {
    var difs := Difs(values, short, long);
    Point(difs[i], Ema(difs, signal, i), 2.0 * (difs[i] - Ema(difs, signal, i)))
  }

  ghost predicate IsMacd(points: seq<Point>, values: seq<real>, short: nat, long: nat, signal: nat) {
    |points| == |values| && forall i :: 0 <= i < |values| ==> points[i] == MacdAt(values, short, long, signal, i)
  }

  // --------------------------------------------------------------- properties

  /** A weighted mean of two numbers lies between them. */
  lemma Between(a: real, b: real, w: real, low: real, high: real)
    requires 0.0 <= w <= 1.0 && low <= a <= high && low <= b <= high
    ensures low <= a + (b - a) * w <= high
  {
    var u := 1.0 - w;
    NotNegative(a - low, u);
    NotNegative(b - low, w);
    NotNegative(high - a, u);
    NotNegative(high - b, w);
    assert a + (b - a) * w - low == (a - low) * u + (b - low) * w;
    assert high - (a + (b - a) * w) == (high - a) * u + (high - b) * w;
  }

  lemma NotNegative(x: real, y: real)
    requires 0.0 <= x && 0.0 <= y
    ensures 0.0 <= x * y
  {
  }

  /** An average stays between bounds of the values so far. */
  lemma {:induction false} EmaStaysBetween(values: seq<real>, span: nat, i: nat, low: real, high: real)
    requires 1 <= span && i < |values| && forall j :: 0 <= j <= i ==> low <= values[j] <= high
    ensures low <= Ema(values, span, i) <= high
  {
    if i > 0 {
      EmaStaysBetween(values, span, i - 1, low, high);
      WeightIsFraction(span);
      Between(Ema(values, span, i - 1), values[i], 2.0 / (span + 1) as real, low, high);
    }
  }

  lemma WeightIsFraction(span: nat)
    requires 1 <= span
    ensures 0.0 < 2.0 / (span + 1) as real <= 1.0
  {
  }

  /** Moving all prices by the same amount does not move the indicator. */
  lemma ShiftChangesNothing(values: seq<real>, moved: seq<real>, shift: real, short: nat, long: nat, signal: nat, i: nat)
    requires |moved| == |values| && i < |values| && forall j :: 0 <= j < |values| ==> moved[j] == values[j] + shift
    ensures MacdAt(moved, short, long, signal, i) == MacdAt(values, short, long, signal, i)
  {
    forall j | 0 <= j < |values|
      ensures Difs(moved, short, long)[j] == Difs(values, short, long)[j]
    {
      EmaMoves(values, moved, shift, short, j);
      EmaMoves(values, moved, shift, long, j);
    }
    assert Difs(moved, short, long) == Difs(values, short, long);
  }

  lemma {:induction false} EmaMoves(values: seq<real>, moved: seq<real>, shift: real, span: nat, i: nat)
    requires |moved| == |values| && i < |values| && forall j :: 0 <= j < |values| ==> moved[j] == values[j] + shift
    ensures Ema(moved, span, i) == Ema(values, span, i) + shift
  {
    if i > 0 {
      EmaMoves(values, moved, shift, span, i - 1);
    }
  }

  // ---------------------------------------------- the list form (_ema, alpha)

  method EmaList(values: seq<real>, span: nat) returns (r: seq<real>)
    ensures |r| == |values| && forall i :: 0 <= i < |r| ==> r[i] == Ema(values, span, i)
  {
    if values == [] {
      return [];
    }
    var alpha := 2.0 / (span + 1) as real;
    r := [values[0]];
    for k := 1 to |values|
      invariant |r| == k && forall i :: 0 <= i < k ==> r[i] == Ema(values, span, i)
    {
      var last := r[k - 1];
      Mix(values[k], last, alpha);
      r := r + [alpha * values[k] + (1.0 - alpha) * last];
    }
  }

  lemma Mix(v: real, last: real, alpha: real)
    ensures alpha * v + (1.0 - alpha) * last == last + (v - last) * alpha
  {
  }

  method CalculateMacd(prices: seq<real>, short: int, long: int, signal: int) returns (r: Result<seq<Point>, ()>)
    ensures r.Err? <==> prices != [] && !(1 <= short < long && 1 <= signal)
    ensures r.Ok? && prices == [] ==> r.value == []
    ensures r.Ok? && prices != [] ==> IsMacd(r.value, prices, short, long, signal)
  {
    if prices == [] {
      return Ok([]);
    }
    if short < 1 || long <= short || signal < 1 {
      return Err(());
    }
    var shortEma := EmaList(prices, short);
    var longEma := EmaList(prices, long);
    var diff := seq(|prices|, i requires 0 <= i < |prices| && |shortEma| == |longEma| == |prices| => shortEma[i] - longEma[i]);
    assert diff == Difs(prices, short, long);
    var dea := EmaList(diff, signal);
    r := Ok(seq(|prices|, i requires 0 <= i < |prices| && |dea| == |diff| == |prices| => Point(diff[i], dea[i], 2.0 * (diff[i] - dea[i]))));
  }

  // ----------------------------------- the incremental 12/26/9 form of daily bars

  method DailyMacd(closes: seq<real>) returns (points: seq<Point>)
    ensures IsMacd(points, closes, 12, 26, 9)
  {
    points := [];
    if closes == [] {
      return;
    }
    var ema12, ema26, dea := closes[0], closes[0], 0.0;
    ghost var difs := Difs(closes, 12, 26);
    for index := 0 to |closes|
      invariant |points| == index
      invariant if index == 0 then ema12 == ema26 == closes[0] && dea == 0.0
                else ema12 == Ema(closes, 12, index - 1) && ema26 == Ema(closes, 26, index - 1) && dea == Ema(difs, 9, index - 1)
      invariant forall i :: 0 <= i < index ==> points[i] == MacdAt(closes, 12, 26, 9, i)
    {
      if index > 0 {
        ema12 := ema12 + (closes[index] - ema12) * (2.0 / 13.0);
        ema26 := ema26 + (closes[index] - ema26) * (2.0 / 27.0);
      }
      var dif := ema12 - ema26;
      if index > 0 {
        dea := dea + (dif - dea) * (2.0 / 10.0);
      }
      points := points + [Point(dif, dea, 2.0 * (dif - dea))];
    }
  }

  // ------------------------------------- the curve form, with prices filled in

  function Filled(prices: seq<Option<real>>, fallback: real, i: nat): real
    requires i < |prices|
  {
    if prices[i].Some? then prices[i].value else if i == 0 then fallback else Filled(prices, fallback, i - 1)
  }

  function FilledPrices(prices: seq<Option<real>>, fallback: real): (r: seq<real>)
    ensures |r| == |prices|
  {
    seq(|prices|, i requires 0 <= i < |prices| => Filled(prices, fallback, i))
  }

  function Smoothed(value: real, period: nat, previous: real): real {
    (value * 2.0 + (period - 1) as real * previous) / (period + 1) as real
  }

  /** The third way to write one step of the average. */
  lemma SmoothedIsEma(value: real, period: nat, previous: real)
    ensures Smoothed(value, period, previous) == previous + (value - previous) * (2.0 / (period + 1) as real)
  {
    var d := (period + 1) as real;
    assert (period - 1) as real == d - 2.0;
    assert value * 2.0 + (d - 2.0) * previous == previous * d + (value - previous) * 2.0;
    assert (previous * d + (value - previous) * 2.0) / d == previous + (value - previous) * 2.0 / d;
    assert (value - previous) * 2.0 / d == (value - previous) * (2.0 / d);
  }

  /** The averages after `i` values; before the first they are not read. */
  ghost predicate Averages(filled: seq<real>, short: nat, long: nat, signal: nat, i: nat, emaShort: real, emaLong: real, dea: real) {
    0 < i <= |filled| ==>
      emaShort == Ema(filled, short, i - 1) && emaLong == Ema(filled, long, i - 1) && dea == Ema(Difs(filled, short, long), signal, i - 1)
  }

  /** One round of the curve loop: the first one takes the price itself as previous average. */
  lemma CurveStep(filled: seq<real>, short: nat, long: nat, signal: nat, i: nat, emaShort: real, emaLong: real, dea: real)
    requires i < |filled| && Averages(filled, short, long, signal, i, emaShort, emaLong, dea)
    ensures
      var price := filled[i];
      var s := Smoothed(price, short, if i == 0 then price else emaShort);
      var l := Smoothed(price, long, if i == 0 then price else emaLong);
      var d := Smoothed(s - l, signal, if i == 0 then s - l else dea);
      Averages(filled, short, long, signal, i + 1, s, l, d) && MacdAt(filled, short, long, signal, i).hist == (s - l - d) * 2.0
  {
    hide Smoothed;
    var price := filled[i];
    SmoothedIsEma(price, short, if i == 0 then price else emaShort);
    SmoothedIsEma(price, long, if i == 0 then price else emaLong);
    var s := Smoothed(price, short, if i == 0 then price else emaShort);
    var l := Smoothed(price, long, if i == 0 then price else emaLong);
    assert s == Ema(filled, short, i) && l == Ema(filled, long, i);
    SmoothedIsEma(s - l, signal, if i == 0 then s - l else dea);
  }

  method CurveMacd(prices: seq<Option<real>>, fallback: real, short: nat, long: nat, signal: nat) returns (r: Option<seq<real>>)
    ensures r.None? <==> prices == []
    ensures r.Some? ==> |r.value| == |prices|
    ensures r.Some? ==> forall i :: 0 <= i < |prices| ==> r.value[i] == MacdAt(FilledPrices(prices, fallback), short, long, signal, i).hist
  {
    hide Smoothed, Averages, MacdAt;
    if prices == [] {
      return None;
    }
    ghost var filled := FilledPrices(prices, fallback);
    var previousPrice, emaShort, emaLong, dea := fallback, fallback, fallback, 0.0;
    var result: seq<real> := [];
    NothingYet(filled, short, long, signal, emaShort, emaLong, dea);
    for index := 0 to |prices|
      invariant |result| == index
      invariant previousPrice == if index == 0 then fallback else filled[index - 1]
      invariant Averages(filled, short, long, signal, index, emaShort, emaLong, dea)
      invariant forall i :: 0 <= i < index ==> result[i] == MacdAt(filled, short, long, signal, i).hist
    {
      var price := if prices[index].Some? then prices[index].value else previousPrice;
      assert price == filled[index];
      CurveStep(filled, short, long, signal, index, emaShort, emaLong, dea);
      emaShort := Smoothed(price, short, if index == 0 then price else emaShort);
      emaLong := Smoothed(price, long, if index == 0 then price else emaLong);
      var diff := emaShort - emaLong;
      dea := Smoothed(diff, signal, if index == 0 then diff else dea);
      result := result + [(diff - dea) * 2.0];
      previousPrice := price;
    }
    r := Some(result);
  }

  lemma NothingYet(filled: seq<real>, short: nat, long: nat, signal: nat, emaShort: real, emaLong: real, dea: real)
    ensures Averages(filled, short, long, signal, 0, emaShort, emaLong, dea)
  {
  }

  /** On complete prices with the standard settings the three implementations agree. */
  method ThreeFormsAgree(prices: seq<real>, fallback: real) returns (daily: seq<Point>, listed: seq<Point>, curve: seq<real>)
    requires prices != []
    ensures daily == listed && |curve| == |prices| == |daily| && forall i :: 0 <= i < |prices| ==> curve[i] == daily[i].hist
  {
    daily := DailyMacd(prices);
    var r := CalculateMacd(prices, 12, 26, 9);
    listed := r.value;
    var known := seq(|prices|, i requires 0 <= i < |prices| => Some(prices[i]));
    assert FilledPrices(known, fallback) == prices;
    var c := CurveMacd(known, fallback, 12, 26, 9);
    curve := c.value;
  }

  // ------------------------------------------------ prefix-sum moving averages

  function Sum(values: seq<real>): real {
    if values == [] then 0.0 else Sum(values[..|values| - 1]) + values[|values| - 1]
  }

  lemma {:induction false} SumConcat(a: seq<real>, b: seq<real>)
    ensures Sum(a + b) == Sum(a) + Sum(b)
  {
    if b == [] {
      assert a + b == a;
    } else {
      var n := |b| - 1;
      assert (a + b)[..|a + b| - 1] == a + b[..n];
      SumConcat(a, b[..n]);
    }
  }

  lemma WindowSum(closes: seq<real>, window: nat, i: nat)
    requires window <= i + 1 <= |closes|
    ensures Sum(closes[..i + 1]) - Sum(closes[..i + 1 - window]) == Sum(closes[i + 1 - window..i + 1])
  {
    assert closes[..i + 1] == closes[..i + 1 - window] + closes[i + 1 - window..i + 1];
    SumConcat(closes[..i + 1 - window], closes[i + 1 - window..i + 1]);
  }

  method PrefixSums(closes: seq<real>) returns (prefix: seq<real>)
    ensures |prefix| == |closes| + 1 && forall i :: 0 <= i <= |closes| ==> prefix[i] == Sum(closes[..i])
  {
    prefix := [0.0];
    for k := 0 to |closes|
      invariant |prefix| == k + 1 && forall i :: 0 <= i <= k ==> prefix[i] == Sum(closes[..i])
    {
      assert closes[..k + 1][..k] == closes[..k];
      prefix := prefix + [prefix[k] + closes[k]];
    }
  }

  /** None until the window is full, then the mean of the last `window` closes. */
  function MeanAt(closes: seq<real>, window: nat, i: nat): Option<real>
    requires window >= 1 && i < |closes|
  {
    if i + 1 < window then None else Some(Sum(closes[i + 1 - window..i + 1]) / window as real)
  }

  method MovingAverage(closes: seq<real>, window: nat) returns (values: seq<Option<real>>)
    requires window >= 1
    ensures |values| == |closes| && forall i :: 0 <= i < |closes| ==> values[i] == MeanAt(closes, window, i)
  {
    hide Sum;
    var prefix := PrefixSums(closes);
    values := seq(|closes|, _ => None);
    if |closes| < window {
      return;
    }
    for index := window - 1 to |closes|
      invariant |values| == |closes|
      invariant forall i :: 0 <= i < index ==> values[i] == MeanAt(closes, window, i)
    {
      WindowSum(closes, window, index);
      values := values[index := Some((prefix[index + 1] - prefix[index + 1 - window]) / window as real)];
    }
  }

  // ------------------------------------------------------------ in plain sums

  /** The recurrence without division: each value weighs two, the average before it the rest of span + 1. */
  lemma EmaMeans(values: seq<real>, span: nat, i: nat)
    requires i < |values|
    ensures i == 0 ==> Ema(values, span, i) == values[0]
    ensures i > 0 ==> (span + 1) as real * Ema(values, span, i) == 2.0 * values[i] + (span as real - 1.0) * Ema(values, span, i - 1)
  {
    if i > 0 {
      var n, before := (span + 1) as real, Ema(values, span, i - 1);
      assert n * (2.0 / n) == 2.0;
      assert n * ((values[i] - before) * (2.0 / n)) == (values[i] - before) * (n * (2.0 / n));
    }
  }

  /** A jump from 0 to 351 under the settings 12/26/9. */
  lemma JumpOf351()
    ensures MacdAt([0.0, 351.0], 12, 26, 9, 0) == Point(0.0, 0.0, 0.0) && MacdAt([0.0, 351.0], 12, 26, 9, 1) == Point(28.0, 5.6, 44.8)
  {
    var prices := [0.0, 351.0];
    EmaMeans(prices, 12, 1);
    EmaMeans(prices, 26, 1);
    var difs := Difs(prices, 12, 26);
    assert difs[0] == 0.0 && difs[1] == 28.0;
    EmaMeans(difs, 9, 1);
  }

  /** A missing price is the one before it, or the fallback at the start. */
  lemma FilledMeans(prices: seq<Option<real>>, fallback: real, i: nat, known: nat)
    requires known <= i < |prices| && forall j :: known < j <= i ==> prices[j].None?
    ensures prices[known].Some? ==> Filled(prices, fallback, i) == prices[known].value
    ensures known == 0 && prices[0].None? ==> Filled(prices, fallback, i) == fallback
  {
    if known < i {
      FilledMeans(prices, fallback, i - 1, known);
    }
  }

  /** Three closes and a window of two. */
  lemma WindowOfTwo(a: real, b: real, c: real)
    ensures MeanAt([a, b, c], 2, 0) == None && MeanAt([a, b, c], 2, 1) == Some((a + b) / 2.0) && MeanAt([a, b, c], 2, 2) == Some((b + c) / 2.0)
  {
    var closes := [a, b, c];
    assert closes[0..2] == [a, b] && closes[1..3] == [b, c];
    PairSum(a, b);
    PairSum(b, c);
  }

  lemma PairSum(a: real, b: real)
    ensures Sum([a, b]) == a + b
  {
    assert [a, b][..1] == [a] && [a][..0] == [];
    assert Sum([a]) == a;
  }
}
