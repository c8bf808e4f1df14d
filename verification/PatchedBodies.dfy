/**
 What a patched request packet asks for, byte by byte: the template symbol is
 taken out of the body where it occurs and the requested symbol is put in.
 */
module PatchedBodies {
  import opened Wrappers
  import opened Bytes
  import opened CorePacket
  import Base64 = CoreBase64

  // ---------------------------------------------------------------- spellings

  /** How a symbol is written in a body: a byte a digit, or two bytes with the zero in front or behind. */
  datatype Spelling = OneByte | ZeroFirst | ZeroLast

  ghost predicate Spells(how: Spelling, symbol: Symbol, s: seq<byte>) {
    match how
    case OneByte => |s| == |symbol| && forall i :: 0 <= i < |symbol| ==> s[i] == symbol[i]
    case ZeroFirst => |s| == 2 * |symbol| && forall i :: 0 <= i < |symbol| ==> s[2 * i] == 0 && s[2 * i + 1] == symbol[i]
    case ZeroLast => |s| == 2 * |symbol| && forall i :: 0 <= i < |symbol| ==> s[2 * i] == symbol[i] && s[2 * i + 1] == 0
  }

  function Spelt(how: Spelling, symbol: Symbol): seq<byte>
    requires Ascii(symbol)
  {
    match how
    case OneByte => AsciiBytes(symbol)
    case ZeroFirst => Utf16BigEndian(symbol)
    case ZeroLast => Utf16LittleEndian(symbol)
  }

  lemma {:induction false} OneByteSpells(symbol: Symbol)
    requires Ascii(symbol)
    ensures Spells(OneByte, symbol, AsciiBytes(symbol))
  {
    if symbol != [] {
      AsciiTail(symbol);
      OneByteSpells(symbol[1..]);
      forall i | 0 < i < |symbol| ensures AsciiBytes(symbol)[i] == symbol[i] {
        assert AsciiBytes(symbol[1..])[i - 1] == symbol[1..][i - 1];
      }
    }
  }

  lemma {:induction false} ZeroFirstSpells(symbol: Symbol)
    requires Ascii(symbol)
    ensures Spells(ZeroFirst, symbol, Utf16BigEndian(symbol))
  {
    if symbol != [] {
      AsciiTail(symbol);
      var rest := symbol[1..];
      ZeroFirstSpells(rest);
      forall i | 0 <= i < |symbol| ensures Utf16BigEndian(symbol)[2 * i] == 0 && Utf16BigEndian(symbol)[2 * i + 1] == symbol[i] {
        if i > 0 {
          var j := i - 1;
          assert Utf16BigEndian(rest)[2 * j] == 0 && Utf16BigEndian(rest)[2 * j + 1] == rest[j];
        }
      }
    }
  }

  lemma {:induction false} ZeroLastSpells(symbol: Symbol)
    requires Ascii(symbol)
    ensures Spells(ZeroLast, symbol, Utf16LittleEndian(symbol))
  {
    if symbol != [] {
      AsciiTail(symbol);
      var rest := symbol[1..];
      ZeroLastSpells(rest);
      forall i | 0 <= i < |symbol| ensures Utf16LittleEndian(symbol)[2 * i] == symbol[i] && Utf16LittleEndian(symbol)[2 * i + 1] == 0 {
        if i > 0 {
          var j := i - 1;
          assert Utf16LittleEndian(rest)[2 * j] == rest[j] && Utf16LittleEndian(rest)[2 * j + 1] == 0;
        }
      }
    }
  }

  lemma SpeltSpells(how: Spelling, symbol: Symbol)
    requires Ascii(symbol)
    ensures Spells(how, symbol, Spelt(how, symbol))
  {
    hide Spells;
    OneByteSpells(symbol);
    ZeroFirstSpells(symbol);
    ZeroLastSpells(symbol);
  }

  /** The bytes of one position. */
  lemma SpeltByte(how: Spelling, symbol: Symbol, s: seq<byte>, i: nat)
    requires Spells(how, symbol, s) && i < |s|
    ensures how.OneByte? ==> i < |symbol| && s[i] == symbol[i]
    ensures how.ZeroFirst? ==> i / 2 < |symbol| && s[i] == if i % 2 == 0 then 0 else symbol[i / 2]
    ensures how.ZeroLast? ==> i / 2 < |symbol| && s[i] == if i % 2 == 0 then symbol[i / 2] else 0
  {
    if how != OneByte {
      var h := i / 2;
      assert i == 2 * h || i == 2 * h + 1;
      assert h < |symbol|;
      assert s[2 * h + 1] == s[2 * h + 1];
    }
  }

  lemma SpellsLength(how: Spelling, symbol: Symbol, s: seq<byte>)
    requires Spells(how, symbol, s)
    ensures |s| == if how.OneByte? then |symbol| else 2 * |symbol|
  {
  }

  lemma SpellsOneString(how: Spelling, symbol: Symbol, s: seq<byte>, s': seq<byte>)
    requires Spells(how, symbol, s) && Spells(how, symbol, s')
    ensures s == s'
  {
    hide Spells;
    SpellsLength(how, symbol, s);
    SpellsLength(how, symbol, s');
    forall i | 0 <= i < |s| ensures s[i] == s'[i] {
      SpeltByte(how, symbol, s, i);
      SpeltByte(how, symbol, s', i);
    }
  }

  lemma SpellingIsSpelt(how: Spelling, symbol: Symbol, s: seq<byte>)
    requires Ascii(symbol) && Spells(how, symbol, s)
    ensures s == Spelt(how, symbol)
  {
    hide Spells;
    SpeltSpells(how, symbol);
    SpellsOneString(how, symbol, s, Spelt(how, symbol));
  }

  // -------------------------------------------------------------- occurrences

  predicate OccursAt(s: seq<byte>, target: seq<byte>, i: nat) {
    i + |target| <= |s| && s[i..i + |target|] == target
  }

  lemma OccursHere(s: seq<byte>, target: seq<byte>)
    ensures OccursAt(s, target, 0) <==> |s| >= |target| && s[..|target|] == target
  {
  }

  lemma OccursLength(s: seq<byte>, target: seq<byte>, i: nat)
    requires OccursAt(s, target, i)
    ensures i + |target| <= |s|
  {
  }

  lemma OccursInTail(s: seq<byte>, target: seq<byte>, i: nat)
    requires s != []
    ensures OccursAt(s[1..], target, i) <==> OccursAt(s, target, i + 1)
  {
    if i + 1 + |target| <= |s| {
      assert s[1..][i..i + |target|] == s[i + 1..i + 1 + |target|];
    }
  }

  lemma OccursBehind(head: seq<byte>, s: seq<byte>, target: seq<byte>, i: nat)
    ensures OccursAt(s, target, i) <==> OccursAt(head + s, target, |head| + i)
  {
    if i + |target| <= |s| {
      assert (head + s)[|head| + i..|head| + i + |target|] == s[i..i + |target|];
    }
  }

  lemma {:induction false} ContainsMeans(s: seq<byte>, target: seq<byte>)
    ensures Contains(s, target) <==> exists i: nat :: OccursAt(s, target, i)
  {
    if |s| >= |target| {
      if s[..|target|] == target {
        assert OccursAt(s, target, 0);
      } else if s != [] {
        ContainsMeans(s[1..], target);
        if i: nat :| OccursAt(s[1..], target, i) {
          OccursInTail(s, target, i);
        }
        if i: nat :| OccursAt(s, target, i) {
          OccursInTail(s, target, i - 1);
        }
      }
    }
  }

  lemma {:induction false} ReplaceNothing(s: seq<byte>, target: seq<byte>, replacement: seq<byte>)
    requires |target| > 0 && !Contains(s, target)
    ensures Replace(s, target, replacement) == s
  {
    if |s| >= |target| {
      ReplaceNothing(s[1..], target, replacement);
    }
  }

  /** The parts of `s` between the occurrences of `target`, taken from the left without overlap. */
  ghost predicate SplitBy(s: seq<byte>, target: seq<byte>, pieces: seq<seq<byte>>) {
    && |pieces| > 0
    && if |pieces| == 1 then s == pieces[0] && forall i: nat :: !OccursAt(s, target, i)
       else
         var n := |pieces[0]|;
         && OccursAt(s, target, n) && s[..n] == pieces[0] && (forall i: nat :: i < n ==> !OccursAt(s, target, i))
         && SplitBy(s[n + |target|..], target, pieces[1..])
  }

  function Joined(pieces: seq<seq<byte>>, between: seq<byte>): seq<byte> {
    if pieces == [] then [] else if |pieces| == 1 then pieces[0] else pieces[0] + between + Joined(pieces[1..], between)
  }

  lemma ReplaceHere(s: seq<byte>, target: seq<byte>, replacement: seq<byte>)
    requires |target| > 0 && |s| >= |target|
    ensures Replace(s, target, replacement)
         == if OccursAt(s, target, 0) then replacement + Replace(s[|target|..], target, replacement)
            else [s[0]] + Replace(s[1..], target, replacement)
  {
    OccursHere(s, target);
  }

  lemma {:induction false} SkipToOccurrence(s: seq<byte>, target: seq<byte>, replacement: seq<byte>, n: nat)
    requires |target| > 0 && OccursAt(s, target, n) && forall i: nat :: i < n ==> !OccursAt(s, target, i)
    ensures n + |target| <= |s|
    ensures Replace(s, target, replacement) == s[..n] + replacement + Replace(s[n + |target|..], target, replacement)
    decreases n
  {
    hide OccursAt, Replace;
    OccursLength(s, target, n);
    ReplaceHere(s, target, replacement);
    var rest := Replace(s[n + |target|..], target, replacement);
    if n > 0 {
      OccursInTail(s, target, n - 1);
      forall i: nat | i < n - 1 ensures !OccursAt(s[1..], target, i) {
        OccursInTail(s, target, i);
      }
      SkipToOccurrence(s[1..], target, replacement, n - 1);
      assert s[1..][n - 1 + |target|..] == s[n + |target|..];
      OneMore(s, n, replacement + rest);
    } else {
      assert s[..0] + replacement == replacement;
    }
  }

  lemma OneMore(s: seq<byte>, n: nat, rest: seq<byte>)
    requires 0 < n <= |s|
    ensures [s[0]] + (s[1..][..n - 1] + rest) == s[..n] + rest
  {
  }

  /** Replacing puts the replacement between the same parts. */
  lemma {:induction false} ReplaceJoins(s: seq<byte>, target: seq<byte>, replacement: seq<byte>, pieces: seq<seq<byte>>)
    requires |target| > 0 && SplitBy(s, target, pieces)
    ensures Replace(s, target, replacement) == Joined(pieces, replacement)
    decreases |pieces|
  {
    hide Replace;
    if |pieces| == 1 {
      ContainsMeans(s, target);
      ReplaceNothing(s, target, replacement);
    } else {
      var n := |pieces[0]|;
      SkipToOccurrence(s, target, replacement, n);
      ReplaceJoins(s[n + |target|..], target, replacement, pieces[1..]);
    }
  }

  lemma {:induction false} SplitJoins(s: seq<byte>, target: seq<byte>, pieces: seq<seq<byte>>)
    requires SplitBy(s, target, pieces)
    ensures s == Joined(pieces, target)
    decreases |pieces|
  {
    if |pieces| > 1 {
      var n := |pieces[0]|;
      SplitJoins(s[n + |target|..], target, pieces[1..]);
      assert s == s[..n] + target + s[n + |target|..];
    }
  }

  /** Every body can be split in this way. */
  lemma {:induction false} SplitExists(s: seq<byte>, target: seq<byte>) returns (pieces: seq<seq<byte>>)
    requires |target| > 0
    ensures SplitBy(s, target, pieces) && (|pieces| >= 2 <==> Contains(s, target))
    decreases |s|
  {
    ContainsMeans(s, target);
    if i: nat :| OccursAt(s, target, i) {
      var n := FirstOccurrence(s, target, i);
      var rest := SplitExists(s[n + |target|..], target);
      pieces := [s[..n]] + rest;
      assert pieces[1..] == rest;
    } else {
      pieces := [s];
    }
  }

  lemma {:induction false} FirstOccurrence(s: seq<byte>, target: seq<byte>, i: nat) returns (n: nat)
    requires OccursAt(s, target, i)
    ensures OccursAt(s, target, n) && forall j: nat :: j < n ==> !OccursAt(s, target, j)
    decreases i
  {
    n := i;
    if j: nat :| j < i && OccursAt(s, target, j) {
      n := FirstOccurrence(s, target, j);
    }
  }

  /** A single occurrence splits a body in two. */
  lemma TheOnlyOneSplits(a: seq<byte>, target: seq<byte>, b: seq<byte>)
    requires |target| > 0 && forall i: nat :: OccursAt(a + target + b, target, i) ==> i == |a|
    ensures SplitBy(a + target + b, target, [a, b])
  {
    var s := a + target + b;
    assert s[|a|..|a| + |target|] == target && s[..|a|] == a && s[|a| + |target|..] == b;
    forall i: nat ensures !OccursAt(b, target, i) {
      OccursBehind(a + target, b, target, i);
    }
    assert [a, b][1..] == [b];
  }

  // ------------------------------------------------------------ one direction

  /** The first byte that differs is smaller. */
  ghost predicate Less(s: seq<byte>, s': seq<byte>) {
    |s| == |s'| && exists p :: 0 <= p < |s| && s[p] < s'[p] && s[..p] == s'[..p]
  }

  lemma LessIsTransitive(s: seq<byte>, s': seq<byte>, s'': seq<byte>)
    requires Less(s, s') && Less(s', s'')
    ensures Less(s, s'')
  {
    var p :| 0 <= p < |s| && s[p] < s'[p] && s[..p] == s'[..p];
    var q :| 0 <= q < |s| && s'[q] < s''[q] && s'[..q] == s''[..q];
    var m := if p < q then p else q;
    assert s[..m] == s[..p][..m] == s'[..p][..m] == s'[..m];
    assert s''[..m] == s''[..q][..m] == s'[..q][..m] == s'[..m];
    assert p > m ==> s[m] == s[..p][m] == s'[..p][m] == s'[m];
    assert q > m ==> s''[m] == s''[..q][m] == s'[..q][m] == s'[m];
  }

  lemma LessIsDifferent(s: seq<byte>, s': seq<byte>)
    requires Less(s, s')
    ensures s != s' && !Less(s', s)
  {
    if Less(s', s) {
      LessIsTransitive(s, s', s);
      assert false;
    }
  }

  lemma LessInFront(head: seq<byte>, s: seq<byte>, s': seq<byte>)
    requires Less(s, s')
    ensures Less(head + s, head + s')
  {
    var p :| 0 <= p < |s| && s[p] < s'[p] && s[..p] == s'[..p];
    assert (head + s)[..|head| + p] == head + s[..p] == head + s'[..p] == (head + s')[..|head| + p];
    assert (head + s)[|head| + p] == s[p];
  }

  lemma LessBehind(s: seq<byte>, s': seq<byte>, tail: seq<byte>, tail': seq<byte>)
    requires Less(s, s') && |tail| == |tail'|
    ensures Less(s + tail, s' + tail')
  {
    var p :| 0 <= p < |s| && s[p] < s'[p] && s[..p] == s'[..p];
    assert (s + tail)[..p] == s[..p] == s'[..p] == (s' + tail')[..p];
    assert (s + tail)[p] == s[p] && (s' + tail')[p] == s'[p];
  }

  /** Replacing something by something larger enlarges every string that contains it. */
  lemma {:induction false} ReplaceEnlarges(s: seq<byte>, target: seq<byte>, replacement: seq<byte>)
    requires Less(target, replacement) && Contains(s, target)
    ensures Less(s, Replace(s, target, replacement))
    decreases |s|
  {
    hide Less;
    LessSameLength(target, replacement);
    if s[..|target|] == target {
      ReplaceKeepsLength(s[|target|..], target, replacement);
      LessBehind(target, replacement, s[|target|..], Replace(s[|target|..], target, replacement));
      assert s == target + s[|target|..];
    } else {
      ReplaceEnlarges(s[1..], target, replacement);
      LessInFront([s[0]], s[1..], Replace(s[1..], target, replacement));
      assert s == [s[0]] + s[1..];
    }
  }

  /** And replacing by something smaller makes it smaller. */
  lemma {:induction false} ReplaceDiminishes(s: seq<byte>, target: seq<byte>, replacement: seq<byte>)
    requires Less(replacement, target) && Contains(s, target)
    ensures Less(Replace(s, target, replacement), s)
    decreases |s|
  {
    hide Less;
    LessSameLength(replacement, target);
    if s[..|target|] == target {
      ReplaceKeepsLength(s[|target|..], target, replacement);
      LessBehind(replacement, target, Replace(s[|target|..], target, replacement), s[|target|..]);
      assert s == target + s[|target|..];
    } else {
      ReplaceDiminishes(s[1..], target, replacement);
      LessInFront([s[0]], Replace(s[1..], target, replacement), s[1..]);
      assert s == [s[0]] + s[1..];
    }
  }

  lemma LessSameLength(s: seq<byte>, s': seq<byte>)
    requires Less(s, s')
    ensures |s| == |s'| > 0
  {
  }

  predicate SmallerSymbol(symbol: Symbol, other: Symbol, p: nat) {
    |symbol| == |other| && p < |symbol| && symbol[p] < other[p] && forall i :: 0 <= i < p ==> symbol[i] == other[i]
  }

  /** Two symbols of one length differ first in some digit. */
  lemma {:induction false} SymbolsAreOrdered(symbol: Symbol, other: Symbol, from: nat)
    requires |symbol| == |other| && from <= |symbol| && symbol != other && forall i :: 0 <= i < from ==> symbol[i] == other[i]
    ensures exists p: nat :: SmallerSymbol(symbol, other, p) || SmallerSymbol(other, symbol, p)
    decreases |symbol| - from
  {
    if from == |symbol| || symbol[from] == other[from] {
      SymbolsAreOrdered(symbol, other, from + 1);
    } else {
      assert SmallerSymbol(symbol, other, from) || SmallerSymbol(other, symbol, from);
    }
  }

  lemma SmallerIsSpeltSmaller(how: Spelling, symbol: Symbol, other: Symbol, p: nat)
    requires Ascii(symbol) && Ascii(other) && SmallerSymbol(symbol, other, p)
    ensures Less(Spelt(how, symbol), Spelt(how, other))
  {
    hide Spelt, Spells;
    SpeltSpells(how, symbol);
    SpeltSpells(how, other);
    var s, s' := Spelt(how, symbol), Spelt(how, other);
    var q := if how.OneByte? then p else if how.ZeroFirst? then 2 * p + 1 else 2 * p;
    SpellsLength(how, symbol, s);
    SpellsLength(how, other, s');
    forall i | 0 <= i <= q ensures if i < q then s[i] == s'[i] else s[i] < s'[i] {
      SpeltByte(how, symbol, s, i);
      SpeltByte(how, other, s', i);
    }
    assert s[..q] == s'[..q];
  }

  // -------------------------------------------------------- the three searches

  /** The order in which the spellings are looked for. */
  function Turn(how: Spelling): nat {
    match how case OneByte => 0 case ZeroFirst => 1 case ZeroLast => 2
  }

  /** `original` does not occur in a spelling that is looked for before `how`. */
  ghost predicate ClearBefore(s: seq<byte>, original: Symbol, how: Spelling) {
    forall other, x, i: nat :: Spells(other, original, x) && Turn(other) < Turn(how) ==> !OccursAt(s, x, i)
  }

  /** `original` does not occur in a spelling that is looked for after `how`. */
  ghost predicate ClearAfter(s: seq<byte>, original: Symbol, how: Spelling) {
    forall other, x, i: nat :: Spells(other, original, x) && Turn(how) < Turn(other) ==> !OccursAt(s, x, i)
  }

  function Searched(s: seq<byte>, how: Spelling, original: Symbol, symbol: Symbol): seq<byte>
    requires Ascii(original) && Ascii(symbol)
  {
    if Contains(s, Spelt(how, original)) then Replace(s, Spelt(how, original), Spelt(how, symbol)) else s
  }

  lemma SubstituteSearches(s: seq<byte>, original: Symbol, symbol: Symbol)
    requires Ascii(original) && Ascii(symbol)
    ensures Substitute(s, Replacements(original, symbol), false).0
         == Searched(Searched(Searched(s, OneByte, original, symbol), ZeroFirst, original, symbol), ZeroLast, original, symbol)
  {
    hide Contains, Replace, AsciiBytes, Utf16BigEndian, Utf16LittleEndian;
    var rs: seq<(seq<byte>, seq<byte>)> := Replacements(original, symbol);
    assert rs[1..] == [rs[1], rs[2]] && rs[1..][1..] == [rs[2]] && |rs[1..][1..][1..]| == 0;
    var s1 := Searched(s, OneByte, original, symbol);
    var s2 := Searched(s1, ZeroFirst, original, symbol);
    var found := Contains(s, rs[0].0);
    assert Substitute(s, rs, false) == Substitute(s1, rs[1..], found);
    assert Substitute(s1, rs[1..], found) == Substitute(s2, rs[1..][1..], found || Contains(s1, rs[1].0));
    assert Substitute(s2, [rs[2]], found || Contains(s1, rs[1].0)).0 == Searched(s2, ZeroLast, original, symbol);
  }

  lemma NotSearched(s: seq<byte>, how: Spelling, original: Symbol, symbol: Symbol)
    requires Ascii(original) && Ascii(symbol)
    requires forall i: nat :: !OccursAt(s, Spelt(how, original), i)
    ensures Searched(s, how, original, symbol) == s
  {
    ContainsMeans(s, Spelt(how, original));
  }

  /** Each search moves the body one way: what was changed is never changed back. */
  lemma SearchMoves(s: seq<byte>, how: Spelling, original: Symbol, symbol: Symbol, p: nat)
    requires Ascii(original) && Ascii(symbol)
    ensures SmallerSymbol(original, symbol, p) ==>
              if Contains(s, Spelt(how, original)) then Less(s, Searched(s, how, original, symbol)) else Searched(s, how, original, symbol) == s
    ensures SmallerSymbol(symbol, original, p) ==>
              if Contains(s, Spelt(how, original)) then Less(Searched(s, how, original, symbol), s) else Searched(s, how, original, symbol) == s
  {
    hide Less, Contains, Replace, Spelt;
    if SmallerSymbol(original, symbol, p) && Contains(s, Spelt(how, original)) {
      SmallerIsSpeltSmaller(how, original, symbol, p);
      ReplaceEnlarges(s, Spelt(how, original), Spelt(how, symbol));
    }
    if SmallerSymbol(symbol, original, p) && Contains(s, Spelt(how, original)) {
      SmallerIsSpeltSmaller(how, symbol, original, p);
      ReplaceDiminishes(s, Spelt(how, original), Spelt(how, symbol));
    }
  }

  /** A body found wanting by one of two searches does not survive them both. */
  lemma SearchedIsChanged(s: seq<byte>, first: Spelling, second: Spelling, original: Symbol, symbol: Symbol)
    requires Ascii(original) && Ascii(symbol) && |original| == |symbol| && original != symbol
    ensures var once := Searched(s, first, original, symbol);
            && (once == s <==> !Contains(s, Spelt(first, original)))
            && (Searched(once, second, original, symbol) == s <==> !Contains(s, Spelt(first, original)) && !Contains(s, Spelt(second, original)))
  {
    hide Less, Contains, Searched, Spelt;
    SymbolsAreOrdered(original, symbol, 0);
    var p: nat :| SmallerSymbol(original, symbol, p) || SmallerSymbol(symbol, original, p);
    var once := Searched(s, first, original, symbol);
    var twice := Searched(once, second, original, symbol);
    SearchMoves(s, first, original, symbol, p);
    SearchMoves(once, second, original, symbol, p);
    if Less(s, once) {
      LessIsDifferent(s, once);
      if Less(once, twice) { LessIsTransitive(s, once, twice); LessIsDifferent(s, twice); }
    }
    if Less(once, s) {
      LessIsDifferent(once, s);
      if Less(twice, once) { LessIsTransitive(twice, once, s); LessIsDifferent(twice, s); }
    }
    if once == s && Less(once, twice) { LessIsDifferent(once, twice); }
    if once == s && Less(twice, once) { LessIsDifferent(twice, once); }
  }

  /** A spelling occurs in `s` exactly where its bytes are found. */
  lemma ClearMeans(s: seq<byte>, original: Symbol, how: Spelling)
    requires Ascii(original)
    ensures ClearAfter(s, original, how) <==>
            && (how.OneByte? ==> !Contains(s, Spelt(ZeroFirst, original)))
            && (!how.ZeroLast? ==> !Contains(s, Spelt(ZeroLast, original)))
  {
    hide Contains, Spelt, Spells, OccursAt;
    SpeltSpells(ZeroFirst, original);
    SpeltSpells(ZeroLast, original);
    ContainsMeans(s, Spelt(ZeroFirst, original));
    ContainsMeans(s, Spelt(ZeroLast, original));
    if !ClearAfter(s, original, how) {
      var other, x, i: nat :| Spells(other, original, x) && Turn(how) < Turn(other) && OccursAt(s, x, i);
      SpellingIsSpelt(other, original, x);
    }
  }

  lemma NotBefore(s: seq<byte>, original: Symbol, symbol: Symbol, how: Spelling, other: Spelling)
    requires Ascii(original) && Ascii(symbol) && ClearBefore(s, original, how) && Turn(other) < Turn(how)
    ensures Searched(s, other, original, symbol) == s
  {
    hide Spelt, Spells, OccursAt, Searched;
    SpeltSpells(other, original);
    NotSearched(s, other, original, symbol);
  }

  /** The search that finds the template replaces all of its occurrences. */
  lemma SearchJoins(s: seq<byte>, how: Spelling, original: Symbol, symbol: Symbol, pieces: seq<seq<byte>>)
    requires SixDigits(original) && SixDigits(symbol) && |pieces| >= 2 && SplitBy(s, Spelt(how, original), pieces)
    ensures Contains(s, Spelt(how, original)) && Searched(s, how, original, symbol) == Joined(pieces, Spelt(how, symbol))
  {
    hide Spelt, Spells, Contains, Replace, OccursAt;
    var t := Spelt(how, original);
    SpeltSpells(how, original);
    SpellsLength(how, original, t);
    ReplaceJoins(s, t, Spelt(how, symbol), pieces);
    ContainsMeans(s, t);
  }

  lemma ItselfChangesNothing(s: seq<byte>, how: Spelling, original: Symbol)
    requires SixDigits(original)
    ensures Searched(s, how, original, original) == s
  {
    hide Contains, Replace;
    ReplaceByItself(s, Spelt(how, original));
  }

  /**
   For every body: the template's occurrences, in the first spelling that occurs, are replaced by the symbol in that
   spelling and everything between them is kept, exactly when the new bytes, with those around them, do not spell the
   template in a way that is still to be looked for.
   */
  lemma SubstituteJoins(
    how: Spelling, original: Symbol, symbol: Symbol, s: seq<byte>, t: seq<byte>, r: seq<byte>, pieces: seq<seq<byte>>)
    requires SixDigits(original) && SixDigits(symbol) && Spells(how, original, t) && Spells(how, symbol, r)
    requires ClearBefore(s, original, how) && |pieces| >= 2 && SplitBy(s, t, pieces)
    ensures Substitute(s, Replacements(original, symbol), false).1
    ensures Substitute(s, Replacements(original, symbol), false).0 == Joined(pieces, r)
       <==> original == symbol || ClearAfter(Joined(pieces, r), original, how)
  {
    hide Spelt, Spells, Substitute, Replacements, Contains, Searched, ClearBefore, ClearAfter, SplitBy, Joined;
    SpellingIsSpelt(how, original, t);
    SpellingIsSpelt(how, symbol, r);
    var s' := Joined(pieces, r);
    SubstituteSearches(s, original, symbol);
    SearchJoins(s, how, original, symbol, pieces);
    FoundIsReported(how, original, symbol, s);
    ClearMeans(s', original, how);
    if how != OneByte {
      NotBefore(s, original, symbol, how, OneByte);
    }
    if how == ZeroLast {
      NotBefore(s, original, symbol, how, ZeroFirst);
    }
    if original == symbol {
      ItselfChangesNothing(s, OneByte, original);
      ItselfChangesNothing(s, ZeroFirst, original);
      ItselfChangesNothing(s, ZeroLast, original);
    } else {
      SearchedIsChanged(s', if how == OneByte then ZeroFirst else ZeroLast, ZeroLast, original, symbol);
    }
  }

  lemma FoundIsReported(how: Spelling, original: Symbol, symbol: Symbol, s: seq<byte>)
    requires SixDigits(original) && SixDigits(symbol) && Contains(s, Spelt(how, original))
    ensures Substitute(s, Replacements(original, symbol), false).1
  {
    hide Contains, Substitute, Replacements;
    ReplacementsAreAligned(original, symbol, s);
    SubstituteFindsTheOriginal(s, Replacements(original, symbol), false);
  }

  lemma JoinedDiffer(pieces: seq<seq<byte>>, r: seq<byte>, r': seq<byte>)
    requires |pieces| >= 2 && |r| == |r'| && r != r'
    ensures Joined(pieces, r) != Joined(pieces, r')
  {
    var n := |pieces[0]|;
    assert Joined(pieces, r)[n..n + |r|] == r && Joined(pieces, r')[n..n + |r'|] == r';
  }

  // --------------------------------------------------------------- the packet

  /** The bytes before the Base64 body: thirteen of framing, then a header with its own length in front. */
  lemma BodyStartMeans(packet: seq<byte>)
    requires |packet| >= 15
    ensures var start: nat := 13 + (packet[13] as int) + 256 * (packet[14] as int);
            BodyStart(packet) == if ValidOuter(packet) && 15 <= start < |packet| then Some(start) else None
  {
    hide ValidOuter;
    var field := packet[13..15];
    assert field[1..][1..] == [];
    assert LittleEndian(field[1..]) == field[1];
    assert LittleEndian(field) == field[0] + 256 * LittleEndian(field[1..]);
  }

  /** The digits 0-9, A-F and a-f. */
  lemma HexDigitMeans(c: byte)
    ensures HexDigit(c) <==> '0' <= c as char <= '9' || 'A' <= c as char <= 'F' || 'a' <= c as char <= 'f'
    ensures 0 <= c - 48 <= 9 ==> HexDigitValue(c) == c - 48
    ensures 0 <= c - 65 <= 5 ==> HexDigitValue(c) == 10 + (c - 65)
    ensures 0 <= c - 97 <= 5 ==> HexDigitValue(c) == 10 + (c - 97)
  {
  }

  lemma HexSteps(s: seq<byte>, c: byte)
    requires AllHex(s) && HexDigit(c)
    ensures AllHex(s + [c]) && HexValue(s + [c]) == 16 * HexValue(s) + HexDigitValue(c)
  {
    assert (s + [c])[..|s|] == s;
  }

  /** The framing: four 0xfd bytes, the length of the rest in eight hexadecimal digits, and a zero byte. */
  lemma OuterMeans(packet: seq<byte>)
    ensures ValidOuter(packet) <==>
            && |packet| >= 14
            && packet[0] == 0xfd && packet[1] == 0xfd && packet[2] == 0xfd && packet[3] == 0xfd && packet[12] == 0
            && (forall i :: 4 <= i < 12 ==> HexDigit(packet[i]))
            && |packet| - 13 <= 16777216
            && |packet| - 13
               == 268435456 * HexDigitValue(packet[4]) + 16777216 * HexDigitValue(packet[5]) + 1048576 * HexDigitValue(packet[6])
                + 65536 * HexDigitValue(packet[7]) + 4096 * HexDigitValue(packet[8]) + 256 * HexDigitValue(packet[9])
                + 16 * HexDigitValue(packet[10]) + HexDigitValue(packet[11])
  {
    if |packet| >= 14 {
      var header := packet[..HEADER];
      var digits := header[4..12];
      assert forall i :: 4 <= i < 12 ==> digits[i - 4] == packet[i];
      assert header[..4] == [0xfd, 0xfd, 0xfd, 0xfd] <==> packet[0] == 0xfd && packet[1] == 0xfd && packet[2] == 0xfd && packet[3] == 0xfd;
      if AllHex(digits) {
        EightDigits(digits);
      }
    }
  }

  lemma PrefixValue(s: seq<byte>, k: nat)
    requires k < |s| && AllHex(s)
    ensures HexDigit(s[k]) && AllHex(s[..k]) && AllHex(s[..k + 1])
    ensures HexValue(s[..k + 1]) == 16 * HexValue(s[..k]) + HexDigitValue(s[k])
  {
    assert s[..k + 1] == s[..k] + [s[k]];
    HexSteps(s[..k], s[k]);
  }

  lemma NoDigits(s: seq<byte>)
    ensures AllHex(s[..0]) && HexValue(s[..0]) == 0
  {
  }

  lemma EightDigits(s: seq<byte>)
    requires |s| == 8 && AllHex(s)
    ensures HexValue(s)
         == 268435456 * HexDigitValue(s[0]) + 16777216 * HexDigitValue(s[1]) + 1048576 * HexDigitValue(s[2])
          + 65536 * HexDigitValue(s[3]) + 4096 * HexDigitValue(s[4]) + 256 * HexDigitValue(s[5])
          + 16 * HexDigitValue(s[6]) + HexDigitValue(s[7])
  {
    hide HexValue, HexDigitValue;
    NoDigits(s);
    PrefixValue(s, 0);
    PrefixValue(s, 1);
    PrefixValue(s, 2);
    PrefixValue(s, 3);
    PrefixValue(s, 4);
    PrefixValue(s, 5);
    PrefixValue(s, 6);
    PrefixValue(s, 7);
    assert s[..8] == s;
  }

  /** A packet whose decoded body spells the template as `t` between `pieces`, and in no spelling looked for before. */
  ghost predicate Asks(packet: seq<byte>, alphabet: seq<nat>, original: Symbol, how: Spelling, t: seq<byte>, pieces: seq<seq<byte>>) {
    && BodyStart(packet).Some?
    && var body := Base64.Decode(packet[BodyStart(packet).value..], alphabet);
       && body.Ok? && ClearBefore(body.value, original, how)
       && Spells(how, original, t) && SplitBy(body.value, t, pieces) && |pieces| >= 2
  }

  /** The bytes before the body are the packet's, and the body is the pieces with `r` between them. */
  ghost predicate Becomes(patched: seq<byte>, packet: seq<byte>, alphabet: seq<nat>, r: seq<byte>, pieces: seq<seq<byte>>) {
    && BodyStart(packet).Some? && |patched| == |packet|
    && var start := BodyStart(packet).value;
       patched[..start] == packet[..start] && Base64.Decode(patched[start..], alphabet) == Ok(Joined(pieces, r))
  }

  lemma StartIsInside(packet: seq<byte>)
    requires BodyStart(packet).Some?
    ensures BodyStart(packet).value < |packet|
  {
  }

  lemma AlphabetIsValid(text: seq<byte>, alphabet: seq<nat>)
    ensures Base64.Decode(text, alphabet).Ok? ==> Base64.ValidAlphabet(alphabet)
  {
  }

  /**
   What patching does to a packet that asks for the template: it is refused exactly when its text has pad characters to
   spare; otherwise `r` stands where `t` stood, exactly when no later search finds the template in the result.
   */
  lemma PatchPutsTheSymbolIn(
    packet: seq<byte>, alphabet: seq<nat>, original: Symbol, symbol: Symbol, how: Spelling,
    t: seq<byte>, r: seq<byte>, pieces: seq<seq<byte>>)
    requires SixDigits(original) && SixDigits(symbol)
    requires Asks(packet, alphabet, original, how, t, pieces) && Spells(how, symbol, r)
    ensures var patched := Patch(packet, original, symbol, alphabet);
            if |packet| - BodyStart(packet).value != Base64.EncodedLength(|Joined(pieces, t)|) then patched == Err(RequestInvalid)
            else
              && patched.Ok?
              && (Becomes(patched.value, packet, alphabet, r, pieces)
                  <==> original == symbol || ClearAfter(Joined(pieces, r), original, how))
  {
    hide Spells, SplitBy, Joined, ClearBefore, ClearAfter, Replacements, Substitute, Contains, BodyStart, ValidOuter, Base64.Decode, Base64.Encode;
    StartIsInside(packet);
    var start := BodyStart(packet).value;
    var s := Base64.Decode(packet[start..], alphabet).value;
    SubstituteJoins(how, original, symbol, s, t, r, pieces);
    SplitJoins(s, t, pieces);
    AlphabetIsValid(packet[start..], alphabet);
    ReplacementsAreAligned(original, symbol, s);
    SubstituteKeepsLength(s, Replacements(original, symbol), false);
    var body := Substitute(s, Replacements(original, symbol), false).0;
    Base64.EncodeLength(body, alphabet);
    Base64.Base64RoundTrip(body, alphabet);
    var patched := Patch(packet, original, symbol, alphabet);
    if patched.Ok? {
      assert patched.value[start..] == Base64.Encode(body, alphabet) && patched.value[..start] == packet[..start];
    }
  }

  /** With a single occurrence the body `a`, template, `b` becomes `a`, symbol, `b`. */
  lemma PatchOfASingleOccurrence(
    packet: seq<byte>, alphabet: seq<nat>, original: Symbol, symbol: Symbol, how: Spelling,
    a: seq<byte>, t: seq<byte>, r: seq<byte>, b: seq<byte>)
    requires SixDigits(original) && SixDigits(symbol) && Spells(how, original, t) && Spells(how, symbol, r)
    requires BodyStart(packet).Some? && Base64.Decode(packet[BodyStart(packet).value..], alphabet) == Ok(a + t + b)
    requires forall i: nat :: OccursAt(a + t + b, t, i) ==> i == |a|
    requires ClearBefore(a + t + b, original, how) && ClearAfter(a + r + b, original, how)
    requires Patch(packet, original, symbol, alphabet).Ok?
    ensures var start := BodyStart(packet).value;
            var patched := Patch(packet, original, symbol, alphabet).value;
            && |patched| == |packet| && patched[..start] == packet[..start]
            && Base64.Decode(patched[start..], alphabet) == Ok(a + r + b)
  {
    hide Spells, SplitBy, Patch, ClearBefore, ClearAfter, BodyStart, Base64.Decode, OccursAt;
    SpellsLength(how, original, t);
    TheOnlyOneSplits(a, t, b);
    assert Joined([a, b], r) == a + r + b by { assert [a, b][1..] == [b]; }
    PatchPutsTheSymbolIn(packet, alphabet, original, symbol, how, t, r, [a, b]);
  }

  /** Packets patched for different symbols are different. */
  lemma DifferentSymbolsDifferentPackets(
    packet: seq<byte>, alphabet: seq<nat>, original: Symbol, symbol: Symbol, symbol': Symbol, how: Spelling,
    t: seq<byte>, r: seq<byte>, r': seq<byte>, pieces: seq<seq<byte>>)
    requires SixDigits(original) && SixDigits(symbol) && SixDigits(symbol') && symbol != symbol'
    requires Asks(packet, alphabet, original, how, t, pieces) && Spells(how, symbol, r) && Spells(how, symbol', r')
    requires Patch(packet, original, symbol, alphabet).Ok?
    requires ClearAfter(Joined(pieces, r), original, how) && ClearAfter(Joined(pieces, r'), original, how)
    ensures Patch(packet, original, symbol', alphabet).Ok?
         && Patch(packet, original, symbol, alphabet).value != Patch(packet, original, symbol', alphabet).value
  {
    hide Spells, SplitBy, Joined, ClearAfter, ClearBefore, Patch, BodyStart, Base64.Decode;
    PatchPutsTheSymbolIn(packet, alphabet, original, symbol, how, t, r, pieces);
    PatchPutsTheSymbolIn(packet, alphabet, original, symbol', how, t, r', pieces);
    SpellingsDiffer(how, symbol, symbol', r, r');
    JoinedDiffer(pieces, r, r');
  }

  lemma SpellingsDiffer(how: Spelling, symbol: Symbol, symbol': Symbol, r: seq<byte>, r': seq<byte>)
    requires |symbol| == |symbol'| && symbol != symbol' && Spells(how, symbol, r) && Spells(how, symbol', r')
    ensures r != r' && |r| == |r'|
  {
    var i :| 0 <= i < |symbol| && symbol[i] != symbol'[i];
    if how.OneByte? { assert r[i] != r'[i]; }
    if how.ZeroFirst? { assert r[2 * i + 1] != r'[2 * i + 1]; }
    if how.ZeroLast? { assert r[2 * i] != r'[2 * i]; }
  }

  // ------------------------------------------------------ the prepared packets

  lemma {:induction false} PatchedInOrder(packets: seq<seq<byte>>, template: Symbol, symbol: Symbol, alphabet: seq<nat>, i: nat)
    requires i < |packets| && PatchAll(packets, template, symbol, alphabet).Some?
    ensures var all := PatchAll(packets, template, symbol, alphabet).value;
            i < |all| && Patch(packets[i], template, symbol, alphabet) == Ok(all[i])
  {
    hide Patch;
    if i > 0 {
      PatchedInOrder(packets[1..], template, symbol, alphabet, i - 1);
    }
  }

  /** Every packet the capture accepted asks for the template. */
  lemma AcceptedPacketAsks(packet: seq<byte>, template: Symbol, alphabet: seq<nat>)
    returns (how: Spelling, t: seq<byte>, pieces: seq<seq<byte>>)
    requires SixDigits(template) && Patch(packet, template, template, alphabet).Ok?
    ensures Asks(packet, alphabet, template, how, t, pieces)
  {
    hide Spelt, Spells, Contains, SplitBy, Substitute, Replacements, Base64.Decode, Base64.Encode, ValidOuter, OccursAt;
    var s := Base64.Decode(packet[BodyStart(packet).value..], alphabet).value;
    ReplacementsAreAligned(template, template, s);
    SubstituteFindsTheOriginal(s, Replacements(template, template), false);
    how := if Contains(s, Spelt(OneByte, template)) then OneByte
           else if Contains(s, Spelt(ZeroFirst, template)) then ZeroFirst else ZeroLast;
    t := Spelt(how, template);
    SpeltIsOneOfThree(template, s);
    SpeltSpells(how, template);
    SpellsLength(how, template, t);
    pieces := SplitExists(s, t);
    ClearBeforeMeans(s, template, how);
  }

  lemma SpeltIsOneOfThree(template: Symbol, s: seq<byte>)
    requires Ascii(template)
    ensures Spelt(OneByte, template) == AsciiBytes(template) && Spelt(ZeroFirst, template) == Utf16BigEndian(template)
    ensures Spelt(ZeroLast, template) == Utf16LittleEndian(template)
  {
  }

  lemma ClearBeforeMeans(s: seq<byte>, original: Symbol, how: Spelling)
    requires Ascii(original)
    requires Turn(how) > 0 ==> !Contains(s, Spelt(OneByte, original))
    requires Turn(how) > 1 ==> !Contains(s, Spelt(ZeroFirst, original))
    ensures ClearBefore(s, original, how)
  {
    hide Contains, Spelt, Spells, OccursAt;
    ContainsMeans(s, Spelt(OneByte, original));
    ContainsMeans(s, Spelt(ZeroFirst, original));
    if !ClearBefore(s, original, how) {
      var other, x, i: nat :| Spells(other, original, x) && Turn(other) < Turn(how) && OccursAt(s, x, i);
      SpellingIsSpelt(other, original, x);
    }
  }

  /** Each packet that is sent asks for the symbol where the captured one asked for the template. */
  lemma PreparedPacketsAsk(
    m: Material, symbol: Symbol, i: nat, how: Spelling, t: seq<byte>, r: seq<byte>, pieces: seq<seq<byte>>)
    requires Accepted(m) && SixDigits(symbol) && i < |m.packets|
    requires Asks(m.packets[i], m.alphabet, m.template, how, t, pieces) && Spells(how, symbol, r)
    ensures var sent := MaterialPackets(m, symbol);
            && sent.Ok? && |sent.value| == 1 + |m.packets|
            && (Becomes(sent.value[i + 1], m.packets[i], m.alphabet, r, pieces)
                <==> m.template == symbol || ClearAfter(Joined(pieces, r), m.template, how))
  {
    hide Asks, Becomes, Spells, ClearAfter, Patch, BodyStart, Base64.Decode, ValidOuter;
    CaptureSuffices(m, symbol);
    PatchedInOrder(m.packets, m.template, symbol, m.alphabet, i);
    PatchPutsTheSymbolIn(m.packets[i], m.alphabet, m.template, symbol, how, t, r, pieces);
  }

  // ---------------------------------------------------------------- examples

  const TEMPLATE: Symbol := [54, 48, 48, 53, 49, 57]    // 600519
  const REQUESTED: Symbol := [54, 48, 49, 56, 55, 50]   // 601872

  const LINE_START: seq<byte> := [0, 61]
  const LINE_END: seq<byte> := [0, 13, 0, 10]
  const TEMPLATE_BYTES: seq<byte> := [0, 54, 0, 48, 0, 48, 0, 53, 0, 49, 0, 57]
  const REQUESTED_BYTES: seq<byte> := [0, 54, 0, 48, 0, 49, 0, 56, 0, 55, 0, 50]

  /** "=600519" and a line end, two bytes a character with the zero first, becomes "=601872" and a line end. */
  lemma RequestLineIsPatched(packet: seq<byte>, alphabet: seq<nat>)
    requires BodyStart(packet).Some? && Patch(packet, TEMPLATE, REQUESTED, alphabet).Ok?
    requires Base64.Decode(packet[BodyStart(packet).value..], alphabet) == Ok(LINE_START + TEMPLATE_BYTES + LINE_END)
    ensures Base64.Decode(Patch(packet, TEMPLATE, REQUESTED, alphabet).value[BodyStart(packet).value..], alphabet)
         == Ok(LINE_START + REQUESTED_BYTES + LINE_END)
  {
    hide *;
    RequestSpellings();
    PatchedIsBase64(packet, TEMPLATE, REQUESTED, alphabet);
    var before := LINE_START + TEMPLATE_BYTES + LINE_END;
    forall i: nat | OccursAt(before, TEMPLATE_BYTES, i) ensures i == |LINE_START| {
      OccursOnce(i);
    }
    RequestLineIsClear();
    PatchOfASingleOccurrence(packet, alphabet, TEMPLATE, REQUESTED, ZeroFirst, LINE_START, TEMPLATE_BYTES, REQUESTED_BYTES, LINE_END);
  }

  lemma RequestSpellings()
    ensures SixDigits(TEMPLATE) && SixDigits(REQUESTED)
    ensures Spells(ZeroFirst, TEMPLATE, TEMPLATE_BYTES) && Spells(ZeroFirst, REQUESTED, REQUESTED_BYTES)
  {
  }

  lemma OccursOnce(i: nat)
    requires OccursAt(LINE_START + TEMPLATE_BYTES + LINE_END, TEMPLATE_BYTES, i)
    ensures i == |LINE_START|
  {
    var s := LINE_START + TEMPLATE_BYTES + LINE_END;
    assert s == [0, 61, 0, 54, 0, 48, 0, 48, 0, 53, 0, 49, 0, 57, 0, 13, 0, 10];
    hide OccursAt;
    OccursByte(s, TEMPLATE_BYTES, i, 1);
    OccursByte(s, TEMPLATE_BYTES, i, 3);
  }

  lemma OccursByte(s: seq<byte>, target: seq<byte>, i: nat, k: nat)
    requires OccursAt(s, target, i) && k < |target|
    ensures i + |target| <= |s| && s[i + k] == target[k]
  {
    assert s[i..i + |target|][k] == s[i + k];
  }

  lemma RequestLineIsClear()
    ensures ClearBefore(LINE_START + TEMPLATE_BYTES + LINE_END, TEMPLATE, ZeroFirst)
    ensures ClearAfter(LINE_START + REQUESTED_BYTES + LINE_END, TEMPLATE, ZeroFirst)
  {
    hide Spells, OccursAt;
    var before := LINE_START + TEMPLATE_BYTES + LINE_END;
    var after := LINE_START + REQUESTED_BYTES + LINE_END;
    assert before == [0, 61, 0, 54, 0, 48, 0, 48, 0, 53, 0, 49, 0, 57, 0, 13, 0, 10];
    assert after == [0, 61, 0, 54, 0, 48, 0, 49, 0, 56, 0, 55, 0, 50, 0, 13, 0, 10];
    forall other, x, i: nat | Spells(other, TEMPLATE, x) && Turn(other) < 1 ensures !OccursAt(before, x, i) {
      SpellsLength(other, TEMPLATE, x);
      SpeltByte(other, TEMPLATE, x, 0);
      SpeltByte(other, TEMPLATE, x, 1);
      if OccursAt(before, x, i) {
        OccursByte(before, x, i, 0);
        OccursByte(before, x, i, 1);
        assert false;
      }
    }
    forall other, x, i: nat | Spells(other, TEMPLATE, x) && 1 < Turn(other) ensures !OccursAt(after, x, i) {
      SpellsLength(other, TEMPLATE, x);
      SpeltByte(other, TEMPLATE, x, 0);
      SpeltByte(other, TEMPLATE, x, 4);
      if OccursAt(after, x, i) {
        OccursByte(after, x, i, 0);
        OccursByte(after, x, i, 4);
        assert false;
      }
    }
  }

  const SPILL_TEMPLATE: Symbol := [54, 48, 48, 48, 48, 48]   // 600000
  const SPILL_SYMBOL: Symbol := [48, 48, 48, 48, 48, 49]     // 000001

  /**
   A body in which the symbol does not arrive: the template in single bytes stands behind eleven bytes that, with the
   first digit of 000001, spell 600000 with zeros in front. The second search finds that and rewrites it.
   */
  lemma SymbolSpillsOver(packet: seq<byte>, alphabet: seq<nat>)
    requires BodyStart(packet).Some? && Patch(packet, SPILL_TEMPLATE, SPILL_SYMBOL, alphabet).Ok?
    requires Base64.Decode(packet[BodyStart(packet).value..], alphabet)
          == Ok([0, 54, 0, 48, 0, 48, 0, 48, 0, 48, 0, 54, 48, 48, 48, 48, 48])
    ensures Base64.Decode(Patch(packet, SPILL_TEMPLATE, SPILL_SYMBOL, alphabet).value[BodyStart(packet).value..], alphabet)
         != Ok([0, 54, 0, 48, 0, 48, 0, 48, 0, 48, 0, 48, 48, 48, 48, 48, 49])
  {
    hide Patch, BodyStart, Base64.Decode, OccursAt, Spells, ClearBefore, ClearAfter, SplitBy;
    var a: seq<byte> := [0, 54, 0, 48, 0, 48, 0, 48, 0, 48, 0];
    var t: seq<byte>, r: seq<byte> := [54, 48, 48, 48, 48, 48], [48, 48, 48, 48, 48, 49];
    var s := [0, 54, 0, 48, 0, 48, 0, 48, 0, 48, 0, 54, 48, 48, 48, 48, 48];
    assert a + t + [] == s;
    SpillSpellings(t, r);
    forall i: nat | OccursAt(s, t, i) ensures i == 11 {
      OccursByte(s, t, i, 0);
      OccursByte(s, t, i, 1);
    }
    TheOnlyOneSplits(a, t, []);
    var pieces: seq<seq<byte>> := [a, []];
    assert Joined(pieces, r) == a + r + [] by { assert pieces[1..] == [[]]; }
    assert a + r + [] == [0, 54, 0, 48, 0, 48, 0, 48, 0, 48, 0, 48, 48, 48, 48, 48, 49];
    SpillIsFound(a + r + []);
    NothingBeforeOneByte(s, SPILL_TEMPLATE);
    PatchedIsBase64(packet, SPILL_TEMPLATE, SPILL_SYMBOL, alphabet);
    PatchPutsTheSymbolIn(packet, alphabet, SPILL_TEMPLATE, SPILL_SYMBOL, OneByte, t, r, pieces);
  }

  lemma NothingBeforeOneByte(s: seq<byte>, original: Symbol)
    ensures ClearBefore(s, original, OneByte)
  {
  }

  lemma SpillSpellings(t: seq<byte>, r: seq<byte>)
    requires t == [54, 48, 48, 48, 48, 48] && r == [48, 48, 48, 48, 48, 49]
    ensures SixDigits(SPILL_TEMPLATE) && SixDigits(SPILL_SYMBOL)
    ensures Spells(OneByte, SPILL_TEMPLATE, t) && Spells(OneByte, SPILL_SYMBOL, r)
  {
  }

  lemma SpillIsFound(s: seq<byte>)
    requires s == [0, 54, 0, 48, 0, 48, 0, 48, 0, 48, 0, 48, 48, 48, 48, 48, 49]
    ensures !ClearAfter(s, SPILL_TEMPLATE, OneByte)
  {
    var x: seq<byte> := [0, 54, 0, 48, 0, 48, 0, 48, 0, 48, 0, 48];
    assert Spells(ZeroFirst, SPILL_TEMPLATE, x);
    assert s[0..12] == x;
    assert OccursAt(s, x, 0);
  }

  lemma PatchedIsBase64(packet: seq<byte>, original: Symbol, symbol: Symbol, alphabet: seq<nat>)
    requires Patch(packet, original, symbol, alphabet).Ok? && SixDigits(original) && SixDigits(symbol)
    ensures var patched := Patch(packet, original, symbol, alphabet).value;
            |patched| == |packet| && BodyStart(packet).Some? && patched[..BodyStart(packet).value] == packet[..BodyStart(packet).value]
  {
    PatchedPacketIsSound(packet, original, symbol, alphabet);
  }
}
