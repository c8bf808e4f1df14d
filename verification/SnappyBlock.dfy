/**
 Raw Snappy blocks: sections 1, 2.1 and 2.2 of the Snappy format description.

 A block is a little-endian base-128 preamble holding the output length, then
 elements. `Serialise` writes an element, `Apply` says what it appends;
 `DecodeSnappyExact` says that the decoder accepts exactly the blocks so
 written and returns their meaning.
 */
module SnappyBlock {
  import opened Wrappers
  import opened Bytes

  /** A literal stores its length in its tag (`extra` == 0) or in `extra` bytes after it. */
  datatype Element =
    | Literal(extra: nat, bytes: seq<byte>)
    | Copy1(length: nat, offset: nat)
    | Copy2(length: nat, offset: nat)
    | Copy4(length: nat, offset: nat)

  predicate WellFormed(e: Element) {
    match e
    case Literal(extra, bytes) =>
      |bytes| >= 1 && extra <= 4 && if extra == 0 then |bytes| <= 60 else |bytes| - 1 < Power256(extra)
    case Copy1(length, offset) => 4 <= length <= 11 && offset < 2048
    case Copy2(length, offset) => 1 <= length <= 64 && offset < Power256(2)
    case Copy4(length, offset) => 1 <= length <= 64 && offset < Power256(4)
  }

  function Serialise(e: Element): (s: seq<byte>)
    requires WellFormed(e)
    ensures |s| > 0
  {
    match e
    case Literal(extra, bytes) =>
      if extra == 0 then [4 * (|bytes| - 1)] + bytes
      else [4 * (59 + extra)] + LittleEndianBytes(|bytes| - 1, extra) + bytes
    case Copy1(length, offset) => [1 + 4 * (length - 4) + 32 * (offset / 256), offset % 256]
    case Copy2(length, offset) => [2 + 4 * (length - 1)] + LittleEndianBytes(offset, 2)
    case Copy4(length, offset) => [3 + 4 * (length - 1)] + LittleEndianBytes(offset, 4)
  }

  /** The last `offset` bytes of the output repeated periodically to `length` bytes. */
  function Periodic(output: seq<byte>, offset: nat, length: nat): (s: seq<byte>)
    requires 0 < offset <= |output|
    ensures |s| == length
  {
    seq(length, i requires 0 <= i => output[|output| - offset + i % offset])
  }

  function Apply(output: seq<byte>, e: Element): (r: Option<seq<byte>>)
    ensures r.Some? ==> |r.value| >= |output|
  {
    if e.Literal? then Some(output + e.bytes)
    else if 0 < e.offset <= |output| then Some(output + Periodic(output, e.offset, e.length))
    else None
  }

  function ApplyAll(output: seq<byte>, es: seq<Element>): (r: Option<seq<byte>>)
    ensures r.Some? ==> |r.value| >= |output|
    decreases |es|
  {
    if es == [] then Some(output)
    else match Apply(output, es[0])
      case None => None
      case Some(o) => ApplyAll(o, es[1..])
  }

  ghost predicate WellFormedAll(es: seq<Element>) {
    forall e <- es :: WellFormed(e)
  }

  ghost function SerialiseAll(es: seq<Element>): seq<byte>
    requires WellFormedAll(es)
  {
    if es == [] then [] else Serialise(es[0]) + SerialiseAll(es[1..])
  }

  // ------------------------------------------------------------------ preamble

  /** One to five base-128 digits, the high bit set on all but the last. */
  predicate ValidPreamble(p: seq<byte>) {
    1 <= |p| <= 5 && p[|p| - 1] < 128 && forall i :: 0 <= i < |p| - 1 ==> p[i] >= 128
  }

  function PreambleValue(p: seq<byte>): nat {
    if p == [] then 0 else p[0] % 128 + 128 * PreambleValue(p[1..])
  }

  /** The value of the preamble of at most `most` digits at the start of `d`, and its length. */
  function ReadPreamble(d: seq<byte>, most: nat): (o: Option<(nat, nat)>)
    ensures o.Some? ==> o.value.1 <= |d|
    decreases most
  {
    if d == [] || most == 0 then None
    else if d[0] < 128 then Some((d[0], 1))
    else
      var (value, count) :- ReadPreamble(d[1..], most - 1);
      Some((d[0] % 128 + 128 * value, count + 1))
  }

  lemma {:induction false} ValidPreambleIsRead(p: seq<byte>, rest: seq<byte>, most: nat)
    requires ValidPreamble(p) && |p| <= most
    ensures ReadPreamble(p + rest, most) == Some((PreambleValue(p), |p|))
    decreases |p|
  {
    if |p| == 1 {
      assert p[1..] == [];
    } else {
      assert p[0] >= 128;
      assert (p + rest)[1..] == p[1..] + rest;
      ValidPreambleIsRead(p[1..], rest, most - 1);
    }
  }

  lemma {:induction false} ReadPreambleIsValid(d: seq<byte>, most: nat)
    requires ReadPreamble(d, most).Some? && most <= 5
    ensures var (value, n) := ReadPreamble(d, most).value;
            n <= most && ValidPreamble(d[..n]) && value == PreambleValue(d[..n])
    decreases most
  {
    var (_, n) := ReadPreamble(d, most).value;
    if d[0] < 128 {
      assert d[..1][1..] == [];
    } else {
      ReadPreambleIsValid(d[1..], most - 1);
      var p, tail := d[..n], d[1..][..n - 1];
      assert p == [d[0]] + tail;
    }
  }

  // ------------------------------------------------------------------- elements

  /** The bytes of a literal that starts at `at`. */
  function ReadLiteral(d: seq<byte>, extra: nat, at: nat, length: nat): Option<(Element, nat)> {
    if at + length > |d| then None else Some((Literal(extra, d[at..at + length]), at + length))
  }

  function ReadLiteralElement(d: seq<byte>): (o: Option<(Element, nat)>)
    requires |d| > 0
    ensures o.Some? ==> 0 < o.value.1 <= |d|
  {
    var code := d[0] / 4;
    if code < 60 then ReadLiteral(d, 0, 1, code + 1)
    else
      var extra := code - 59;
      if extra > 4 || 1 + extra > |d| then None
      else ReadLiteral(d, extra, 1 + extra, LittleEndian(d[1..1 + extra]) + 1)
  }

  /** The element at the start of `d`, and its length. */
  function ReadElement(d: seq<byte>): (o: Option<(Element, nat)>)
    requires |d| > 0
    ensures o.Some? ==> 0 < o.value.1 <= |d|
  {
    var tag := d[0];
    match tag % 4
    case 0 => ReadLiteralElement(d)
    case 1 =>
      if 2 > |d| then None else Some((Copy1(4 + (tag / 4) % 8, (tag / 32) * 256 + d[1]), 2))
    case 2 =>
      if 3 > |d| then None else Some((Copy2(1 + tag / 4, LittleEndian(d[1..3])), 3))
    case _ =>
      if 5 > |d| then None else Some((Copy4(1 + tag / 4, LittleEndian(d[1..5])), 5))
  }

  lemma LiteralReadIsSerialised(d: seq<byte>)
    requires |d| > 0 && d[0] % 4 == 0 && ReadLiteralElement(d).Some?
    ensures var (e, n) := ReadLiteralElement(d).value; WellFormed(e) && d[..n] == Serialise(e)
  {
    hide LittleEndian, LittleEndianBytes, Power256;
    var (e, n) := ReadLiteralElement(d).value;
    if e.extra > 0 {
      LittleEndianBytesRoundTrip(d[1..1 + e.extra]);
      assert d[..n] == [d[0]] + d[1..1 + e.extra] + e.bytes;
    } else {
      assert d[..n] == [d[0]] + e.bytes;
    }
  }

  lemma ElementReadIsSerialised(d: seq<byte>)
    requires |d| > 0 && ReadElement(d).Some?
    ensures var (e, n) := ReadElement(d).value; WellFormed(e) && d[..n] == Serialise(e)
  {
    hide LittleEndian, LittleEndianBytes, Power256, ReadLiteralElement;
    var (e, n) := ReadElement(d).value;
    var kind := d[0] % 4;
    if kind == 0 {
      LiteralReadIsSerialised(d);
    } else if kind == 1 {
      Copy1Tag(d[0], d[1]);
      assert d[..n] == [d[0], d[1]];
    } else if kind == 2 {
      LittleEndianBytesRoundTrip(d[1..3]);
      assert d[..n] == [d[0]] + d[1..3];
    } else {
      LittleEndianBytesRoundTrip(d[1..5]);
      assert d[..n] == [d[0]] + d[1..5];
    }
  }

  lemma Copy1Tag(tag: byte, low: byte)
    requires tag % 4 == 1
    ensures var offset := (tag / 32) * 256 + low;
            offset < 2048 && offset / 256 == tag / 32 && offset % 256 == low
    ensures tag == 1 + 4 * ((tag / 4) % 8) + 32 * (tag / 32)
  {
  }

  lemma Copy1TagFields(length: nat, offset: nat)
    requires 4 <= length <= 11 && offset < 2048
    ensures var tag := 1 + 4 * (length - 4) + 32 * (offset / 256);
            tag % 4 == 1 && 4 + (tag / 4) % 8 == length && (tag / 32) * 256 + offset % 256 == offset
  {
    var high := offset / 256;
    var tag := 1 + 4 * (length - 4) + 32 * high;
    assert tag / 4 == (length - 4) + 8 * high;
    assert tag / 32 == high;
  }

  lemma SerialisedLiteralIsRead(e: Element, rest: seq<byte>)
    requires WellFormed(e) && e.Literal?
    ensures ReadLiteralElement(Serialise(e) + rest) == Some((e, |Serialise(e)|))
    ensures Serialise(e)[0] % 4 == 0
  {
    hide LittleEndian, LittleEndianBytes, Power256;
    var d := Serialise(e) + rest;
    if e.extra > 0 {
      LittleEndianRoundTrip(|e.bytes| - 1, e.extra);
      assert d[1..1 + e.extra] == LittleEndianBytes(|e.bytes| - 1, e.extra);
      assert d[1 + e.extra..1 + e.extra + |e.bytes|] == e.bytes;
    } else {
      assert d[1..1 + |e.bytes|] == e.bytes;
    }
  }

  lemma SerialisedCopyIsRead(e: Element, rest: seq<byte>)
    requires WellFormed(e) && (e.Copy2? || e.Copy4?)
    ensures ReadElement(Serialise(e) + rest) == Some((e, |Serialise(e)|))
  {
    hide LittleEndian, LittleEndianBytes, Power256, ReadLiteralElement;
    var d := Serialise(e) + rest;
    var width := if e.Copy2? then 2 else 4;
    LittleEndianRoundTrip(e.offset, width);
    assert d[1..1 + width] == LittleEndianBytes(e.offset, width);
    if e.Copy2? {
      CopyTag(2, e.length);
    } else {
      CopyTag(3, e.length);
    }
  }

  lemma CopyTag(kind: nat, length: nat)
    requires 2 <= kind <= 3 && 1 <= length <= 64
    ensures var tag := kind + 4 * (length - 1); tag % 4 == kind && 1 + tag / 4 == length
  {
  }

  lemma SerialisedElementIsRead(e: Element, rest: seq<byte>)
    requires WellFormed(e)
    ensures ReadElement(Serialise(e) + rest) == Some((e, |Serialise(e)|))
  {
    hide LittleEndian, LittleEndianBytes, Power256, ReadLiteralElement;
    match e
    case Literal(_, _) => SerialisedLiteralIsRead(e, rest);
    case Copy1(length, offset) => Copy1TagFields(length, offset);
    case _ => SerialisedCopyIsRead(e, rest);
  }

  // -------------------------------------------------------------------- decoder

  /** Appends the element unless it is an invalid copy or exceeds the declared length. */
  function ApplyWithin(output: seq<byte>, e: Element, length: nat): Option<seq<byte>> {
    var o :- Apply(output, e);
    if |o| > length then None else Some(o)
  }

  function DecodeElements(d: seq<byte>, output: seq<byte>, length: nat): Option<seq<byte>>
    decreases |d|
  {
    if d == [] then
      if |output| == length then Some(output) else None
    else
      var (e, n) :- ReadElement(d);
      var o :- ApplyWithin(output, e, length);
      DecodeElements(d[n..], o, length)
  }

  function DecodeSnappy(payload: seq<byte>): Result<seq<byte>, ErrorCode> {
    match ReadPreamble(payload, 5)
    case None => Err(ResponseInvalid)
    case Some((length, n)) =>
      if length > MAX_PAYLOAD then Err(ResponseInvalid)
      else match DecodeElements(payload[n..], [], length)
        case None => Err(ResponseInvalid)
        case Some(output) => Ok(output)
  }

  // ------------------------------------------------------------------- theorems

  lemma {:induction false} DecodedElementsWereSerialised(d: seq<byte>, output: seq<byte>, length: nat)
      returns (es: seq<Element>)
    requires DecodeElements(d, output, length).Some?
    ensures WellFormedAll(es) && d == SerialiseAll(es)
    ensures ApplyAll(output, es) == DecodeElements(d, output, length)
    ensures |DecodeElements(d, output, length).value| == length
    decreases |d|
  {
    hide ReadElement, Serialise, Apply;
    if d == [] {
      es := [];
    } else {
      var (e, n) := ReadElement(d).value;
      ElementReadIsSerialised(d);
      var o := ApplyWithin(output, e, length).value;
      var tail := DecodedElementsWereSerialised(d[n..], o, length);
      es := [e] + tail;
      assert es[1..] == tail;
      assert d == d[..n] + d[n..];
    }
  }

  lemma {:induction false} SerialisedElementsDecode(es: seq<Element>, output: seq<byte>, length: nat)
    requires WellFormedAll(es) && ApplyAll(output, es).Some? && |ApplyAll(output, es).value| == length
    ensures DecodeElements(SerialiseAll(es), output, length) == ApplyAll(output, es)
    decreases |es|
  {
    hide ReadElement, Serialise, Apply;
    if es != [] {
      var d := SerialiseAll(es);
      SerialisedElementIsRead(es[0], SerialiseAll(es[1..]));
      assert d[|Serialise(es[0])|..] == SerialiseAll(es[1..]);
      SerialisedElementsDecode(es[1..], Apply(output, es[0]).value, length);
    }
  }

  ghost predicate Encodes(payload: seq<byte>, output: seq<byte>, p: seq<byte>, es: seq<Element>) {
    && ValidPreamble(p)
    && PreambleValue(p) == |output| <= MAX_PAYLOAD
    && WellFormedAll(es)
    && payload == p + SerialiseAll(es)
    && ApplyAll([], es) == Some(output)
  }

  /** The decoder accepts exactly the serialised blocks of at most 16 MiB, and returns their meaning. */
  lemma DecodeSnappyExact(payload: seq<byte>, output: seq<byte>)
    ensures DecodeSnappy(payload) == Ok(output) <==> exists p, es :: Encodes(payload, output, p, es)
  {
    hide DecodeElements, SerialiseAll, ReadPreamble, PreambleValue;
    if DecodeSnappy(payload) == Ok(output) {
      var (length, n) := ReadPreamble(payload, 5).value;
      var p := payload[..n];
      ReadPreambleIsValid(payload, 5);
      var es := DecodedElementsWereSerialised(payload[n..], [], length);
      assert payload == p + payload[n..];
      assert Encodes(payload, output, p, es);
    }
    if p, es :| Encodes(payload, output, p, es) {
      ValidPreambleIsRead(p, SerialiseAll(es), 5);
      assert payload[|p|..] == SerialiseAll(es);
      SerialisedElementsDecode(es, [], |output|);
    }
  }

  /** An overlapping copy reads bytes it has itself written: the output is periodic from its start. */
  lemma CopyIsPeriodic(output: seq<byte>, offset: nat, length: nat, i: nat)
    requires 0 < offset <= |output| && i < length
    ensures var o := output + Periodic(output, offset, length); o[|output| + i] == o[|output| + i - offset]
  {
    if i >= offset {
      assert (i - offset) % offset == i % offset by {
        ModMinus(i, offset);
      }
    }
  }

  lemma ModMinus(i: nat, m: nat)
    requires 0 < m <= i
    ensures (i - m) % m == i % m
  {
    QuotientUnique(i - m, m, i / m - 1, i % m) by {
      assert m * (i / m - 1) == m * (i / m) - m;
    }
  }

  lemma QuotientUnique(x: int, m: nat, q: int, r: nat)
    requires m > 0 && r < m && x == m * q + r
    ensures x % m == r
  {
    var k := x / m - q;
    assert m * (x / m) == m * q + m * k;
    assert m * k == r - x % m;
    if k > 0 {
      AtLeastOnce(m, k);
    } else if k < 0 {
      AtLeastOnce(m, -k);
    }
  }

  lemma AtLeastOnce(m: nat, k: nat)
    requires k > 0
    ensures m * k >= m
  {
    assert m * k == m * (k - 1) + m;
  }
}
