/** The tags of Snappy blocks byte by byte, and blocks whose meaning can be read off them. */
module SnappyTags {
  import opened Wrappers
  import opened Bytes
  import opened SnappyBlock

  lemma OneByte(x: byte)
    ensures LittleEndian([x]) == x && LittleEndianBytes(x, 1) == [x]
  {
    var one: seq<byte> := [x];
    assert one[1..] == [];
    assert LittleEndian(one[1..]) == 0;
    assert LittleEndianBytes(x / 256, 0) == [];
  }

  lemma TwoBytes(low: byte, high: byte)
    ensures LittleEndian([low, high]) == low + 256 * (high as nat) && LittleEndianBytes(low + 256 * (high as nat), 2) == [low, high]
  {
    var two: seq<byte> := [low, high];
    assert two[1..] == [high];
    OneByte(high);
    LowByteOf(low, high);
    assert LittleEndianBytes(low + 256 * (high as nat), 2) == [low] + LittleEndianBytes(high, 1);
  }

  lemma FourBytes(a: byte, b: byte, c: byte, d: byte)
    ensures LittleEndian([a, b, c, d]) == a + 256 * (b as nat) + 65536 * (c as nat) + 16777216 * (d as nat)
  {
    var four: seq<byte> := [a, b, c, d];
    assert four[1..] == [b, c, d] && four[1..][1..] == [c, d];
    TwoBytes(c, d);
    assert LittleEndian(four[1..]) == b + 256 * LittleEndian(four[1..][1..]);
  }

  /** The lowest two bits of a tag are its type. */
  lemma CopyTags(tag: byte, a: byte, b: byte, c: byte, d: byte)
    ensures tag % 4 == 1 ==> ReadElement([tag, a]) == Some((Copy1(4 + tag / 4 % 8, 256 * (tag / 32) + a), 2))
    ensures tag % 4 == 2 ==> ReadElement([tag, a, b]) == Some((Copy2(1 + tag / 4, a + 256 * (b as nat)), 3))
    ensures tag % 4 == 3 ==>
              ReadElement([tag, a, b, c, d])
              == Some((Copy4(1 + tag / 4, a + 256 * (b as nat) + 65536 * (c as nat) + 16777216 * (d as nat)), 5))
    ensures tag % 4 == 1 ==> ReadElement([tag]) == None
    ensures tag % 4 == 2 ==> ReadElement([tag, a]) == None
    ensures tag % 4 == 3 ==> ReadElement([tag, a, b, c]) == None
  {
    hide LittleEndian;
    TwoBytes(a, b);
    FourBytes(a, b, c, d);
    assert [tag, a, b][1..3] == [a, b] && [tag, a, b, c, d][1..5] == [a, b, c, d];
  }

  /** Type 0 is a literal: up to sixty bytes are counted in the tag, more in one to four bytes after it. */
  lemma LiteralTags(bytes: seq<byte>, low: byte, high: byte)
    ensures 1 <= |bytes| <= 60 ==> ReadElement([4 * (|bytes| - 1)] + bytes) == Some((Literal(0, bytes), 1 + |bytes|))
    ensures |bytes| == 1 + low ==> ReadElement([240, low] + bytes) == Some((Literal(1, bytes), 2 + |bytes|))
    ensures |bytes| == 1 + low + 256 * (high as nat) ==> ReadElement([244, low, high] + bytes) == Some((Literal(2, bytes), 3 + |bytes|))
    ensures 1 <= |bytes| <= 60 ==> ReadElement([4 * (|bytes| - 1)] + bytes[1..]) == None
  {
    hide LittleEndian;
    OneByte(low);
    TwoBytes(low, high);
    if 1 <= |bytes| <= 60 {
      assert ([4 * (|bytes| - 1)] + bytes)[1..1 + |bytes|] == bytes;
    }
    var one, two := [240, low] + bytes, [244, low, high] + bytes;
    assert one[1..2] == [low] && two[1..3] == [low, high];
    assert one[2..2 + |bytes|] == bytes && two[3..3 + |bytes|] == bytes;
  }

  // ------------------------------------------------------------------- blocks

  lemma OneElement(e: Element)
    requires WellFormed(e)
    ensures WellFormedAll([e]) && SerialiseAll([e]) == Serialise(e)
  {
    hide Serialise;
    assert [e][1..] == [];
    assert SerialiseAll([]) == [];
    assert Serialise(e) + [] == Serialise(e);
  }

  lemma TwoElements(e: Element, f: Element)
    requires WellFormed(e) && WellFormed(f)
    ensures WellFormedAll([e, f]) && SerialiseAll([e, f]) == Serialise(e) + Serialise(f)
  {
    hide Serialise;
    OneElement(f);
    assert [e, f][1..] == [f];
  }

  lemma OneDigit(length: nat)
    requires length < 128
    ensures ValidPreamble([length]) && PreambleValue([length]) == length
  {
    var p: seq<byte> := [length];
    assert p[1..] == [];
    assert PreambleValue(p[1..]) == 0;
  }

  lemma TwoDigits(length: nat)
    requires 128 <= length < 16384
    ensures ValidPreamble([128 + length % 128, length / 128]) && PreambleValue([128 + length % 128, length / 128]) == length
  {
    var p: seq<byte> := [128 + length % 128, length / 128];
    assert p[1..] == [length / 128];
    OneDigit(length / 128);
  }

  lemma Meaning(payload: seq<byte>, output: seq<byte>, p: seq<byte>, es: seq<Element>)
    requires Encodes(payload, output, p, es)
    ensures DecodeSnappy(payload) == Ok(output)
  {
    DecodeSnappyExact(payload, output);
  }

  lemma OneLiteral(p: seq<byte>, e: Element)
    requires ValidPreamble(p) && e.Literal? && WellFormed(e) && PreambleValue(p) == |e.bytes| <= MAX_PAYLOAD
    ensures DecodeSnappy(p + Serialise(e)) == Ok(e.bytes)
  {
    hide DecodeSnappy, SerialiseAll, WellFormedAll, ValidPreamble, PreambleValue, WellFormed, Serialise, ApplyAll;
    OneElement(e);
    LiteralApplies(e);
    Meaning(p + Serialise(e), e.bytes, p, [e]);
  }

  /** One literal, with the three forms of lengths that occur. */
  lemma LiteralBlocks(bytes: seq<byte>)
    ensures 1 <= |bytes| <= 60 ==> DecodeSnappy([|bytes|, 4 * (|bytes| - 1)] + bytes) == Ok(bytes)
    ensures 61 <= |bytes| < 128 ==> DecodeSnappy([|bytes|, 240, |bytes| - 1] + bytes) == Ok(bytes)
    ensures 128 <= |bytes| <= 256 ==> DecodeSnappy([128 + |bytes| % 128, |bytes| / 128, 240, |bytes| - 1] + bytes) == Ok(bytes)
  {
    hide DecodeSnappy, ValidPreamble, PreambleValue, Power256, Serialise;
    Power1();
    if 1 <= |bytes| <= 60 {
      LiteralBytes(bytes);
      OneDigit(|bytes|);
      OneLiteral([|bytes|], Literal(0, bytes));
      assert [|bytes|] + ([4 * (|bytes| - 1)] + bytes) == [|bytes|, 4 * (|bytes| - 1)] + bytes;
    } else if 61 <= |bytes| < 128 {
      LiteralBytes(bytes);
      OneDigit(|bytes|);
      OneLiteral([|bytes|], Literal(1, bytes));
      assert [|bytes|] + ([240, |bytes| - 1] + bytes) == [|bytes|, 240, |bytes| - 1] + bytes;
    } else if 128 <= |bytes| <= 256 {
      LongerLiteralBlock(bytes);
    }
  }

  lemma LongerLiteralBlock(bytes: seq<byte>)
    requires 128 <= |bytes| <= 256
    ensures DecodeSnappy([128 + |bytes| % 128, |bytes| / 128, 240, |bytes| - 1] + bytes) == Ok(bytes)
  {
    hide DecodeSnappy, ValidPreamble, PreambleValue, Power256, Serialise;
    Power1();
    LiteralBytes(bytes);
    TwoDigits(|bytes|);
    var p: seq<byte> := [128 + |bytes| % 128, |bytes| / 128];
    OneLiteral(p, Literal(1, bytes));
    assert p + ([240, |bytes| - 1] + bytes) == [128 + |bytes| % 128, |bytes| / 128, 240, |bytes| - 1] + bytes;
  }

  lemma Power1()
    ensures Power256(1) == 256
  {
  }

  lemma LiteralApplies(e: Element)
    requires e.Literal?
    ensures ApplyAll([], [e]) == Some(e.bytes)
  {
    assert [e][1..] == [];
    assert [] + e.bytes == e.bytes;
  }

  lemma LiteralBytes(bytes: seq<byte>)
    requires 1 <= |bytes| <= 256
    ensures |bytes| <= 60 ==> Serialise(Literal(0, bytes)) == [4 * (|bytes| - 1)] + bytes
    ensures Serialise(Literal(1, bytes)) == [240, |bytes| - 1] + bytes
  {
    OneByte(|bytes| - 1);
  }

  lemma CopyApplies(bytes: seq<byte>, f: Element, more: seq<byte>)
    requires !f.Literal? && 0 < f.offset <= |bytes| && |more| == f.length
    requires forall i :: 0 <= i < |more| ==> more[i] == bytes[|bytes| - f.offset + i % f.offset]
    ensures ApplyAll([], [Literal(0, bytes), f]) == Some(bytes + more)
  {
    var e := Literal(0, bytes);
    assert [e, f][1..] == [f] && [f][1..] == [];
    assert [] + bytes == bytes;
    assert Periodic(bytes, f.offset, f.length) == more;
    assert Apply([], e) == Some(bytes);
    assert ApplyAll(bytes, [f]) == Some(bytes + more);
  }

  /** A literal and a copy from it. */
  lemma LiteralThenCopy(bytes: seq<byte>, f: Element, more: seq<byte>)
    requires 1 <= |bytes| <= 60 && |bytes| + |more| < 128
    requires WellFormed(f) && !f.Literal? && 0 < f.offset <= |bytes| && |more| == f.length
    requires forall i :: 0 <= i < |more| ==> more[i] == bytes[|bytes| - f.offset + i % f.offset]
    ensures DecodeSnappy([|bytes| + |more|, 4 * (|bytes| - 1)] + bytes + Serialise(f)) == Ok(bytes + more)
  {
    hide DecodeSnappy, SerialiseAll, WellFormedAll, ValidPreamble, PreambleValue, WellFormed, Serialise, ApplyAll;
    var e := Literal(0, bytes);
    LiteralIsWellFormed(bytes);
    TwoElements(e, f);
    OneDigit(|bytes| + |more|);
    CopyApplies(bytes, f, more);
    LiteralBytes(bytes);
    var p: seq<byte> := [|bytes| + |more|];
    var head := [|bytes| + |more|, 4 * (|bytes| - 1)] + bytes;
    assert head == p + Serialise(e);
    assert head + Serialise(f) == p + (Serialise(e) + Serialise(f));
    Meaning(head + Serialise(f), bytes + more, p, [e, f]);
  }

  lemma LiteralIsWellFormed(bytes: seq<byte>)
    ensures WellFormed(Literal(0, bytes)) <==> 1 <= |bytes| <= 60
  {
  }

  /** Three bytes, then six copied from three back: the copy reads what it has just written. */
  lemma OverlappingCopy(a: byte, b: byte, c: byte)
    ensures DecodeSnappy([9, 8, a, b, c, 9, 3]) == Ok([a, b, c, a, b, c, a, b, c])
  {
    hide DecodeSnappy;
    var bytes := [a, b, c];
    assert [9, 8] + bytes + [9, 3] == [9, 8, a, b, c, 9, 3];
    LiteralThenCopy(bytes, Copy1(6, 3), [a, b, c, a, b, c]);
    assert bytes + [a, b, c, a, b, c] == [a, b, c, a, b, c, a, b, c];
  }

  /** Four bytes copied from four back, with a two-byte offset. */
  lemma TwoByteOffset(a: byte, b: byte, c: byte, d: byte)
    ensures DecodeSnappy([8, 12, a, b, c, d, 14, 4, 0]) == Ok([a, b, c, d, a, b, c, d])
  {
    hide DecodeSnappy, LittleEndianBytes, Power256;
    var bytes := [a, b, c, d];
    OffsetOfFour();
    LiteralThenCopy(bytes, Copy2(4, 4), bytes);
    assert Serialise(Copy2(4, 4)) == [14, 4, 0];
    assert [8, 12] + bytes + [14, 4, 0] == [8, 12, a, b, c, d, 14, 4, 0];
    assert bytes + bytes == [a, b, c, d, a, b, c, d];
  }

  /** Four bytes copied from four back, with a four-byte offset. */
  lemma FourByteOffset(a: byte, b: byte, c: byte, d: byte)
    ensures DecodeSnappy([8, 12, a, b, c, d, 15, 4, 0, 0, 0]) == Ok([a, b, c, d, a, b, c, d])
  {
    hide DecodeSnappy, LittleEndianBytes, Power256;
    var bytes := [a, b, c, d];
    OffsetOfFour();
    LiteralThenCopy(bytes, Copy4(4, 4), bytes);
    assert Serialise(Copy4(4, 4)) == [15, 4, 0, 0, 0];
    assert [8, 12] + bytes + [15, 4, 0, 0, 0] == [8, 12, a, b, c, d, 15, 4, 0, 0, 0];
    assert bytes + bytes == [a, b, c, d, a, b, c, d];
  }

  lemma OffsetOfFour()
    ensures LittleEndianBytes(4, 2) == [4, 0] && LittleEndianBytes(4, 4) == [4, 0, 0, 0] && 4 < Power256(2) && 4 < Power256(4)
  {
    assert Power256(1) == 256 && Power256(2) == 65536 && Power256(3) == 256 * Power256(2);
    assert LittleEndianBytes(0, 0) == [];
    assert LittleEndianBytes(0, 1) == [0] && LittleEndianBytes(0, 2) == [0, 0];
    assert LittleEndianBytes(0, 3) == [0] + LittleEndianBytes(0, 2);
    assert LittleEndianBytes(4, 4) == [4] + LittleEndianBytes(0, 3);
  }

  /** Refused: a copy from nowhere, a copy from before the start, and a block of another length than it says. */
  lemma RefusedBlocks(x: byte)
    ensures DecodeSnappy([5, 0, x, 1, 0]) == Err(ResponseInvalid)
    ensures DecodeSnappy([5, 0, x, 1, 2]) == Err(ResponseInvalid)
    ensures DecodeSnappy([6, 0, x, 1, 1]) == Err(ResponseInvalid) && DecodeSnappy([4, 0, x, 1, 1]) == Err(ResponseInvalid)
    ensures DecodeSnappy([5, 0, x, 1, 1]) == Ok([x, x, x, x, x])
  {
    hide DecodeElements;
    forall length: byte, offset: byte | length < 128
      ensures DecodeElements([0, x, 1, offset], [], length)
           == if offset == 1 && length == 5 then Some([x, x, x, x, x]) else None
    {
      LiteralAndCopy(x, offset, length);
    }
    assert [5, 0, x, 1, 0][1..] == [0, x, 1, 0] && [5, 0, x, 1, 2][1..] == [0, x, 1, 2];
    assert [6, 0, x, 1, 1][1..] == [0, x, 1, 1] && [4, 0, x, 1, 1][1..] == [0, x, 1, 1] && [5, 0, x, 1, 1][1..] == [0, x, 1, 1];
  }

  lemma LiteralAndCopy(x: byte, offset: byte, length: nat)
    ensures DecodeElements([0, x, 1, offset], [], length) == if offset == 1 && length == 5 then Some([x, x, x, x, x]) else None
  {
    hide LittleEndian;
    var d: seq<byte> := [0, x, 1, offset];
    assert d[1..2] == [x] && d[2..] == [1, offset] && [] + [x] == [x];
    assert ReadElement(d) == Some((Literal(0, [x]), 2));
    CopyTags(1, offset, 0, 0, 0);
    var f := Copy1(4, offset);
    assert [1, offset][2..] == [];
    assert DecodeElements([1, offset], [x], length)
        == (match ApplyWithin([x], f, length) case None => None case Some(o) => DecodeElements([], o, length));
    if offset == 1 {
      assert Periodic([x], 1, 4) == [x, x, x, x];
      assert [x] + [x, x, x, x] == [x, x, x, x, x];
    }
  }
}
