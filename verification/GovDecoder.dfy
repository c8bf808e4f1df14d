/** The decoder as the service runs it: a bit reader advanced in place and an output grown in loops. */
module GovDecoder {
  import opened Wrappers
  import opened Bytes
  import opened GovCodec

  class CoreGovBitReader {
    const payload: seq<byte>
    var position: nat
    var control: byte
    var bitsRemaining: nat

    ghost predicate Valid()
      reads this
    {
      position <= |payload| && 1 <= bitsRemaining <= 8
    }

    /** What is left to read. */
    ghost function View(): Stream
      requires Valid()
      reads this
    {
      RawStream(TopBits(control, bitsRemaining), payload[position..])
    }

    constructor (payload: seq<byte>)
      requires |payload| >= 2
      ensures Valid() && View() == Open(payload)
    {
      this.payload := payload;
      position := 1;
      control := payload[0];
      bitsRemaining := 8;
    }

    method Bit() returns (r: Option<bool>)
      requires Valid()
      modifies this
      ensures match ReadBit(old(View()))
              case None => r.None?
              case Some((value, rest)) => r == Some(value) && Valid() && View() == rest
    {
      var value := control >= 128;
      ghost var was := View();
      assert was.bits == [control >= 128] + TopBits(Shifted(control), bitsRemaining - 1);
      assert was.bits[1..] == TopBits(Shifted(control), bitsRemaining - 1);
      control := Shifted(control);
      bitsRemaining := bitsRemaining - 1;
      if bitsRemaining == 0 {
        if position >= |payload| {
          return None;
        }
        control := payload[position];
        position := position + 1;
        bitsRemaining := 8;
      }
      return Some(value);
    }

    method Byte() returns (r: Option<byte>)
      requires Valid()
      modifies this
      ensures match ReadByte(old(View()))
              case None => r.None?
              case Some((x, rest)) => r == Some(x) && Valid() && View() == rest
    {
      if position >= |payload| {
        return None;
      }
      var x := payload[position];
      position := position + 1;
      return Some(x);
    }
  }

  /** The output after the run whose length code is next in `s`; None if the code or the run does not fit. */
  ghost function RunFrom(s: Stream, output: seq<byte>, last: byte, limit: nat): Option<(seq<byte>, Stream)> {
    match ReadLength(s)
    case None => None
    case Some((l, rest)) =>
      if |output| + Count(l) > limit then None else Some((output + Fill(last, Count(l)), rest))
  }

  /** append_last; `base` is the output before the run and `already` what the run has appended so far. */
  method AppendLast(ghost base: seq<byte>, ghost already: nat, output: seq<byte>, count: nat, last: byte, limit: nat)
      returns (r: Option<seq<byte>>)
    requires output == base + Fill(last, already)
    ensures r == if |base| + already + count > limit then None else Some(base + Fill(last, already + count))
  {
    if |output| + count > limit {
      return None;
    }
    assert output + Fill(last, count) == base + Fill(last, already + count);
    return Some(output + Fill(last, count));
  }

  /** One chunk of a long run, and the sum of all its chunks. */
  function ReadChunk(s: Stream): (o: Option<(nat, Stream)>)
    ensures o.Some? ==> |o.value.1.rest| < |s.rest|
  {
    var (x, s1) :- ReadByte(s);
    if x <= 127 then Some((x, s1))
    else
      var (y, s2) :- ReadByte(s1);
      Some(((x - 128) * 256 + y, s2))
  }

  function SumChunks(s: Stream): Option<(nat, Stream)>
    decreases |s.rest|
  {
    var (n, s1) :- ReadChunk(s);
    if n != 32767 then Some((n, s1))
    else
      var (sum, s2) :- SumChunks(s1);
      Some((n + sum, s2))
  }

  lemma {:induction false} ReadLongSumsChunks(s: Stream)
    ensures match ReadLong(s)
            case None => SumChunks(s) == None
            case Some((l, rest)) => SumChunks(s) == Some((Count(l) - 12, rest))
    decreases |s.rest|
  {
    var first := ReadByte(s);
    if first.Some? && first.value.0 > 127 {
      var second := ReadByte(first.value.1);
      if second.Some? {
        ReadLongSumsChunks(second.value.1);
      }
    }
  }

  method NextChunk(reader: CoreGovBitReader) returns (r: Option<nat>)
    requires reader.Valid()
    modifies reader
    ensures match ReadChunk(old(reader.View()))
            case None => r.None?
            case Some((n, rest)) => r == Some(n) && reader.Valid() && reader.View() == rest
  {
    var x :- reader.Byte();
    var runLength: int := x;
    if runLength > 127 {
      var y :- reader.Byte();
      runLength := (runLength - 128) * 256 + y;
    }
    return Some(runLength);
  }

  /** The part of a run after its length code has reached 12. */
  method DecodeLongRun(reader: CoreGovBitReader, ghost base: seq<byte>, output: seq<byte>, last: byte, limit: nat)
      returns (r: Option<seq<byte>>)
    requires reader.Valid() && |base| + 12 <= limit && output == base + Fill(last, 12)
    modifies reader
    ensures match ReadLong(old(reader.View()))
            case None => r.None?
            case Some((l, rest)) =>
              if |base| + Count(l) > limit then r.None?
              else r == Some(base + Fill(last, Count(l))) && reader.Valid() && reader.View() == rest
  {
    hide TopBits, ReadLength, ReadLong, ReadChunk;
    var o := output;
    ghost var already: nat := 12;
    ghost var start := reader.View();
    ReadLongSumsChunks(start);
    while true
      invariant reader.Valid() && 12 <= already && |base| + already <= limit
      invariant o == base + Fill(last, already)
      invariant match SumChunks(reader.View())
                case None => SumChunks(start) == None
                case Some((sum, rest)) => SumChunks(start) == Some((already - 12 + sum, rest))
      decreases limit - already
    {
      var runLength :- NextChunk(reader);
      o :- AppendLast(base, already, o, runLength, last, limit);
      already := already + runLength;
      if runLength != 32767 {
        break;
      }
    }
    return Some(o);
  }

  /** The part of a run after its first length bit; the run has appended `last` once. */
  method DecodeRun(reader: CoreGovBitReader, output: seq<byte>, last: byte, limit: nat)
      returns (r: Option<seq<byte>>)
    requires reader.Valid()
    modifies reader
    ensures match RunFrom(old(reader.View()), output, last, limit)
            case None => r.None?
            case Some((o, rest)) => r == Some(o) && reader.Valid() && reader.View() == rest
  {
    hide ReadBit, ReadLong, TopBits, ReadLengthTail;
    assert output + Fill(last, 0) == output;
    var o :- AppendLast(output, 0, output, 1, last, limit);
    var more :- reader.Bit();
    if !more { return Some(o); }
    o :- AppendLast(output, 1, o, 1, last, limit);
    var b2 :- reader.Bit();
    if !b2 {
      var b3 :- reader.Bit();
      if b3 {
        o :- AppendLast(output, 2, o, 1, last, limit);
      }
      return Some(o);
    }
    o :- AppendLast(output, 2, o, 2, last, limit);
    var b3 :- reader.Bit();
    if !b3 { return Some(o); }
    r := DecodeRunTail(reader, output, o, last, limit);
  }

  /** The part of a run after its first three length bits were one; the run has appended `last` four times. */
  method DecodeRunTail(reader: CoreGovBitReader, ghost base: seq<byte>, output: seq<byte>, last: byte, limit: nat)
      returns (r: Option<seq<byte>>)
    requires reader.Valid() && output == base + Fill(last, 4)
    modifies reader
    ensures match ReadLengthTail(old(reader.View()))
            case None => r.None?
            case Some((l, rest)) =>
              if |base| + Count(l) > limit then r.None?
              else r == Some(base + Fill(last, Count(l))) && reader.Valid() && reader.View() == rest
  {
    hide ReadBit, ReadLong, TopBits;
    var o :- AppendLast(base, 4, output, 1, last, limit);
    var b4 :- reader.Bit();
    if !b4 {
      var b5 :- reader.Bit();
      if !b5 {
        var b6 :- reader.Bit();
        if b6 {
          o :- AppendLast(base, 5, o, 1, last, limit);
        }
      } else {
        var b6 :- reader.Bit();
        if !b6 {
          o :- AppendLast(base, 5, o, 2, last, limit);
        } else {
          o :- AppendLast(base, 5, o, 3, last, limit);
        }
      }
      return Some(o);
    }
    o :- AppendLast(base, 5, o, 4, last, limit);
    var b5 :- reader.Bit();
    if !b5 {
      var b6 :- reader.Bit();
      if b6 {
        o :- AppendLast(base, 9, o, 1, last, limit);
      }
      return Some(o);
    }
    var b6 :- reader.Bit();
    if !b6 {
      o :- AppendLast(base, 9, o, 2, last, limit);
      return Some(o);
    }
    o :- AppendLast(base, 9, o, 3, last, limit);
    r := DecodeLongRun(reader, base, o, last, limit);
  }

  /** decode_core_gov */
  method DecodeCoreGov(payload: seq<byte>, outputLength: int) returns (r: Result<seq<byte>, ErrorCode>)
    ensures r == DecodeGov(payload, outputLength)
  {
    hide TopBits, ReadToken, Expand;
    if outputLength <= 0 || outputLength > MAX_PAYLOAD {
      return Err(ResponseInvalid);
    }
    if |payload| < 2 {
      return Err(ResponseInvalid);
    }
    var reader := new CoreGovBitReader(payload);
    var first := reader.Byte();
    if first.None? {
      assert false;
      return Err(ResponseInvalid);
    }
    var output := [first.value];
    var last := first.value;
    var limit := outputLength + 1;
    ghost var wanted := DecodeFrom(reader.View(), output, outputLength);
    while |output| < outputLength
      invariant reader.Valid()
      invariant 0 < |output| <= limit && last == output[|output| - 1]
      invariant DecodeFrom(reader.View(), output, outputLength) == wanted
      decreases outputLength - |output|
    {
      var step := DecodeToken(reader, output, last, limit);
      if step.None? {
        return Err(ResponseInvalid);
      }
      output, last := step.value.0, step.value.1;
    }
    // The final length check of the source cannot fail.
    assert |output| == outputLength || |output| == limit;
    return Ok(output[..outputLength]);
  }

  /** One pass of the decoder's main loop. */
  method DecodeToken(reader: CoreGovBitReader, output: seq<byte>, last: byte, limit: nat)
      returns (r: Option<(seq<byte>, byte)>)
    requires reader.Valid() && 0 < |output| && |output| + 2 <= limit && last == output[|output| - 1]
    modifies reader
    ensures match ReadToken(old(reader.View()))
            case None => r.None?
            case Some((t, rest)) =>
              var o := Expand(output, t);
              if |o| > limit then r.None?
              else r == Some((o, o[|o| - 1])) && reader.Valid() && reader.View() == rest && |o| > |output|
  {
    hide ReadBit, ReadByte, TopBits, ReadLength;
    var run :- reader.Bit();
    if !run {
      var x :- reader.Byte();
      var y :- reader.Byte();
      return Some((output + [x, y], y));
    }
    var o, current := output, last;
    var repeat :- reader.Bit();
    if !repeat {
      current :- reader.Byte();
      o := o + [current];
    }
    o :- DecodeRun(reader, o, current, limit);
    return Some((o, current));
  }
}
