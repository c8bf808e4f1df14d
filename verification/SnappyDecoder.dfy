/** The block decoder as the service runs it: one pass over the data, the output grown in place. */
module SnappyDecoder {
  import opened Wrappers
  import opened Bytes
  import opened SnappyBlock

  /** The preamble whose digits after the first `count` are `tail`, the first `count` being worth `value`. */
  ghost function After(value: nat, weight: nat, count: nat, tail: Option<(nat, nat)>): Option<(nat, nat)> {
    match tail
    case None => None
    case Some((v, n)) => Some((value + weight * v, count + n))
  }

  lemma NextDigit(value: nat, weight: nat, count: nat, d: seq<byte>, most: nat)
    requires d != [] && most > 0
    ensures After(value, weight, count, ReadPreamble(d, most))
         == if d[0] < 128 then Some((value + weight * (d[0] % 128), count + 1))
            else After(value + weight * (d[0] % 128), weight * 128, count + 1, ReadPreamble(d[1..], most - 1))
  {
    var tail := ReadPreamble(d[1..], most - 1);
    if d[0] >= 128 && tail.Some? {
      Distribute(weight, d[0] % 128, tail.value.0);
    }
  }

  lemma Distribute(weight: nat, digit: nat, v: nat)
    ensures weight * (digit + 128 * v) == weight * digit + (weight * 128) * v
  {
    assert weight * (128 * v) == (weight * 128) * v;
  }

  lemma NoDigits(data: seq<byte>)
    ensures After(0, 1, 0, ReadPreamble(data[0..], 5)) == ReadPreamble(data, 5)
    ensures forall d: seq<byte>, most: nat {:trigger ReadPreamble(d, most)} :: d == [] || most == 0 ==> ReadPreamble(d, most) == None
  {
    assert data[0..] == data;
  }

  /** The preamble loop: seven bits a byte, least significant first. */
  method DecodePreamble(data: seq<byte>) returns (r: Option<(nat, nat)>)
    ensures r == ReadPreamble(data, 5)
  {
    hide ReadPreamble;
    NoDigits(data);
    var position: nat, value: nat, weight: nat := 0, 0, 1;
    while true
      invariant position <= |data| && position <= 5
      invariant After(value, weight, position, ReadPreamble(data[position..], 5 - position)) == ReadPreamble(data, 5)
      decreases |data| - position
    {
      if position >= |data| || position > 4 {
        assert ReadPreamble(data[position..], 5 - position) == None;
        return None;
      }
      var x: nat := data[position];
      NextDigit(value, weight, position, data[position..], 5 - position);
      assert data[position..][1..] == data[position + 1..];
      value := value + weight * (x % 128);
      position := position + 1;
      if x < 128 {
        return Some((value, position));
      }
      weight := weight * 128;
    }
  }

  lemma PeriodicNext(output: seq<byte>, offset: nat, i: nat)
    requires 0 < offset <= |output|
    ensures var o := output + Periodic(output, offset, i);
            o + [o[|o| - offset]] == output + Periodic(output, offset, i + 1)
  {
    CopyIsPeriodic(output, offset, i + 1, i);
  }

  /** output.append(output[-offset]), `length` times. */
  method CopyWithin(output: seq<byte>, offset: nat, length: nat) returns (o: seq<byte>)
    requires 0 < offset <= |output|
    ensures o == output + Periodic(output, offset, length)
  {
    o := output;
    for i := 0 to length
      invariant o == output + Periodic(output, offset, i)
    {
      PeriodicNext(output, offset, i);
      o := o + [o[|o| - offset]];
    }
  }

  /** A literal element: the bytes it appends and the position after it. */
  method DecodeLiteral(data: seq<byte>, start: nat, room: nat) returns (r: Option<(seq<byte>, nat)>)
    requires start < |data| && data[start] % 4 == 0
    ensures match ReadElement(data[start..])
            case None => r.None?
            case Some((e, n)) => if |e.bytes| > room then r.None? else r == Some((e.bytes, start + n))
  {
    ghost var d := data[start..];
    var position := start + 1;
    var length := data[start] / 4;
    if length < 60 {
      length := length + 1;
    } else {
      var lengthBytes := length - 59;
      if lengthBytes > 4 || position + lengthBytes > |data| {
        return None;
      }
      assert d[1..1 + lengthBytes] == data[position..position + lengthBytes];
      length := LittleEndian(data[position..position + lengthBytes]) + 1;
      position := position + lengthBytes;
    }
    if position + length > |data| || length > room {
      return None;
    }
    assert data[position..position + length] == d[position - start..position - start + length];
    return Some((data[position..position + length], position + length));
  }

  /** The length and offset of a copy element, and the position after it. */
  method DecodeCopy(data: seq<byte>, start: nat) returns (r: Option<(nat, nat, nat)>)
    requires start < |data| && data[start] % 4 != 0
    ensures match ReadElement(data[start..])
            case None => r.None?
            case Some((e, n)) => !e.Literal? && r == Some((e.length, e.offset, start + n))
  {
    ghost var d := data[start..];
    var tag: nat, position: nat := data[start], start + 1;
    if tag % 4 == 1 {
      if position >= |data| {
        return None;
      }
      return Some((4 + (tag / 4) % 8, (tag / 32) * 256 + data[position], position + 1));
    } else if tag % 4 == 2 {
      if position + 2 > |data| {
        return None;
      }
      assert d[1..3] == data[position..position + 2];
      return Some((1 + tag / 4, LittleEndian(data[position..position + 2]), position + 2));
    } else {
      if position + 4 > |data| {
        return None;
      }
      assert d[1..5] == data[position..position + 4];
      return Some((1 + tag / 4, LittleEndian(data[position..position + 4]), position + 4));
    }
  }

  /** decode_core_snappy */
  method DecodeCoreSnappy(data: seq<byte>) returns (r: Result<seq<byte>, ErrorCode>)
    ensures r == DecodeSnappy(data)
  {
    var preamble := DecodePreamble(data);
    if preamble.None? {
      return Err(ResponseInvalid);
    }
    var outputLength, position := preamble.value.0, preamble.value.1;
    if outputLength > MAX_PAYLOAD {
      return Err(ResponseInvalid);
    }
    var output: seq<byte> := [];
    ghost var wanted := DecodeElements(data[position..], output, outputLength);
    while position < |data|
      invariant position <= |data| && |output| <= outputLength
      invariant DecodeElements(data[position..], output, outputLength) == wanted
      decreases |data| - position
    {
      hide ReadElement, Periodic;
      ghost var d := data[position..];
      if data[position] % 4 == 0 {
        var literal := DecodeLiteral(data, position, outputLength - |output|);
        if literal.None? {
          return Err(ResponseInvalid);
        }
        assert d[literal.value.1 - position..] == data[literal.value.1..];
        output := output + literal.value.0;
        position := literal.value.1;
      } else {
        var copy := DecodeCopy(data, position);
        if copy.None? {
          return Err(ResponseInvalid);
        }
        var (length, offset, next) := copy.value;
        if offset <= 0 || offset > |output| || |output| + length > outputLength {
          return Err(ResponseInvalid);
        }
        assert d[next - position..] == data[next..];
        output := CopyWithin(output, offset, length);
        position := next;
      }
    }
    if |output| != outputLength {
      return Err(ResponseInvalid);
    }
    return Ok(output);
  }
}
