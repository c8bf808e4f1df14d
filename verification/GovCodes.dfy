/** The bit codes of the `gov` codec, and payloads whose meaning can be read off them. */
module GovCodes {
  import opened Wrappers
  import opened Bytes
  import opened GovCodec

  // --------------------------------------------------------------------- bits

  /** The first bit of a control byte weighs 128, the last 1. */
  lemma ControlMeans(control: byte)
    ensures var b := TopBits(control, 8);
            control == (if b[0] then 128 else 0) + (if b[1] then 64 else 0) + (if b[2] then 32 else 0) + (if b[3] then 16 else 0)
                     + (if b[4] then 8 else 0) + (if b[5] then 4 else 0) + (if b[6] then 2 else 0) + (if b[7] then 1 else 0)
  {
    hide TopBits;
    var b := TopBits(control, 8);
    PackOfTopBits(control);
    EightBits(b);
  }

  lemma EightBits(b: seq<bool>)
    requires |b| == 8
    ensures Pack(b) == (if b[0] then 128 else 0) + (if b[1] then 64 else 0) + (if b[2] then 32 else 0) + (if b[3] then 16 else 0)
                     + (if b[4] then 8 else 0) + (if b[5] then 4 else 0) + (if b[6] then 2 else 0) + (if b[7] then 1 else 0)
  {
    Weights();
    assert b[0..] == b && b[0..][1..] == b[1..];
    assert b[6..][1..] == b[7..] && b[5..][1..] == b[6..] && b[4..][1..] == b[5..];
    assert b[3..][1..] == b[4..] && b[2..][1..] == b[3..] && b[1..][1..] == b[2..];
    var v7 := Value(b[7..], 0);
    assert v7 == if b[7] then 1 else 0;
    var v6 := Value(b[6..], 1);
    assert v6 == (if b[6] then 2 else 0) + v7;
    var v5 := Value(b[5..], 2);
    assert v5 == (if b[5] then 4 else 0) + v6;
    var v4 := Value(b[4..], 3);
    assert v4 == (if b[4] then 8 else 0) + v5;
    var v3 := Value(b[3..], 4);
    assert v3 == (if b[3] then 16 else 0) + v4;
    var v2 := Value(b[2..], 5);
    assert v2 == (if b[2] then 32 else 0) + v3;
    var v1 := Value(b[1..], 6);
    assert v1 == (if b[1] then 64 else 0) + v2;
  }

  lemma Weights()
    ensures Power2(0) == 1 && Power2(1) == 2 && Power2(2) == 4 && Power2(3) == 8
    ensures Power2(4) == 16 && Power2(5) == 32 && Power2(6) == 64 && Power2(7) == 128
  {
    assert Power2(3) == 8;
    assert Power2(5) == 32;
  }

  function Bits(code: string): (bits: seq<bool>)
    ensures |bits| == |code|
  {
    if code == "" then [] else [code[0] == '1'] + Bits(code[1..])
  }

  /** The bits of `code`, first one first, in front of `s`. */
  function PutCode(code: string, s: Stream): Stream {
    if code == "" then s else Put(code[0] == '1', PutCode(code[1..], s))
  }

  // -------------------------------------------------------------------- codes

  /** The codes of runs of one to eleven, and of a run of twelve and more. */
  const CODES: seq<string> := ["0", "100", "101", "110", "111000", "111001", "111010", "111011", "111100", "111101", "111110", "111111"]

  lemma PutThree(code: string, s: Stream)
    requires |code| == 3
    ensures PutCode(code, s) == Put3(code[0] == '1', code[1] == '1', code[2] == '1', s)
  {
    assert PutCode(code[1..][1..][1..], s) == s;
    assert PutCode(code[1..][1..], s) == Put(code[2] == '1', s);
    assert PutCode(code[1..], s) == Put(code[1] == '1', Put(code[2] == '1', s));
  }

  lemma {:induction false} PutInTwo(code: string, more: string, s: Stream)
    ensures PutCode(code + more, s) == PutCode(code, PutCode(more, s))
  {
    if code == "" {
      assert code + more == more;
    } else {
      assert (code + more)[1..] == code[1..] + more;
      PutInTwo(code[1..], more, s);
    }
  }

  lemma PutSix(code: string, s: Stream)
    requires |code| == 6
    ensures PutCode(code, s)
         == Put3(code[0] == '1', code[1] == '1', code[2] == '1', Put3(code[3] == '1', code[4] == '1', code[5] == '1', s))
  {
    assert code == code[..3] + code[3..];
    PutInTwo(code[..3], code[3..], s);
    PutThree(code[3..], s);
    PutThree(code[..3], PutCode(code[3..], s));
  }

  /** How the lengths of runs are written. */
  lemma LengthCodes(l: Length, s: Stream)
    requires ValidLength(l)
    ensures WriteLength(l, s) == if l.Short? then PutCode(CODES[l.n - 1], s) else PutCode("111111", WriteLong(l.full, l.last, s))
    ensures Count(l) == if l.Short? then l.n else 12 + 32767 * l.full + l.last.n
  {
    hide Put, Put3, PutCode, WriteLong;
    match l
    case Long(full, last) => PutSix("111111", WriteLong(full, last, s));
    case Short(n) => ShortCode(n, s);
  }

  lemma ShortCode(n: nat, s: Stream)
    requires 1 <= n <= 11
    ensures WriteLength(Short(n), s) == PutCode(CODES[n - 1], s)
  {
    hide Put, Put3, PutCode;
    if n == 1 {
      OneOrTwo(s);
    } else if n <= 4 {
      PutThree(CODES[n - 1], s);
    } else {
      SixBitCode(n, s);
    }
  }

  lemma SixBitCode(n: nat, s: Stream)
    requires 5 <= n <= 11
    ensures WriteLength(Short(n), s) == PutCode(CODES[n - 1], s)
  {
    hide Put, Put3, PutCode;
    assert |CODES[n - 1]| == 6;
    PutSix(CODES[n - 1], s);
  }

  /** How tokens are written: 0 and two bytes; 10, a byte and a length; 11 and a length. */
  lemma TokenCodes(x: byte, y: byte, l: Length, s: Stream)
    requires ValidLength(l)
    ensures WriteToken(Pair(x, y), s) == PutCode("0", PutByte(x, PutByte(y, s)))
    ensures WriteToken(Run(Some(x), l), s) == PutCode("10", PutByte(x, WriteLength(l, s)))
    ensures WriteToken(Run(None, l), s) == PutCode("11", WriteLength(l, s))
  {
    hide Put, WriteLength, PutByte;
    OneOrTwo(PutByte(x, PutByte(y, s)));
    OneOrTwo(PutByte(x, WriteLength(l, s)));
    OneOrTwo(WriteLength(l, s));
  }

  lemma OneOrTwo(s: Stream)
    ensures PutCode("0", s) == Put(false, s) && PutCode("10", s) == Put(true, Put(false, s)) && PutCode("11", s) == Put(true, Put(true, s))
  {
    hide Put;
    assert PutCode("", s) == s;
    assert "0"[1..] == "" && "10"[1..] == "0" && "11"[1..] == "1" && "1"[1..] == "";
    assert PutCode("1", s) == Put(true, s);
  }

  /** What tokens mean, byte by byte. */
  lemma ExpandMeans(output: seq<byte>, t: Token, i: nat)
    requires |output| > 0 && ValidToken(t) && i < |Expand(output, t)|
    ensures i < |output| ==> Expand(output, t)[i] == output[i]
    ensures i >= |output| ==>
              Expand(output, t)[i]
              == if t.Pair? then if i == |output| then t.first else t.second
                 else if t.novel.Some? then t.novel.value else output[|output| - 1]
    ensures |Expand(output, t)|
         == |output| + if t.Pair? then 2 else Count(t.length) + if t.novel.Some? then 1 else 0
  {
  }

  // ----------------------------------------------------------------- payloads

  /** Bits that leave room in a control byte stay in it. */
  lemma {:induction false} CodeFits(code: string, s: Stream)
    requires |code| + |s.bits| <= 8
    ensures PutCode(code, s) == RawStream(Bits(code) + s.bits, s.rest)
  {
    if code == "" {
      assert Bits(code) + s.bits == s.bits;
    } else {
      CodeFits(code[1..], s);
      assert Bits(code) + s.bits == [code[0] == '1'] + (Bits(code[1..]) + s.bits);
    }
  }

  /** The last bit of a control byte brings the next one in. */
  lemma LastBit(bit: bool, rest: seq<byte>)
    ensures Put(bit, RawStream(Zeros(8), rest)) == RawStream([bit], [0] + rest)
  {
    assert TopBits(0, 8) == Zeros(8) by { ZeroTopBits(8); }
    PackOfTopBits(0);
  }

  lemma {:induction false} ZeroTopBits(count: nat)
    ensures TopBits(0, count) == Zeros(count)
  {
    if count > 0 {
      ZeroTopBits(count - 1);
    }
  }

  lemma OneBit(code: string, s: Stream)
    requires |code| == 1
    ensures PutCode(code, s) == Put(code[0] == '1', s) && Bits(code) == [code[0] == '1']
  {
    hide Put;
    assert code[1..] == "";
    assert PutCode("", s) == s && Bits("") == [];
  }

  /** A code of eight bits fills the control byte; the next one, zero here, follows it. */
  lemma CodeFills(code: string, rest: seq<byte>)
    requires |code| == 8
    ensures PutCode(code, RawStream(Zeros(8), rest)) == RawStream(Bits(code), [0] + rest)
  {
    hide Put, PutCode, Bits;
    var head, tail := code[..7], code[7..];
    var s: Stream := RawStream(Zeros(8), rest);
    assert code == head + tail;
    PutInTwo(head, tail, s);
    OneBit(tail, s);
    LastBit(tail[0] == '1', rest);
    CodeFits(head, RawStream([tail[0] == '1'], [0] + rest));
    BitsInTwo(head, tail);
  }

  lemma {:induction false} BitsInTwo(code: string, more: string)
    ensures Bits(code + more) == Bits(code) + Bits(more)
  {
    if code == "" {
      assert code + more == more;
    } else {
      assert (code + more)[1..] == code[1..] + more;
      BitsInTwo(code[1..], more);
    }
  }

  /** A payload that opens with one token says what the token says, if that is the length asked for. */
  lemma OneToken(control: byte, x: byte, rest: seq<byte>, t: Token, s: Stream, length: nat)
    requires ValidToken(t) && RawStream(TopBits(control, 8), rest) == WriteToken(t, s)
    requires 1 < length <= MAX_PAYLOAD && length <= |Expand([x], t)|
    ensures DecodeGov([control, x] + rest, length)
         == if |Expand([x], t)| <= length + 1 then Ok(Expand([x], t)[..length]) else Err(ResponseInvalid)
  {
    hide TopBits, ReadToken, WriteToken, Expand;
    var payload := [control, x] + rest;
    assert payload[2..] == rest && payload[0] == control && payload[1] == x;
    WrittenTokenIsRead(t, s);
    var w := RawStream(TopBits(control, 8), rest);
    assert Open(payload).(rest := payload[2..]) == w;
    assert DecodeFrom(w, [x], length)
        == if |Expand([x], t)| <= length + 1 then DecodeFrom(s, Expand([x], t), length) else None;
  }

  lemma BitsOfControl(control: byte, b: seq<bool>)
    requires |b| == 8
    requires control == (if b[0] then 128 else 0) + (if b[1] then 64 else 0) + (if b[2] then 32 else 0) + (if b[3] then 16 else 0)
                      + (if b[4] then 8 else 0) + (if b[5] then 4 else 0) + (if b[6] then 2 else 0) + (if b[7] then 1 else 0)
    ensures TopBits(control, 8) == b
  {
    hide TopBits;
    EightBits(b);
    TopBitsOfValue(control, b);
  }

  lemma {:induction false} BitsAt(code: string, i: nat)
    requires i < |code|
    ensures Bits(code)[i] <==> code[i] == '1'
  {
    if i > 0 {
      BitsAt(code[1..], i - 1);
    }
  }

  /** Control bytes that start with a repeating run of one to eleven; unused bits are zero. */
  const CONTROLS: seq<byte> := [0xC0, 0xE0, 0xE8, 0xF0, 0xF8, 0xF9, 0xFA, 0xFB, 0xFC, 0xFD, 0xFE]

  lemma ShortControl(n: nat)
    requires 1 <= n <= 4
    ensures TopBits(CONTROLS[n - 1], 8) == Bits("11" + CODES[n - 1]) + Zeros(6 - |CODES[n - 1]|)
  {
    hide TopBits, Bits;
    var code := "11" + CODES[n - 1];
    var b := Bits(code) + Zeros(6 - |CODES[n - 1]|);
    forall i | 0 <= i < |code| ensures b[i] <==> code[i] == '1' {
      BitsAt(code, i);
    }
    BitsOfControl(CONTROLS[n - 1], b);
  }

  lemma LongControl(n: nat)
    requires 5 <= n <= 11
    ensures TopBits(CONTROLS[n - 1], 8) == Bits("11" + CODES[n - 1])
  {
    hide TopBits, Bits;
    var code := "11" + CODES[n - 1];
    forall i | 0 <= i < 8 ensures Bits(code)[i] <==> code[i] == '1' {
      BitsAt(code, i);
    }
    BitsOfControl(CONTROLS[n - 1], Bits(code));
  }

  /** A control byte with a run of n, the byte to repeat, and one more control byte: n + 1 times the byte. */
  lemma RunPayload(n: nat, x: byte)
    requires 1 <= n <= 11
    ensures DecodeGov([CONTROLS[n - 1], x, 0], n + 1) == Ok(seq(n + 1, _ => x))
  {
    hide TopBits, WriteToken, WriteLength, PutCode, Put, Bits, DecodeGov, Expand;
    var t := Run(None, Short(n));
    var code := "11" + CODES[n - 1];
    var s: Stream := if n <= 4 then RawStream(Zeros(8 - |code|), [0]) else RawStream(Zeros(8), []);
    TokenCodes(0, 0, t.length, s);
    LengthCodes(t.length, s);
    PutInTwo("11", CODES[n - 1], s);
    if n <= 4 {
      CodeFits(code, s);
      ShortControl(n);
    } else {
      CodeFills(code, []);
      LongControl(n);
    }
    assert [0] + [] == [0];
    RunMeans([x], t, n + 1);
    assert [CONTROLS[n - 1], x] + [0] == [CONTROLS[n - 1], x, 0];
    OneToken(CONTROLS[n - 1], x, [0], t, s, n + 1);
  }

  lemma RunMeans(output: seq<byte>, t: Token, length: nat)
    requires |output| == 1 && t.Run? && ValidToken(t) && t.novel.None? && length == 1 + Count(t.length)
    ensures |Expand(output, t)| == length && Expand(output, t)[..length] == seq(length, _ => output[0])
  {
  }

  /** All ones start a run of twelve and more: the chunks follow the next control byte. */
  lemma ChunkPayload(x: byte, rest: seq<byte>, full: nat, last: Chunk, length: nat)
    requires ValidLength(Long(full, last)) && length == 13 + 32767 * full + last.n <= MAX_PAYLOAD
    requires RawStream(Zeros(8), rest) == WriteLong(full, last, RawStream(Zeros(8), []))
    ensures DecodeGov([0xFF, x, 0] + rest, length) == Ok(seq(length, _ => x))
  {
    hide TopBits, WriteToken, WriteLength, WriteLong, PutCode, Put, Bits, DecodeGov, Expand;
    var t := Run(None, Long(full, last));
    var s: Stream := RawStream(Zeros(8), []);
    TokenCodes(0, 0, t.length, s);
    LengthCodes(t.length, s);
    PutInTwo("11", "111111", WriteLong(full, last, s));
    assert "11" + "111111" == "11111111";
    CodeFills("11111111", rest);
    AllOnes();
    RunMeans([x], t, length);
    assert [0xFF, x] + ([0] + rest) == [0xFF, x, 0] + rest;
    OneToken(0xFF, x, [0] + rest, t, s, length);
  }

  lemma AllOnes()
    ensures TopBits(0xFF, 8) == Bits("11111111")
  {
    hide TopBits, Bits;
    forall i | 0 <= i < 8 ensures Bits("11111111")[i] {
      BitsAt("11111111", i);
    }
    BitsOfControl(0xFF, Bits("11111111"));
  }

  /** One chunk byte up to 127. */
  lemma NarrowChunkPayload(x: byte, n: byte)
    requires n <= 127
    ensures DecodeGov([0xFF, x, 0, n], 13 + n) == Ok(seq(13 + n, _ => x))
  {
    hide DecodeGov;
    assert WriteLong(0, Narrow(n), RawStream(Zeros(8), [])) == RawStream(Zeros(8), [n]);
    assert [0xFF, x, 0] + [n] == [0xFF, x, 0, n];
    ChunkPayload(x, [n], 0, Narrow(n), 13 + n);
  }

  /** Two chunk bytes for anything below 32767. */
  lemma WideChunkPayload(x: byte, high: byte, low: byte, length: nat)
    requires high <= 127 && (high < 127 || low < 255) && length == 13 + 256 * (high as nat) + low
    ensures DecodeGov([0xFF, x, 0, 128 + high, low], length) == Ok(seq(length, _ => x))
  {
    hide DecodeGov;
    var n := 256 * (high as nat) + low;
    assert n / 256 == high && n % 256 == low;
    assert WriteLong(0, Wide(n), RawStream(Zeros(8), [])) == RawStream(Zeros(8), [128 + high, low]);
    assert [0xFF, x, 0] + [128 + high, low] == [0xFF, x, 0, 128 + high, low];
    ChunkPayload(x, [128 + high, low], 0, Wide(n), length);
  }

  /** Two 255s stand for 32767, and more follows. */
  lemma FullChunkPayload(x: byte, n: byte)
    requires n <= 127
    ensures DecodeGov([0xFF, x, 0, 255, 255, n], 32780 + n) == Ok(seq(32780 + n, _ => x))
  {
    hide DecodeGov;
    assert WriteLong(1, Narrow(n), RawStream(Zeros(8), [])) == RawStream(Zeros(8), [255, 255, n]);
    assert [0xFF, x, 0] + [255, 255, n] == [0xFF, x, 0, 255, 255, n];
    ChunkPayload(x, [255, 255, n], 1, Narrow(n), 32780 + n);
  }

  /** A zero bit takes two bytes as they are, the second of them dropped if it is one too many. */
  lemma PairPayload(x: byte, y: byte, z: byte)
    ensures DecodeGov([0, x, y, z], 3) == Ok([x, y, z]) && DecodeGov([0, x, y, z], 2) == Ok([x, y])
  {
    hide TopBits, WriteToken, Put, DecodeGov;
    var s: Stream := RawStream(Zeros(7), []);
    ZeroTopBits(8);
    assert WriteToken(Pair(y, z), s) == RawStream(Zeros(8), [y, z]) by { PairStream(y, z); }
    assert [0, x] + [y, z] == [0, x, y, z];
    var o := Expand([x], Pair(y, z));
    assert o == [x, y, z] && o[..3] == [x, y, z] && o[..2] == [x, y];
    OneToken(0, x, [y, z], Pair(y, z), s, 3);
    OneToken(0, x, [y, z], Pair(y, z), s, 2);
  }

  lemma PairStream(y: byte, z: byte)
    ensures WriteToken(Pair(y, z), RawStream(Zeros(7), [])) == RawStream(Zeros(8), [y, z])
  {
    assert [false] + Zeros(7) == Zeros(8);
  }

  /** One and zero bring in a new byte, which a run of one writes twice. */
  lemma NewBytePayload(x: byte, y: byte)
    ensures DecodeGov([0x80, x, y], 3) == Ok([x, y, y])
  {
    hide TopBits, WriteToken, WriteLength, PutCode, Put, DecodeGov;
    var t := Run(Some(y), Short(1));
    var s: Stream := RawStream(Zeros(5), []);
    NewByteStream(y);
    assert [0x80, x] + [y] == [0x80, x, y];
    var o := Expand([x], t);
    assert o == [x, y, y] && o[..3] == [x, y, y];
    OneToken(0x80, x, [y], t, s, 3);
  }

  lemma NewByteStream(y: byte)
    ensures WriteToken(Run(Some(y), Short(1)), RawStream(Zeros(5), [])) == RawStream(TopBits(0x80, 8), [y])
  {
    hide TopBits;
    assert [false] + Zeros(5) == Zeros(6) && [false] + Zeros(6) == Zeros(7) && [true] + Zeros(7) == [true, false, false, false, false, false, false, false];
    BitsOfControl(0x80, [true] + Zeros(7));
  }

  /** A run that goes more than one byte over is refused. */
  lemma TooLongPayload(x: byte)
    ensures DecodeGov([0xE0, x, 0], 2) == Ok([x, x]) && DecodeGov([0xE8, x, 0], 2) == Err(ResponseInvalid)
  {
    hide TopBits, WriteToken, WriteLength, PutCode, Put, Bits, DecodeGov, Expand;
    for n := 2 to 4
      invariant n > 2 ==> DecodeGov([0xE0, x, 0], 2) == Ok([x, x])
      invariant n > 3 ==> DecodeGov([0xE8, x, 0], 2) == Err(ResponseInvalid)
    {
      var t := Run(None, Short(n));
      var code := "11" + CODES[n - 1];
      var s: Stream := RawStream(Zeros(8 - |code|), [0]);
      TokenCodes(0, 0, t.length, s);
      LengthCodes(t.length, s);
      PutInTwo("11", CODES[n - 1], s);
      CodeFits(code, s);
      ShortControl(n);
      RunMeans([x], t, n + 1);
      assert Expand([x], t)[..2] == Expand([x], t)[..n + 1][..2] == [x, x];
      assert [CONTROLS[n - 1], x] + [0] == [CONTROLS[n - 1], x, 0];
      OneToken(CONTROLS[n - 1], x, [0], t, s, 2);
    }
  }
}
