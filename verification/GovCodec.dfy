/**
 The `gov` run-length codec.

 A payload interleaves control bytes, read most significant bit first, with
 literal bytes. A control byte is replaced as soon as its eighth bit has been
 read. `Stream` is what is left to read; `Put` and `PutByte` place one more bit
 or byte in front of it, so a token list is written from its last token to its
 first, and `WriteTokens` is the reference serialiser.
 */
module GovCodec {
  import opened Wrappers
  import opened Bytes

  // ---------------------------------------------------------------- bit stream

  /** The unread bits of the current control byte, and the bytes after it. */
  datatype RawStream = RawStream(bits: seq<bool>, rest: seq<byte>)

  type Stream = s: RawStream | 1 <= |s.bits| <= 8 witness RawStream([false], [])

  /** (control << 1) & 0xFF */
  function Shifted(control: byte): byte {
    if control >= 128 then 2 * control - 256 else 2 * control
  }

  /** The next `count` bits of a control byte, top bit first. */
  function TopBits(control: byte, count: nat): (bits: seq<bool>)
    ensures |bits| == count
    decreases count
  {
    if count == 0 then [] else [control >= 128] + TopBits(Shifted(control), count - 1)
  }

  function Power2(k: nat): (p: nat)
    ensures p > 0
  {
    if k == 0 then 1 else 2 * Power2(k - 1)
  }

  /** The number whose first bit weighs 2^top and whose following bits weigh half as much each. */
  function Value(bits: seq<bool>, top: nat): (v: nat)
    requires |bits| <= top + 1
    ensures v < 2 * Power2(top)
  {
    if bits == [] then 0
    else if |bits| == 1 then if bits[0] then Power2(top) else 0
    else (if bits[0] then Power2(top) else 0) + Value(bits[1..], top - 1)
  }

  lemma {:induction false} ValueDoubles(bits: seq<bool>, top: nat)
    requires |bits| <= top + 1
    ensures Value(bits, top + 1) == 2 * Value(bits, top)
  {
    if |bits| > 1 {
      ValueDoubles(bits[1..], top - 1);
    }
  }

  lemma EightBitWeights()
    ensures Power2(7) == 128 && Power2(6) == 64
  {
    assert Power2(3) == 8;
    assert Power2(5) == 32;
  }

  /** The control byte holding these eight bits. */
  function Pack(bits: seq<bool>): byte
    requires |bits| == 8
  {
    EightBitWeights();
    Value(bits, 7)
  }

  lemma {:induction false} TopBitsOfValue(control: byte, bits: seq<bool>)
    requires |bits| <= 8 && control == Value(bits, 7)
    ensures TopBits(control, |bits|) == bits
    decreases |bits|
  {
    if bits != [] {
      EightBitWeights();
      var rest := bits[1..];
      assert bits == [bits[0]] + rest;
      ValueDoubles(rest, 6);
      assert Value(bits, 7) == (if bits[0] then 128 else 0) + Value(rest, 6);
      TopBitsOfValue(Shifted(control), rest);
    }
  }

  /** The first `count` bits determine the control byte up to the weight of the last of them. */
  lemma {:induction false} ValueOfTopBits(control: byte, count: nat)
    requires count <= 8
    ensures Value(TopBits(control, count), 7) <= control < Value(TopBits(control, count), 7) + Power2(8 - count)
    decreases count
  {
    EightBitWeights();
    if count > 0 {
      ValueOfTopBits(Shifted(control), count - 1);
      var bits, rest := TopBits(control, count), TopBits(Shifted(control), count - 1);
      assert bits[1..] == rest;
      ValueDoubles(rest, 6);
      assert Value(bits, 7) == (if bits[0] then 128 else 0) + Value(rest, 6);
      assert Power2(9 - count) == 2 * Power2(8 - count);
    }
  }

  lemma PackOfTopBits(control: byte)
    ensures Pack(TopBits(control, 8)) == control
  {
    ValueOfTopBits(control, 8);
  }

  function ReadBit(s: Stream): (o: Option<(bool, Stream)>) {
    if |s.bits| > 1 then
      Some((s.bits[0], RawStream(s.bits[1..], s.rest)))
    else if s.rest == [] then
      None
    else
      Some((s.bits[0], RawStream(TopBits(s.rest[0], 8), s.rest[1..])))
  }

  function ReadByte(s: Stream): (o: Option<(byte, Stream)>) {
    if s.rest == [] then None else Some((s.rest[0], s.(rest := s.rest[1..])))
  }

  /** The stream whose next bit is `bit` and whose remainder is `s`. */
  function Put(bit: bool, s: Stream): (w: Stream)
    ensures ReadBit(w) == Some((bit, s))
  {
    if |s.bits| == 8 then
      TopBitsOfValue(Pack(s.bits), s.bits);
      RawStream([bit], [Pack(s.bits)] + s.rest)
    else
      RawStream([bit] + s.bits, s.rest)
  }

  /** The stream whose next literal byte is `x` and whose remainder is `s`. */
  function PutByte(x: byte, s: Stream): (w: Stream)
    ensures ReadByte(w) == Some((x, s))
  {
    s.(rest := [x] + s.rest)
  }

  /** Reading a bit undoes the `Put` that wrote it, and nothing else can have been written. */
  lemma ReadBitUndoesPut(w: Stream, bit: bool, s: Stream)
    ensures ReadBit(w) == Some((bit, s)) <==> w == Put(bit, s)
  {
    if ReadBit(w) == Some((bit, s)) {
      if |w.bits| > 1 {
        assert w.bits == [bit] + s.bits;
      } else {
        assert w.bits == [bit];
        PackOfTopBits(w.rest[0]);
        assert w.rest == [Pack(s.bits)] + s.rest;
      }
    }
  }

  lemma ReadByteUndoesPutByte(w: Stream, x: byte, s: Stream)
    ensures ReadByte(w) == Some((x, s)) <==> w == PutByte(x, s)
  {
    if ReadByte(w) == Some((x, s)) {
      assert w.rest == [x] + s.rest;
    }
  }

  // -------------------------------------------------------------------- tokens

  /** The last chunk of a long run: one byte up to 127, or two bytes below 32767. */
  datatype Chunk = Narrow(n: nat) | Wide(n: nat)

  /** A run of 1..11, or of 12 plus `full` chunks of 32767 plus a last chunk. */
  datatype Length = Short(n: nat) | Long(full: nat, last: Chunk)

  /** Two literal bytes, or a run that repeats a new byte (written once itself) or the last byte. */
  datatype Token = Pair(first: byte, second: byte) | Run(novel: Option<byte>, length: Length)

  predicate ValidLength(l: Length) {
    match l
    case Short(n) => 1 <= n <= 11
    case Long(_, Narrow(n)) => n <= 127
    case Long(_, Wide(n)) => n < 32767
  }

  predicate ValidToken(t: Token) {
    t.Run? ==> ValidLength(t.length)
  }

  function Count(l: Length): nat {
    match l
    case Short(n) => n
    case Long(full, last) => 12 + 32767 * full + last.n
  }

  function Fill(x: byte, count: nat): (s: seq<byte>)
    ensures |s| == count
  {
    seq(count, _ => x)
  }

  /** What a token appends to the output, whose last byte a run without a new byte repeats. */
  function Expand(output: seq<byte>, t: Token): (o: seq<byte>)
    requires |output| > 0
    ensures |o| >= |output|
  {
    match t
    case Pair(x, y) => output + [x, y]
    case Run(Some(x), l) => output + [x] + Fill(x, Count(l))
    case Run(None, l) => output + Fill(output[|output| - 1], Count(l))
  }

  function ExpandAll(output: seq<byte>, ts: seq<Token>): (o: seq<byte>)
    requires |output| > 0
    ensures |o| >= |output|
    decreases |ts|
  {
    if ts == [] then output else ExpandAll(Expand(output, ts[0]), ts[1..])
  }

  // ------------------------------------------------------ reference serialiser

  function Put3(a: bool, b: bool, c: bool, s: Stream): Stream {
    Put(a, Put(b, Put(c, s)))
  }

  function WriteChunk(c: Chunk, s: Stream): Stream
    requires ValidLength(Long(0, c))
  {
    match c
    case Narrow(n) => PutByte(n, s)
    case Wide(n) => PutByte(128 + n / 256, PutByte(n % 256, s))
  }

  function WriteLong(full: nat, last: Chunk, s: Stream): Stream
    requires ValidLength(Long(full, last))
  {
    if full == 0 then WriteChunk(last, s)
    else PutByte(255, PutByte(255, WriteLong(full - 1, last, s)))
  }

  /** The prefix code of a run of five or more, after its first three one bits. */
  function WriteLengthTail(l: Length, s: Stream): Stream
    requires ValidLength(l) && (l.Short? ==> l.n >= 5)
  {
    match l
    case Long(full, last) => Put3(true, true, true, WriteLong(full, last, s))
    case Short(5) => Put3(false, false, false, s)
    case Short(6) => Put3(false, false, true, s)
    case Short(7) => Put3(false, true, false, s)
    case Short(8) => Put3(false, true, true, s)
    case Short(9) => Put3(true, false, false, s)
    case Short(10) => Put3(true, false, true, s)
    case Short(_) => Put3(true, true, false, s)
  }

  /** The prefix code of a run length. */
  function WriteLength(l: Length, s: Stream): Stream
    requires ValidLength(l)
  {
    if l == Short(1) then Put(false, s)
    else if l == Short(2) then Put3(true, false, false, s)
    else if l == Short(3) then Put3(true, false, true, s)
    else if l == Short(4) then Put3(true, true, false, s)
    else Put3(true, true, true, WriteLengthTail(l, s))
  }

  function WriteToken(t: Token, s: Stream): Stream
    requires ValidToken(t)
  {
    match t
    case Pair(x, y) => Put(false, PutByte(x, PutByte(y, s)))
    case Run(Some(x), l) => Put(true, Put(false, PutByte(x, WriteLength(l, s))))
    case Run(None, l) => Put(true, Put(true, WriteLength(l, s)))
  }

  predicate ValidTokens(ts: seq<Token>) {
    forall t <- ts :: ValidToken(t)
  }

  function WriteTokens(ts: seq<Token>, s: Stream): Stream
    requires ValidTokens(ts)
  {
    if ts == [] then s else WriteToken(ts[0], WriteTokens(ts[1..], s))
  }

  // -------------------------------------------------------------------- reader

  function ReadLong(s: Stream): (o: Option<(Length, Stream)>)
    ensures o.Some? ==> o.value.0.Long? && ValidLength(o.value.0) && |o.value.1.rest| < |s.rest|
    decreases |s.rest|
  {
    var (x, s1) :- ReadByte(s);
    if x <= 127 then Some((Long(0, Narrow(x)), s1))
    else
      var (y, s2) :- ReadByte(s1);
      var n := (x - 128) * 256 + y;
      if n < 32767 then Some((Long(0, Wide(n)), s2))
      else
        var (l, s3) :- ReadLong(s2);
        Some((Long(l.full + 1, l.last), s3))
  }

  /** The prefix code after its first three one bits. */
  function ReadLengthTail(s3: Stream): (o: Option<(Length, Stream)>)
    ensures o.Some? ==> ValidLength(o.value.0) && Count(o.value.0) >= 5
  {
    var (b4, s4) :- ReadBit(s3);
    var (b5, s5) :- ReadBit(s4);
    var (b6, s6) :- ReadBit(s5);
    if !b4 then Some((Short(5 + (if b5 then 2 else 0) + (if b6 then 1 else 0)), s6))
    else if !b5 then Some((Short(if b6 then 10 else 9), s6))
    else if !b6 then Some((Short(11), s6))
    else ReadLong(s6)
  }

  function ReadLength(s: Stream): (o: Option<(Length, Stream)>)
    ensures o.Some? ==> ValidLength(o.value.0)
  {
    var (b1, s1) :- ReadBit(s);
    if !b1 then Some((Short(1), s1)) else
    var (b2, s2) :- ReadBit(s1);
    if !b2 then
      var (b3, s3) :- ReadBit(s2);
      Some((Short(if b3 then 3 else 2), s3))
    else
    var (b3, s3) :- ReadBit(s2);
    if !b3 then Some((Short(4), s3)) else
    ReadLengthTail(s3)
  }

  function ReadToken(s: Stream): (o: Option<(Token, Stream)>)
    ensures o.Some? ==> ValidToken(o.value.0)
  {
    var (run, s1) :- ReadBit(s);
    if !run then
      var (x, s2) :- ReadByte(s1);
      var (y, s3) :- ReadByte(s2);
      Some((Pair(x, y), s3))
    else
    var (repeat, s2) :- ReadBit(s1);
    if repeat then
      var (l, s3) :- ReadLength(s2);
      Some((Run(None, l), s3))
    else
      var (x, s3) :- ReadByte(s2);
      var (l, s4) :- ReadLength(s3);
      Some((Run(Some(x), l), s4))
  }

  // Every reader below undoes the writer of the same name: first on what was
  // written, then on whatever was read.

  lemma WideBytes(n: nat)
    requires n < 32767
    ensures 128 <= 128 + n / 256 <= 255
    ensures (128 + n / 256 - 128) * 256 + n % 256 == n
  {
  }

  lemma WideOfBytes(x: byte, y: byte)
    requires 128 <= x && (x - 128) * 256 + y < 32767
    ensures var n := (x - 128) * 256 + y; 128 + n / 256 == x && n % 256 == y
  {
  }

  lemma {:induction false} WrittenLongIsRead(full: nat, last: Chunk, s: Stream)
    requires ValidLength(Long(full, last))
    ensures ReadLong(WriteLong(full, last, s)) == Some((Long(full, last), s))
    decreases full
  {
    hide PutByte, ReadByte;
    if full > 0 {
      WrittenLongIsRead(full - 1, last, s);
    } else if last.Wide? {
      WideBytes(last.n);
    }
  }

  lemma {:induction false} ReadLongWasWritten(w: Stream)
    requires ReadLong(w).Some?
    ensures var (l, s) := ReadLong(w).value; w == WriteLong(l.full, l.last, s)
    decreases |w.rest|
  {
    hide PutByte;
    var (x, s1) := ReadByte(w).value;
    ReadByteUndoesPutByte(w, x, s1);
    if x > 127 {
      var (y, s2) := ReadByte(s1).value;
      ReadByteUndoesPutByte(s1, y, s2);
      if (x - 128) * 256 + y < 32767 {
        WideOfBytes(x, y);
      } else {
        ReadLongWasWritten(s2);
      }
    }
  }

  lemma WrittenLengthTailIsRead(l: Length, s: Stream)
    requires ValidLength(l) && (l.Short? ==> l.n >= 5)
    ensures ReadLengthTail(WriteLengthTail(l, s)) == Some((l, s))
  {
    hide Put, ReadBit;
    if l.Long? {
      WrittenLongIsRead(l.full, l.last, s);
    }
  }

  lemma WrittenLengthIsRead(l: Length, s: Stream)
    requires ValidLength(l)
    ensures ReadLength(WriteLength(l, s)) == Some((l, s))
  {
    hide Put, ReadBit, ReadLengthTail, WriteLengthTail;
    if l.Long? || l.n >= 5 {
      WrittenLengthTailIsRead(l, s);
      assert WriteLength(l, s) == Put3(true, true, true, WriteLengthTail(l, s));
    }
  }

  lemma ReadBitWasPut(w: Stream)
    requires ReadBit(w).Some?
    ensures w == Put(ReadBit(w).value.0, ReadBit(w).value.1)
  {
    ReadBitUndoesPut(w, ReadBit(w).value.0, ReadBit(w).value.1);
  }

  lemma ReadLengthTailWasWritten(s3: Stream)
    requires ReadLengthTail(s3).Some?
    ensures var (l, s) := ReadLengthTail(s3).value; (l.Short? ==> l.n >= 5) && s3 == WriteLengthTail(l, s)
  {
    hide Put, ReadBit;
    ReadBitWasPut(s3);
    var (b4, s4) := ReadBit(s3).value;
    ReadBitWasPut(s4);
    var (b5, s5) := ReadBit(s4).value;
    ReadBitWasPut(s5);
    var (b6, s6) := ReadBit(s5).value;
    if b4 && b5 && b6 {
      ReadLongWasWritten(s6);
    }
  }

  lemma ReadLengthWasWritten(w: Stream)
    requires ReadLength(w).Some?
    ensures var (l, s) := ReadLength(w).value; w == WriteLength(l, s)
  {
    hide Put, ReadBit, ReadLengthTail, WriteLengthTail;
    ReadBitWasPut(w);
    var (b1, s1) := ReadBit(w).value;
    if b1 {
      ReadBitWasPut(s1);
      var (b2, s2) := ReadBit(s1).value;
      ReadBitWasPut(s2);
      var (b3, s3) := ReadBit(s2).value;
      if b2 && b3 {
        ReadLengthTailWasWritten(s3);
      }
    }
  }

  lemma WrittenTokenIsRead(t: Token, s: Stream)
    requires ValidToken(t)
    ensures ReadToken(WriteToken(t, s)) == Some((t, s))
  {
    hide Put, PutByte, ReadBit, ReadByte, ReadLength, WriteLength;
    if t.Run? {
      WrittenLengthIsRead(t.length, s);
    }
  }

  lemma ReadTokenWasWritten(w: Stream)
    requires ReadToken(w).Some?
    ensures var (t, s) := ReadToken(w).value; w == WriteToken(t, s)
  {
    hide Put, PutByte, ReadBit, ReadByte, ReadLength, WriteLength;
    ReadBitWasPut(w);
    var (run, s1) := ReadBit(w).value;
    if run {
      ReadBitWasPut(s1);
      var (repeat, s2) := ReadBit(s1).value;
      if repeat {
        ReadLengthWasWritten(s2);
      } else {
        var (x, s3) := ReadByte(s2).value;
        ReadByteUndoesPutByte(s2, x, s3);
        ReadLengthWasWritten(s3);
      }
    } else {
      var (x, s2) := ReadByte(s1).value;
      ReadByteUndoesPutByte(s1, x, s2);
      var (y, s3) := ReadByte(s2).value;
      ReadByteUndoesPutByte(s2, y, s3);
    }
  }

  // ------------------------------------------------------------------- decoder

  /** Tokens are read until `length` bytes are out; the last may write one byte too many. */
  function DecodeFrom(s: Stream, output: seq<byte>, length: nat): (o: Option<seq<byte>>)
    requires 0 < |output| <= length + 1
    decreases length - |output|
  {
    if |output| >= length then Some(output[..length])
    else
      match ReadToken(s)
      case None => None
      case Some((t, rest)) =>
        TokensGrow(output, t);
        if |Expand(output, t)| > length + 1 then None
        else DecodeFrom(rest, Expand(output, t), length)
  }

  lemma TokensGrow(output: seq<byte>, t: Token)
    requires |output| > 0 && ValidToken(t)
    ensures |Expand(output, t)| > |output|
  {
  }

  /** The stream after the initial control byte. */
  function Open(payload: seq<byte>): Stream
    requires |payload| > 0
  {
    RawStream(TopBits(payload[0], 8), payload[1..])
  }

  function DecodeGov(payload: seq<byte>, length: int): Result<seq<byte>, ErrorCode> {
    if length <= 0 || length > MAX_PAYLOAD || |payload| < 2 then
      Err(ResponseInvalid)
    else
      match DecodeFrom(Open(payload).(rest := payload[2..]), [payload[1]], length)
      case Some(output) => Ok(output)
      case None => Err(ResponseInvalid)
  }

  // ------------------------------------------------------------------- theorems

  /** The tokens stop exactly when `length` bytes are out, at most one byte over. */
  ghost predicate Covers(output: seq<byte>, ts: seq<Token>, length: nat)
    requires |output| > 0
    decreases |ts|
  {
    if ts == [] then length <= |output| <= length + 1
    else |output| < length && ValidToken(ts[0]) && Covers(Expand(output, ts[0]), ts[1..], length)
  }

  lemma {:induction false} CoversIsValid(output: seq<byte>, ts: seq<Token>, length: nat)
    requires |output| > 0 && Covers(output, ts, length)
    ensures ValidTokens(ts) && length <= |ExpandAll(output, ts)| <= length + 1
    ensures |output| <= length + 1
    decreases |ts|
  {
    if ts != [] {
      CoversIsValid(Expand(output, ts[0]), ts[1..], length);
      assert ts == [ts[0]] + ts[1..];
    }
  }

  lemma {:induction false} WrittenTokensDecode(ts: seq<Token>, s: Stream, output: seq<byte>, length: nat)
    requires 0 < |output| <= length + 1 && Covers(output, ts, length) && ValidTokens(ts)
    ensures |ExpandAll(output, ts)| >= length
    ensures DecodeFrom(WriteTokens(ts, s), output, length) == Some(ExpandAll(output, ts)[..length])
    decreases |ts|
  {
    hide ReadToken, WriteToken, Expand;
    CoversIsValid(output, ts, length);
    if ts != [] {
      WrittenTokenIsRead(ts[0], WriteTokens(ts[1..], s));
      CoversIsValid(Expand(output, ts[0]), ts[1..], length);
      WrittenTokensDecode(ts[1..], s, Expand(output, ts[0]), length);
    }
  }

  /** Every successful decoding read some token list and stopped at some stream. */
  lemma {:induction false} DecodedWasWritten(w: Stream, output: seq<byte>, length: nat)
      returns (ts: seq<Token>, s: Stream)
    requires 0 < |output| <= length + 1 && DecodeFrom(w, output, length).Some?
    ensures Covers(output, ts, length) && ValidTokens(ts) && w == WriteTokens(ts, s)
    decreases length - |output|
  {
    hide ReadToken, WriteToken, Expand;
    if |output| >= length {
      ts, s := [], w;
    } else {
      var (t, rest) := ReadToken(w).value;
      ReadTokenWasWritten(w);
      TokensGrow(output, t);
      var ts';
      ts', s := DecodedWasWritten(rest, Expand(output, t), length);
      ts := [t] + ts';
      assert ts[1..] == ts';
    }
  }

  /** The payload whose first control byte holds the eight unread bits of `w`. */
  function Payload(w: Stream): seq<byte>
    requires |w.bits| == 8
  {
    [Pack(w.bits)] + w.rest
  }

  /** `payload` is the first byte, the tokens, and `s`: unused control bits and unread bytes. */
  ghost predicate Serialises(payload: seq<byte>, first: byte, ts: seq<Token>, s: Stream)
    requires ValidTokens(ts)
  {
    var w := PutByte(first, WriteTokens(ts, s));
    |w.bits| == 8 && payload == Payload(w)
  }

  lemma OpenUndoesPayload(payload: seq<byte>, w: Stream)
    ensures |w.bits| == 8 && payload == Payload(w) <==> |payload| > 0 && Open(payload) == w
  {
    if |w.bits| == 8 && payload == Payload(w) {
      TopBitsOfValue(Pack(w.bits), w.bits);
    }
    if |payload| > 0 && Open(payload) == w {
      PackOfTopBits(payload[0]);
      assert payload == [payload[0]] + payload[1..];
    }
  }

  ghost predicate Encodes(payload: seq<byte>, length: int, output: seq<byte>, first: byte, ts: seq<Token>, s: Stream) {
    && 1 <= length <= MAX_PAYLOAD
    && Covers([first], ts, length)
    && ValidTokens(ts)
    && Serialises(payload, first, ts, s)
    && |ExpandAll([first], ts)| >= length
    && output == ExpandAll([first], ts)[..length]
  }

  /** The decoder accepts exactly the serialisations of token lists, and returns their meaning. */
  lemma DecodeGovExact(payload: seq<byte>, length: int, output: seq<byte>)
    ensures DecodeGov(payload, length) == Ok(output)
       <==> exists first, ts, s :: Encodes(payload, length, output, first, ts, s)
  {
    hide WriteTokens, DecodeFrom, Covers;
    if DecodeGov(payload, length) == Ok(output) {
      var w := Open(payload).(rest := payload[2..]);
      var ts, s := DecodedWasWritten(w, [payload[1]], length);
      WrittenTokensDecode(ts, s, [payload[1]], length);
      assert payload[1..] == [payload[1]] + payload[2..];
      OpenUndoesPayload(payload, PutByte(payload[1], w));
      assert Encodes(payload, length, output, payload[1], ts, s);
    }
    if first, ts, s :| Encodes(payload, length, output, first, ts, s) {
      EncodedIsDecoded(payload, length, output, first, ts, s);
    }
  }

  lemma EncodedIsDecoded(payload: seq<byte>, length: int, output: seq<byte>, first: byte, ts: seq<Token>, s: Stream)
    requires Encodes(payload, length, output, first, ts, s)
    ensures DecodeGov(payload, length) == Ok(output)
  {
    hide WriteTokens, DecodeFrom, Covers, TopBits, Pack;
    var body := WriteTokens(ts, s);
    OpenUndoesPayload(payload, PutByte(first, body));
    assert payload[1] == first && payload[2..] == body.rest;
    WrittenTokensDecode(ts, s, [first], length);
  }

  /** A payload has one reading: its tokens and what they leave unread. */
  lemma {:induction false} WireIsUnambiguous(output: seq<byte>, length: nat, ts: seq<Token>, s: Stream, ts': seq<Token>, s': Stream)
    requires |output| > 0 && Covers(output, ts, length) && Covers(output, ts', length)
    requires ValidTokens(ts) && ValidTokens(ts') && WriteTokens(ts, s) == WriteTokens(ts', s')
    ensures ts == ts' && s == s'
    decreases |ts|
  {
    hide ReadToken, WriteToken, Expand;
    if ts != [] {
      WrittenTokenIsRead(ts[0], WriteTokens(ts[1..], s));
      WrittenTokenIsRead(ts'[0], WriteTokens(ts'[1..], s'));
      WireIsUnambiguous(Expand(output, ts[0]), length, ts[1..], s, ts'[1..], s');
      assert ts == [ts[0]] + ts[1..] && ts' == [ts'[0]] + ts'[1..];
    }
  }

  // The number of unread bits to leave behind a token list so that the bits in
  // front of it fill control bytes exactly.

  function Before(phase: nat, bits: nat): (p: nat)
    requires 1 <= phase <= 8
    ensures 1 <= p <= 8
    decreases bits
  {
    if bits == 0 then phase else Before(if phase == 1 then 8 else phase - 1, bits - 1)
  }

  function LengthBits(l: Length): nat {
    if l.Long? then 6 else if l.n == 1 then 1 else if l.n <= 4 then 3 else 6
  }

  function TokenBits(t: Token): nat {
    if t.Pair? then 1 else 2 + LengthBits(t.length)
  }

  function TokensPhase(ts: seq<Token>, phase: nat): (p: nat)
    requires 1 <= phase <= 8
    ensures 1 <= p <= 8
    decreases |ts|
  {
    if ts == [] then phase else TokensPhase(ts[1..], Before(phase, TokenBits(ts[0])))
  }

  lemma {:induction false} LongKeepsPhase(full: nat, last: Chunk, s: Stream)
    requires ValidLength(Long(full, last))
    ensures WriteLong(full, last, s).bits == s.bits
    decreases full
  {
    if full > 0 {
      LongKeepsPhase(full - 1, last, s);
    }
  }

  lemma Put3Phase(a: bool, b: bool, c: bool, s: Stream, phase: nat)
    requires 1 <= phase <= 8 && |s.bits| == Before(phase, 3)
    ensures |Put3(a, b, c, s).bits| == phase
  {
    assert Before(phase, 3) == Before(Before(phase, 1), 2) == Before(Before(Before(phase, 1), 1), 1);
  }

  lemma SixIsThreeTwice(phase: nat)
    requires 1 <= phase <= 8
    ensures Before(phase, 6) == Before(Before(phase, 3), 3)
  {
    var p3 := Before(phase, 3);
    var p1 := Before(phase, 1);
    var p2 := Before(p1, 1);
    assert p3 == Before(p2, 1);
    assert Before(phase, 6) == Before(p1, 5) == Before(p2, 4) == Before(p3, 3);
  }

  lemma LengthPhase(l: Length, s: Stream, phase: nat)
    requires ValidLength(l) && 1 <= phase <= 8 && |s.bits| == Before(phase, LengthBits(l))
    ensures |WriteLength(l, s).bits| == phase
  {
    hide Put3;
    if l == Short(1) {
    } else if l.Short? && l.n <= 4 {
      Put3Phase(true, l.n == 4, l.n == 3, s, phase);
    } else {
      SixIsThreeTwice(phase);
      Put3Phase(true, true, true, WriteLengthTail(l, s), phase) by {
        assert |WriteLengthTail(l, s).bits| == Before(phase, 3) by {
          if l.Long? {
            LongKeepsPhase(l.full, l.last, s);
            Put3Phase(true, true, true, WriteLong(l.full, l.last, s), Before(phase, 3));
          } else {
            Put3Phase(l.n >= 9, l.n == 7 || l.n == 8 || l.n == 11, l.n == 6 || l.n == 8 || l.n == 10, s, Before(phase, 3));
          }
        }
      }
    }
  }

  lemma TokenPhase(t: Token, s: Stream, phase: nat)
    requires ValidToken(t) && 1 <= phase <= 8 && |s.bits| == Before(phase, TokenBits(t))
    ensures |WriteToken(t, s).bits| == phase
  {
    hide WriteLength;
    if t.Run? {
      var p1 := Before(phase, 1);
      var p2 := Before(p1, 1);
      assert Before(phase, TokenBits(t)) == Before(p1, 1 + LengthBits(t.length)) == Before(p2, LengthBits(t.length));
      LengthPhase(t.length, s, p2);
    } else {
      assert Before(phase, 1) == Before(if phase == 1 then 8 else phase - 1, 0);
    }
  }

  lemma {:induction false} TokensKeepPhase(ts: seq<Token>, s: Stream, phase: nat)
    requires ValidTokens(ts) && 1 <= phase <= 8 && |s.bits| == TokensPhase(ts, phase)
    ensures |WriteTokens(ts, s).bits| == phase
    decreases |ts|
  {
    hide WriteToken;
    if ts != [] {
      TokensKeepPhase(ts[1..], s, Before(phase, TokenBits(ts[0])));
      TokenPhase(ts[0], WriteTokens(ts[1..], s), phase);
    }
  }

  function Zeros(count: nat): (bits: seq<bool>)
    ensures |bits| == count
  {
    seq(count, _ => false)
  }

  /** The reference encoder: unused control bits are zero and nothing follows the last token. */
  function Serialise(first: byte, ts: seq<Token>): seq<byte>
    requires ValidTokens(ts)
  {
    var s := RawStream(Zeros(TokensPhase(ts, 8)), []);
    TokensKeepPhase(ts, s, 8);
    Payload(PutByte(first, WriteTokens(ts, s)))
  }

  /** Decoding undoes the reference encoder, for every token list and every length it covers. */
  lemma GovRoundTrip(first: byte, ts: seq<Token>, length: nat)
    requires 1 <= length <= MAX_PAYLOAD && Covers([first], ts, length) && ValidTokens(ts)
    ensures |ExpandAll([first], ts)| >= length
    ensures DecodeGov(Serialise(first, ts), length) == Ok(ExpandAll([first], ts)[..length])
  {
    var s := RawStream(Zeros(TokensPhase(ts, 8)), []);
    TokensKeepPhase(ts, s, 8);
    CoversIsValid([first], ts, length);
    EncodedIsDecoded(Serialise(first, ts), length, ExpandAll([first], ts)[..length], first, ts, s);
  }

  /** Whatever the payload, a success has exactly the requested length. */
  lemma {:induction false} DecodeGovLength(payload: seq<byte>, length: int)
    ensures DecodeGov(payload, length).Ok? ==> |DecodeGov(payload, length).value| == length
  {
    if DecodeGov(payload, length).Ok? {
      DecodeGovExact(payload, length, DecodeGov(payload, length).value);
    }
  }
}
