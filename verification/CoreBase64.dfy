/**
 Base64 over a permuted alphabet: RFC 4648, section 4, with the 64 characters
 renamed. Decoding renames only the characters of the alphabet and leaves every
 other character as it is; it is then strict, except that the bits after the
 last byte are ignored and that `=` may follow a complete last group.
 */
module CoreBase64 {
  import opened Wrappers
  import opened Bytes

  const PAD: byte := 61

  /** The characters A-Z a-z 0-9 + / by value. */
  function StandardChar(v: nat): byte
    requires v < 64
  {
    if v < 26 then 65 + v else if v < 52 then 71 + v else if v < 62 then v - 4 else if v == 62 then 43 else 47
  }

  function StandardValue(c: byte): (v: Option<nat>)
    ensures v.Some? ==> v.value < 64
  {
    if 65 <= c <= 90 then Some(c - 65)
    else if 97 <= c <= 122 then Some(c - 71)
    else if 48 <= c <= 57 then Some(c + 4)
    else if c == 43 then Some(62)
    else if c == 47 then Some(63)
    else None
  }

  /** The alphabets `_core_base64_tables` accepts; an alphabet is a string of code points. */
  predicate ValidAlphabet(alphabet: seq<nat>) {
    && |alphabet| == 64
    && (forall i, j :: 0 <= i < j < 64 ==> alphabet[i] != alphabet[j])
    && PAD !in alphabet
    && (forall i :: 0 <= i < 64 ==> alphabet[i] <= 127)
  }

  /** The position of `c`, or the length if it does not occur. */
  function IndexOf(s: seq<nat>, c: nat): (i: nat)
    ensures i <= |s|
    ensures i < |s| ==> s[i] == c
    ensures i == |s| <==> c !in s
  {
    if s == [] then 0 else if s[0] == c then 0 else 1 + IndexOf(s[1..], c)
  }

  /** The character for a value: the standard character renamed. */
  function EncodeChar(v: nat, alphabet: seq<nat>): byte
    requires v < 64 && ValidAlphabet(alphabet)
  {
    alphabet[v]
  }

  /** str.translate with the decoding table. */
  function DecodeChar(c: byte, alphabet: seq<nat>): byte
    requires ValidAlphabet(alphabet)
  {
    var i := IndexOf(alphabet, c);
    if i < 64 then StandardChar(i) else c
  }

  function CharValue(c: byte, alphabet: seq<nat>): (v: Option<nat>)
    requires ValidAlphabet(alphabet)
    ensures v.Some? ==> v.value < 64
  {
    StandardValue(DecodeChar(c, alphabet))
  }

  /** Renaming undoes itself, and never touches the pad character. */
  lemma CharRoundTrip(v: nat, alphabet: seq<nat>)
    requires v < 64 && ValidAlphabet(alphabet)
    ensures CharValue(EncodeChar(v, alphabet), alphabet) == Some(v) && EncodeChar(v, alphabet) != PAD
  {
    var i := IndexOf(alphabet, alphabet[v]);
    assert alphabet[i] == alphabet[v];
    assert i == v;
  }

  // The four six-bit values of three bytes, and back.

  function Value0(a: byte): nat { a / 4 }
  function Value1(a: byte, b: byte): nat { (a % 4) * 16 + b / 16 }
  function Value2(b: byte, c: byte): nat { (b % 16) * 4 + c / 64 }
  function Value3(c: byte): nat { c % 64 }

  function Byte0(v0: nat, v1: nat): byte
    requires v0 < 64 && v1 < 64
  {
    v0 * 4 + v1 / 16
  }

  function Byte1(v1: nat, v2: nat): byte
    requires v1 < 64 && v2 < 64
  {
    (v1 % 16) * 16 + v2 / 4
  }

  function Byte2(v2: nat, v3: nat): byte
    requires v2 < 64 && v3 < 64
  {
    (v2 % 4) * 64 + v3
  }

  lemma GroupRoundTrip(a: byte, b: byte, c: byte)
    ensures Value0(a) < 64 && Value1(a, b) < 64 && Value2(b, c) < 64 && Value3(c) < 64
    ensures Byte0(Value0(a), Value1(a, b)) == a
    ensures Byte1(Value1(a, b), Value2(b, c)) == b
    ensures Byte2(Value2(b, c), Value3(c)) == c
  {
    var a1, a0 := a / 4, a % 4;
    var b1, b0 := b / 16, b % 16;
    var c1, c0 := c / 64, c % 64;
    assert Value1(a, b) / 16 == a0 && Value1(a, b) % 16 == b1;
    assert Value2(b, c) / 4 == b0 && Value2(b, c) % 4 == c1;
  }

  function Group(v0: nat, v1: nat, v2: nat, v3: nat, alphabet: seq<nat>): seq<byte>
    requires v0 < 64 && v1 < 64 && v2 < 64 && v3 < 64 && ValidAlphabet(alphabet)
  {
    [EncodeChar(v0, alphabet), EncodeChar(v1, alphabet), EncodeChar(v2, alphabet), EncodeChar(v3, alphabet)]
  }

  /** encode_core_base64 */
  function Encode(payload: seq<byte>, alphabet: seq<nat>): (text: seq<byte>)
    requires ValidAlphabet(alphabet)
  {
    if payload == [] then []
    else if |payload| == 1 then
      GroupRoundTrip(payload[0], 0, 0);
      [EncodeChar(Value0(payload[0]), alphabet), EncodeChar(Value1(payload[0], 0), alphabet), PAD, PAD]
    else if |payload| == 2 then
      GroupRoundTrip(payload[0], payload[1], 0);
      [EncodeChar(Value0(payload[0]), alphabet), EncodeChar(Value1(payload[0], payload[1]), alphabet),
       EncodeChar(Value2(payload[1], 0), alphabet), PAD]
    else
      GroupRoundTrip(payload[0], payload[1], payload[2]);
      Group(Value0(payload[0]), Value1(payload[0], payload[1]), Value2(payload[1], payload[2]), Value3(payload[2]), alphabet)
      + Encode(payload[3..], alphabet)
  }

  predicate AllPad(text: seq<byte>) {
    forall c <- text :: c == PAD
  }

  /** The bytes of the groups of `text`; `started` when a complete group comes before it. */
  function DecodeGroups(text: seq<byte>, alphabet: seq<nat>, started: bool): Option<seq<byte>>
    requires ValidAlphabet(alphabet)
  {
    if text == [] || (started && AllPad(text)) then Some([])
    else if |text| < 4 then None
    else
      var v0 :- CharValue(text[0], alphabet);
      var v1 :- CharValue(text[1], alphabet);
      if text[2] == PAD then
        if text[3] == PAD && |text| == 4 then Some([Byte0(v0, v1)]) else None
      else
        var v2 :- CharValue(text[2], alphabet);
        if text[3] == PAD then
          if |text| == 4 then Some([Byte0(v0, v1), Byte1(v1, v2)]) else None
        else
          var v3 :- CharValue(text[3], alphabet);
          var rest :- DecodeGroups(text[4..], alphabet, true);
          Some([Byte0(v0, v1), Byte1(v1, v2), Byte2(v2, v3)] + rest)
  }

  /** decode_core_base64 on a byte string. */
  function Decode(text: seq<byte>, alphabet: seq<nat>): Result<seq<byte>, ErrorCode> {
    if !ValidAlphabet(alphabet) || exists c <- text :: c > 127 then Err(ValueError)
    else match DecodeGroups(text, alphabet, false)
      case None => Err(ResponseInvalid)
      case Some(payload) => Ok(payload)
  }

  lemma LastGroupRoundTrip(payload: seq<byte>, alphabet: seq<nat>, started: bool)
    requires ValidAlphabet(alphabet) && 1 <= |payload| <= 2
    ensures DecodeGroups(Encode(payload, alphabet), alphabet, started) == Some(payload)
    ensures forall c <- Encode(payload, alphabet) :: c <= 127
  {
    hide CharValue, EncodeChar, Byte0, Byte1, Byte2, Value0, Value1, Value2, Value3, ValidAlphabet;
    var a := payload[0];
    var b := if |payload| > 1 then payload[1] else 0;
    GroupRoundTrip(a, b, 0);
    EncodedCharRoundTrip(Value0(a), alphabet);
    EncodedCharRoundTrip(Value1(a, b), alphabet);
    EncodedCharRoundTrip(Value2(b, 0), alphabet);
    if |payload| == 1 {
      assert payload == [a];
    } else {
      assert payload == [a, b];
    }
    var text := Encode(payload, alphabet);
    assert text[0] != PAD && text[0] in text;
  }

  lemma EncodedCharRoundTrip(v: nat, alphabet: seq<nat>)
    requires v < 64 && ValidAlphabet(alphabet)
    ensures CharValue(EncodeChar(v, alphabet), alphabet) == Some(v)
    ensures EncodeChar(v, alphabet) != PAD && EncodeChar(v, alphabet) <= 127
  {
    CharRoundTrip(v, alphabet);
  }

  lemma FirstGroupDecodes(v0: nat, v1: nat, v2: nat, v3: nat, rest: seq<byte>, alphabet: seq<nat>, started: bool)
    requires ValidAlphabet(alphabet) && v0 < 64 && v1 < 64 && v2 < 64 && v3 < 64
    ensures DecodeGroups(Group(v0, v1, v2, v3, alphabet) + rest, alphabet, started)
         == match DecodeGroups(rest, alphabet, true)
            case None => None
            case Some(o) => Some([Byte0(v0, v1), Byte1(v1, v2), Byte2(v2, v3)] + o)
  {
    hide CharValue, EncodeChar, Byte0, Byte1, Byte2, ValidAlphabet;
    EncodedCharRoundTrip(v0, alphabet);
    EncodedCharRoundTrip(v1, alphabet);
    EncodedCharRoundTrip(v2, alphabet);
    EncodedCharRoundTrip(v3, alphabet);
    var text := Group(v0, v1, v2, v3, alphabet) + rest;
    assert text[4..] == rest;
    assert text[0] != PAD && text[0] in text;
  }

  lemma {:induction false} GroupsRoundTrip(payload: seq<byte>, alphabet: seq<nat>, started: bool)
    requires ValidAlphabet(alphabet)
    ensures DecodeGroups(Encode(payload, alphabet), alphabet, started) == Some(payload)
    ensures forall c <- Encode(payload, alphabet) :: c <= 127
    decreases |payload|
  {
    hide CharValue, EncodeChar, DecodeGroups, Byte0, Byte1, Byte2, Value0, Value1, Value2, Value3, ValidAlphabet;
    if payload == [] {
      EmptyTextDecodes(alphabet, started);
    } else if |payload| <= 2 {
      LastGroupRoundTrip(payload, alphabet, started);
    } else {
      var a, b, c, rest := payload[0], payload[1], payload[2], payload[3..];
      GroupRoundTrip(a, b, c);
      GroupsRoundTrip(rest, alphabet, true);
      FirstGroupDecodes(Value0(a), Value1(a, b), Value2(b, c), Value3(c), Encode(rest, alphabet), alphabet, started);
      EncodedCharRoundTrip(Value0(a), alphabet);
      EncodedCharRoundTrip(Value1(a, b), alphabet);
      EncodedCharRoundTrip(Value2(b, c), alphabet);
      EncodedCharRoundTrip(Value3(c), alphabet);
      assert payload == [a, b, c] + rest;
    }
  }

  lemma EmptyTextDecodes(alphabet: seq<nat>, started: bool)
    requires ValidAlphabet(alphabet)
    ensures DecodeGroups([], alphabet, started) == Some([])
  {
  }

  /** Decoding undoes encoding, for every payload and every accepted alphabet. */
  lemma Base64RoundTrip(payload: seq<byte>, alphabet: seq<nat>)
    requires ValidAlphabet(alphabet)
    ensures Decode(Encode(payload, alphabet), alphabet) == Ok(payload)
  {
    GroupsRoundTrip(payload, alphabet, false);
  }

  /** Four characters for every three bytes or part of them. */
  function EncodedLength(count: nat): nat {
    if count == 0 then 0 else if count <= 3 then 4 else 4 + EncodedLength(count - 3)
  }

  lemma {:induction false} EncodeLength(payload: seq<byte>, alphabet: seq<nat>)
    requires ValidAlphabet(alphabet)
    ensures |Encode(payload, alphabet)| == EncodedLength(|payload|)
    decreases |payload|
  {
    hide CharValue, EncodeChar, Value0, Value1, Value2, Value3, ValidAlphabet;
    if |payload| > 3 {
      EncodeLength(payload[3..], alphabet);
    } else if |payload| == 3 {
      assert payload[3..] == [];
    }
  }

  /** An accepted text is as long as the encoding of what it decodes to, but for pad characters after its last complete group. */
  lemma {:induction false} DecodedLength(text: seq<byte>, alphabet: seq<nat>, started: bool)
    requires ValidAlphabet(alphabet) && DecodeGroups(text, alphabet, started).Some?
    ensures var count := |DecodeGroups(text, alphabet, started).value|;
            EncodedLength(count) <= |text| && (EncodedLength(count) < |text| ==> count % 3 == 0 && AllPad(text[EncodedLength(count)..]))
    decreases |text|
  {
    hide CharValue, Byte0, Byte1, Byte2, ValidAlphabet;
    if text != [] && !(started && AllPad(text)) && text[2] != PAD && text[3] != PAD {
      DecodedLength(text[4..], alphabet, true);
      var count := |DecodeGroups(text[4..], alphabet, true).value|;
      assert EncodedLength(count + 3) == EncodedLength(count) + 4;
      assert text[4..][EncodedLength(count)..] == text[EncodedLength(count + 3)..];
    }
  }

  // ------------------------------------------------------------ in plain digits

  /** A-Z, a-z, 0-9, + and / in this order, and = for padding. */
  lemma StandardAlphabet(v: nat, c: byte)
    requires v < 64
    ensures v < 26 ==> StandardChar(v) == 'A' as int + v
    ensures 26 <= v < 52 ==> StandardChar(v) == 'a' as int + (v - 26)
    ensures 52 <= v < 62 ==> StandardChar(v) == '0' as int + (v - 52)
    ensures StandardChar(62) == '+' as int && StandardChar(63) == '/' as int && PAD == '=' as int
    ensures StandardValue(c) == Some(v) <==> c == StandardChar(v)
  {
  }

  /** 64 different ASCII characters, none of them the pad; the standard alphabet is one such choice. */
  lemma AlphabetMeans(alphabet: seq<nat>)
    ensures ValidAlphabet(alphabet) <==>
              && |alphabet| == 64 && '=' as int !in alphabet && (forall c <- alphabet :: c < 128)
              && forall i, j :: 0 <= i < 64 && 0 <= j < 64 && alphabet[i] == alphabet[j] ==> i == j
    ensures ValidAlphabet(seq(64, v requires 0 <= v < 64 => StandardChar(v)))
  {
    var standard: seq<nat> := seq(64, v requires 0 <= v < 64 => StandardChar(v));
    assert forall v :: 0 <= v < 64 ==> StandardValue(standard[v]) == Some(v);
    if ValidAlphabet(alphabet) {
      forall c <- alphabet ensures c < 128 {
        var i :| 0 <= i < 64 && alphabet[i] == c;
      }
    }
    assert |alphabet| == 64 ==> forall i :: 0 <= i < 64 ==> alphabet[i] in alphabet;
  }

  /** A text that is not ASCII is another error than one that is not Base64. */
  lemma ErrorsMean(text: seq<byte>, alphabet: seq<nat>)
    requires ValidAlphabet(alphabet)
    ensures Decode(text, alphabet) == Err(ValueError) <==> exists c <- text :: c >= 128
  {
  }

  /** The characters of the alphabet stand for their positions; no other character is renamed. */
  lemma DecodedChar(c: byte, alphabet: seq<nat>, v: nat)
    requires ValidAlphabet(alphabet) && v < 64
    ensures c as nat == alphabet[v] ==> CharValue(c, alphabet) == Some(v)
    ensures c as nat !in alphabet ==> (CharValue(c, alphabet) == Some(v) <==> c == StandardChar(v))
  {
    if c as nat == alphabet[v] {
      CharRoundTrip(v, alphabet);
    }
  }

  /** Three bytes are one number of twenty-four bits, written in four digits of base 64. */
  lemma ThreeBytes(payload: seq<byte>, alphabet: seq<nat>) returns (v0: nat, v1: nat, v2: nat, v3: nat)
    requires ValidAlphabet(alphabet) && |payload| >= 3
    ensures v0 < 64 && v1 < 64 && v2 < 64 && v3 < 64
    ensures 262144 * v0 + 4096 * v1 + 64 * v2 + v3 == 65536 * (payload[0] as nat) + 256 * (payload[1] as nat) + payload[2]
    ensures Encode(payload, alphabet) == [alphabet[v0], alphabet[v1], alphabet[v2], alphabet[v3]] + Encode(payload[3..], alphabet)
  {
    var a, b, c := payload[0], payload[1], payload[2];
    v0, v1, v2, v3 := Value0(a), Value1(a, b), Value2(b, c), Value3(c);
    GroupRoundTrip(a, b, c);
    Digits(a, b, c);
  }

  lemma Digits(a: byte, b: byte, c: byte)
    ensures 262144 * Value0(a) + 4096 * Value1(a, b) + 64 * Value2(b, c) + Value3(c) == 65536 * (a as nat) + 256 * (b as nat) + c
  {
    assert a == 4 * (a / 4) + a % 4;
    assert b == 16 * (b / 16) + b % 16;
    assert c == 64 * (c / 64) + c % 64;
  }

  /** The last one or two bytes are followed by zero bits and padded. */
  lemma LastByte(a: byte, alphabet: seq<nat>) returns (v0: nat, v1: nat)
    requires ValidAlphabet(alphabet)
    ensures v0 < 64 && v1 < 64 && 64 * v0 + v1 == 16 * (a as nat)
    ensures Encode([a], alphabet) == [alphabet[v0], alphabet[v1], PAD, PAD]
  {
    hide ValidAlphabet, Byte0, Byte1, Byte2, Value2, Value3;
    var payload := [a];
    v0, v1 := Value0(a), Value1(a, 0);
    GroupRoundTrip(a, 0, 0);
    KnownChar(v0, alphabet);
    assert v1 == a % 4 * 16;
    assert Encode(payload, alphabet) == [alphabet[v0], alphabet[v1], PAD, PAD];
  }

  lemma LastTwoBytes(a: byte, b: byte, alphabet: seq<nat>) returns (v0: nat, v1: nat, v2: nat)
    requires ValidAlphabet(alphabet)
    ensures v0 < 64 && v1 < 64 && v2 < 64 && 4096 * v0 + 64 * v1 + v2 == 1024 * (a as nat) + 4 * (b as nat)
    ensures Encode([a, b], alphabet) == [alphabet[v0], alphabet[v1], alphabet[v2], PAD]
  {
    hide ValidAlphabet;
    v0, v1, v2 := Value0(a), Value1(a, b), Value2(b, 0);
    GroupRoundTrip(a, b, 0);
    KnownChar(v0, alphabet);
    assert a == 4 * (a / 4) + a % 4;
    assert b == 16 * (b / 16) + b % 16;
  }

  /** The bits after the last byte are dropped, whatever they are. */
  lemma SpareBitsAreDropped(v0: nat, v1: nat, v2: nat, alphabet: seq<nat>)
    requires ValidAlphabet(alphabet) && v0 < 64 && v1 < 64 && v2 < 64
    ensures Decode([alphabet[v0], alphabet[v1], PAD, PAD], alphabet) == Ok([4 * v0 + v1 / 16])
    ensures Decode([alphabet[v0], alphabet[v1], alphabet[v2], PAD], alphabet) == Ok([4 * v0 + v1 / 16, v1 % 16 * 16 + v2 / 4])
  {
    hide CharValue, ValidAlphabet;
    KnownChar(v0, alphabet);
    KnownChar(v1, alphabet);
    KnownChar(v2, alphabet);
  }

  lemma KnownChar(v: nat, alphabet: seq<nat>)
    requires ValidAlphabet(alphabet) && v < 64
    ensures |alphabet| == 64 && alphabet[v] <= 127 && alphabet[v] != PAD && CharValue(alphabet[v], alphabet) == Some(v)
  {
    EncodedCharRoundTrip(v, alphabet);
  }

  lemma NoChar(alphabet: seq<nat>)
    requires ValidAlphabet(alphabet)
    ensures CharValue(PAD, alphabet) == None
  {
  }

  /** A group that is cut short is refused, and so are pad characters behind padding or with no group before them. */
  lemma UnfinishedGroups(v0: nat, v1: nat, v2: nat, pads: seq<byte>, alphabet: seq<nat>)
    requires ValidAlphabet(alphabet) && v0 < 64 && v1 < 64 && v2 < 64
    ensures Decode([alphabet[v0], alphabet[v1], alphabet[v2]], alphabet) == Err(ResponseInvalid)
    ensures Decode([alphabet[v0], alphabet[v1], PAD, PAD, PAD], alphabet) == Err(ResponseInvalid)
    ensures pads != [] && AllPad(pads) ==> Decode(pads, alphabet) == Err(ResponseInvalid)
  {
    hide CharValue, ValidAlphabet;
    KnownChar(v0, alphabet);
    KnownChar(v1, alphabet);
    KnownChar(v2, alphabet);
    NoChar(alphabet);
    if pads != [] && AllPad(pads) {
      assert pads[0] in pads;
    }
  }

  /** Pad characters behind a complete last group are ignored. */
  lemma SparePadsAreIgnored(payload: seq<byte>, pads: seq<byte>, alphabet: seq<nat>)
    requires ValidAlphabet(alphabet) && |payload| == 3 && AllPad(pads)
    ensures Decode(Encode(payload, alphabet) + pads, alphabet) == Ok(payload)
  {
    hide CharValue, ValidAlphabet, EncodeChar, Byte0, Byte1, Byte2, Value0, Value1, Value2, Value3;
    var a, b, c := payload[0], payload[1], payload[2];
    GroupRoundTrip(a, b, c);
    assert payload[3..] == [];
    var group := Group(Value0(a), Value1(a, b), Value2(b, c), Value3(c), alphabet);
    assert Encode(payload, alphabet) == group + [] == group;
    FirstGroupDecodes(Value0(a), Value1(a, b), Value2(b, c), Value3(c), pads, alphabet, false);
    EncodedCharRoundTrip(Value0(a), alphabet);
    EncodedCharRoundTrip(Value1(a, b), alphabet);
    EncodedCharRoundTrip(Value2(b, c), alphabet);
    EncodedCharRoundTrip(Value3(c), alphabet);
    assert payload == [a, b, c] + [];
    assert forall x <- pads :: x == PAD;
    assert forall x <- group :: x <= 127;
    assert forall x <- group + pads :: x in group || x in pads;
  }
}
