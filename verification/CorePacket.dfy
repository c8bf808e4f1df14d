/**
 Captured 9528 request packets: the outer framing, replacing the template symbol
 inside the Base64 body, and the checks made when a session is captured.
 `CaptureSuffices` says that those checks are enough for every later request.
 */
module CorePacket {
  import opened Wrappers
  import opened Bytes
  import Base64 = CoreBase64

  // --------------------------------------------------------------- outer frame

  predicate HexDigit(c: byte) {
    48 <= c <= 57 || 65 <= c <= 70 || 97 <= c <= 102
  }

  function HexDigitValue(c: byte): nat
    requires HexDigit(c)
  {
    if c <= 57 then c - 48 else if c <= 70 then c - 55 else c - 87
  }

  predicate AllHex(s: seq<byte>) {
    forall c <- s :: HexDigit(c)
  }

  /** int(s, 16) */
  function HexValue(s: seq<byte>): nat
    requires AllHex(s)
  {
    if s == [] then 0 else 16 * HexValue(s[..|s| - 1]) + HexDigitValue(s[|s| - 1])
  }

  const HEADER: nat := 13

  predicate ValidHeader(header: seq<byte>) {
    |header| == HEADER && header[..4] == [0xfd, 0xfd, 0xfd, 0xfd] && AllHex(header[4..12]) && header[12] == 0
  }

  function DeclaredLength(header: seq<byte>): nat
    requires ValidHeader(header)
  {
    HexValue(header[4..12])
  }

  /** The packets `_validate_9528_outer_packet` accepts. */
  predicate ValidOuter(packet: seq<byte>) {
    && |packet| >= 14
    && ValidHeader(packet[..HEADER])
    && DeclaredLength(packet[..HEADER]) == |packet| - HEADER <= MAX_PAYLOAD
  }

  /** Validity depends on the header and the length only. */
  lemma ValidOuterByHeader(packet: seq<byte>, other: seq<byte>)
    requires ValidOuter(packet) && |other| == |packet| && other[..HEADER] == packet[..HEADER]
    ensures ValidOuter(other)
  {
  }

  // --------------------------------------------------------------- replacement

  predicate Contains(s: seq<byte>, target: seq<byte>) {
    |s| >= |target| && (s[..|target|] == target || (s != [] && Contains(s[1..], target)))
  }

  /** bytes.replace: the occurrences from the left that do not overlap. */
  function Replace(s: seq<byte>, target: seq<byte>, replacement: seq<byte>): seq<byte> {
    if target == [] then replacement + (if s == [] then [] else [s[0]] + Replace(s[1..], target, replacement))
    else if |s| < |target| then s
    else if s[..|target|] == target then replacement + Replace(s[|target|..], target, replacement)
    else [s[0]] + Replace(s[1..], target, replacement)
  }

  lemma {:induction false} ReplaceKeepsLength(s: seq<byte>, target: seq<byte>, replacement: seq<byte>)
    requires |target| == |replacement| > 0
    ensures |Replace(s, target, replacement)| == |s|
    decreases |s|
  {
    if |s| >= |target| {
      if s[..|target|] == target {
        ReplaceKeepsLength(s[|target|..], target, replacement);
      } else {
        ReplaceKeepsLength(s[1..], target, replacement);
      }
    }
  }

  /** Replacing something by itself changes nothing. */
  lemma {:induction false} ReplaceByItself(s: seq<byte>, target: seq<byte>)
    requires |target| > 0
    ensures Replace(s, target, target) == s
    decreases |s|
  {
    if |s| >= |target| {
      if s[..|target|] == target {
        ReplaceByItself(s[|target|..], target);
      } else {
        ReplaceByItself(s[1..], target);
      }
    }
  }

  /** A string of code points, as the source's str. */
  type Symbol = seq<nat>

  predicate Ascii(symbol: Symbol) {
    forall c <- symbol :: c <= 127
  }

  predicate SixDigits(symbol: Symbol) {
    |symbol| == 6 && forall c <- symbol :: 48 <= c <= 57
  }

  lemma AsciiTail(symbol: Symbol)
    requires Ascii(symbol) && symbol != []
    ensures symbol[0] <= 127 && Ascii(symbol[1..])
  {
    assert symbol[0] in symbol;
    assert forall c <- symbol[1..] :: c in symbol;
  }

  function AsciiBytes(symbol: Symbol): (s: seq<byte>)
    requires Ascii(symbol)
    ensures |s| == |symbol|
  {
    if symbol == [] then []
    else
      AsciiTail(symbol);
      var c: byte := symbol[0];
      [c] + AsciiBytes(symbol[1..])
  }

  function Utf16BigEndian(symbol: Symbol): (s: seq<byte>)
    requires Ascii(symbol)
    ensures |s| == 2 * |symbol|
  {
    if symbol == [] then []
    else
      AsciiTail(symbol);
      var c: byte := symbol[0];
      [0, c] + Utf16BigEndian(symbol[1..])
  }

  function Utf16LittleEndian(symbol: Symbol): (s: seq<byte>)
    requires Ascii(symbol)
    ensures |s| == 2 * |symbol|
  {
    if symbol == [] then []
    else
      AsciiTail(symbol);
      var c: byte := symbol[0];
      [c, 0] + Utf16LittleEndian(symbol[1..])
  }

  /** The three spellings of the template symbol and of the symbol put in its place. */
  function Replacements(original: Symbol, symbol: Symbol): (rs: seq<(seq<byte>, seq<byte>)>)
    requires Ascii(original) && Ascii(symbol)
  {
    [(AsciiBytes(original), AsciiBytes(symbol)),
     (Utf16BigEndian(original), Utf16BigEndian(symbol)),
     (Utf16LittleEndian(original), Utf16LittleEndian(symbol))]
  }

  /** The replacements in order, each looked for in the result of those before it. */
  function Substitute(s: seq<byte>, rs: seq<(seq<byte>, seq<byte>)>, changed: bool): (seq<byte>, bool)
    decreases |rs|
  {
    if rs == [] then (s, changed)
    else if Contains(s, rs[0].0) then Substitute(Replace(s, rs[0].0, rs[0].1), rs[1..], true)
    else Substitute(s, rs[1..], changed)
  }

  // ------------------------------------------------------------------ patching

  /** Where the Base64 body starts, if the header leaves room for one. */
  function BodyStart(packet: seq<byte>): Option<nat> {
    if !ValidOuter(packet) || |packet| < 15 then None
    else
      var headerLength := LittleEndian(packet[13..15]);
      if headerLength < 2 || 13 + headerLength >= |packet| then None else Some(13 + headerLength)
  }

  /** patch_core_packet_symbol */
  function Patch(packet: seq<byte>, original: Symbol, symbol: Symbol, alphabet: seq<nat>): Result<seq<byte>, ErrorCode> {
    match BodyStart(packet)
    case None => Err(ValueError)
    case Some(start) =>
      var decoded :- Base64.Decode(packet[start..], alphabet);
      if !Ascii(original) || !Ascii(symbol) then Err(ValueError)
      else
        var (patched, changed) := Substitute(decoded, Replacements(original, symbol), false);
        if !changed then Err(RequestInvalid)
        else
          var encoded := Base64.Encode(patched, alphabet);
          if |encoded| != |packet| - start then Err(RequestInvalid) else Ok(packet[..start] + encoded)
  }

  predicate SameLengths(rs: seq<(seq<byte>, seq<byte>)>) {
    forall r <- rs :: |r.0| == |r.1| > 0
  }

  lemma {:induction false} SubstituteKeepsLength(s: seq<byte>, rs: seq<(seq<byte>, seq<byte>)>, changed: bool)
    requires SameLengths(rs)
    ensures |Substitute(s, rs, changed).0| == |s|
    decreases |rs|
  {
    if rs != [] {
      if Contains(s, rs[0].0) {
        ReplaceKeepsLength(s, rs[0].0, rs[0].1);
        SubstituteKeepsLength(Replace(s, rs[0].0, rs[0].1), rs[1..], true);
      } else {
        SubstituteKeepsLength(s, rs[1..], changed);
      }
    }
  }

  /** Once something was found the answer stays; until then the bytes searched are the original ones. */
  lemma {:induction false} SubstituteFindsTheOriginal(s: seq<byte>, rs: seq<(seq<byte>, seq<byte>)>, changed: bool)
    ensures Substitute(s, rs, changed).1 <==> changed || exists r <- rs :: Contains(s, r.0)
    decreases |rs|
  {
    if rs != [] {
      assert rs == [rs[0]] + rs[1..];
      if Contains(s, rs[0].0) {
        assert rs[0] in rs;
        SubstituteFindsTheOriginal(Replace(s, rs[0].0, rs[0].1), rs[1..], true);
      } else {
        SubstituteFindsTheOriginal(s, rs[1..], changed);
        if r :| r in rs && Contains(s, r.0) {
          assert r in rs[1..];
        }
      }
    }
  }

  /** What the replacements search for does not depend on the symbol put in. */
  lemma ReplacementsAreAligned(original: Symbol, symbol: Symbol, s: seq<byte>)
    requires SixDigits(original) && SixDigits(symbol)
    ensures SameLengths(Replacements(original, symbol))
    ensures (exists r <- Replacements(original, symbol) :: Contains(s, r.0))
       <==> Contains(s, AsciiBytes(original)) || Contains(s, Utf16BigEndian(original)) || Contains(s, Utf16LittleEndian(original))
  {
    hide Contains;
    var rs := Replacements(original, symbol);
    assert rs[0] in rs && rs[1] in rs && rs[2] in rs;
  }

  /** Whether a packet can be patched does not depend on which six-digit symbol is put in. */
  lemma PatchIsSymbolIndependent(packet: seq<byte>, original: Symbol, symbol: Symbol, other: Symbol, alphabet: seq<nat>)
    requires SixDigits(original) && SixDigits(symbol) && SixDigits(other)
    ensures Patch(packet, original, symbol, alphabet).Ok? <==> Patch(packet, original, other, alphabet).Ok?
    ensures Patch(packet, original, symbol, alphabet).Err? ==>
              Patch(packet, original, other, alphabet) == Patch(packet, original, symbol, alphabet)
  {
    hide Replacements, Substitute, Contains, SameLengths;
    var start := BodyStart(packet);
    if start.Some? {
      var decoded := Base64.Decode(packet[start.value..], alphabet);
      if decoded.Ok? {
        ReplacementsAreAligned(original, symbol, decoded.value);
        ReplacementsAreAligned(original, other, decoded.value);
        var rs, rs' := Replacements(original, symbol), Replacements(original, other);
        SubstituteFindsTheOriginal(decoded.value, rs, false);
        SubstituteFindsTheOriginal(decoded.value, rs', false);
        SubstituteKeepsLength(decoded.value, rs, false);
        SubstituteKeepsLength(decoded.value, rs', false);
        Base64.EncodeLength(Substitute(decoded.value, rs, false).0, alphabet);
        Base64.EncodeLength(Substitute(decoded.value, rs', false).0, alphabet);
      }
    }
  }

  /** A patched packet keeps its length, its header and its validity, and its body decodes to the patched bytes. */
  lemma PatchedPacketIsSound(packet: seq<byte>, original: Symbol, symbol: Symbol, alphabet: seq<nat>)
    requires SixDigits(original) && SixDigits(symbol) && Patch(packet, original, symbol, alphabet).Ok?
    ensures var patched := Patch(packet, original, symbol, alphabet).value;
            var start := BodyStart(packet).value;
            && |patched| == |packet| && patched[..start] == packet[..start]
            && ValidOuter(patched) && BodyStart(patched) == BodyStart(packet)
            && Base64.Decode(packet[start..], alphabet).Ok?
            && Base64.Decode(patched[start..], alphabet)
               == Ok(Substitute(Base64.Decode(packet[start..], alphabet).value, Replacements(original, symbol), false).0)
  {
    hide Replacements, Substitute, Base64.Encode, Base64.DecodeGroups, ValidHeader, DeclaredLength;
    var patched := Patch(packet, original, symbol, alphabet).value;
    var start := BodyStart(packet).value;
    var decoded := Base64.Decode(packet[start..], alphabet).value;
    var body := Substitute(decoded, Replacements(original, symbol), false).0;
    Base64.Base64RoundTrip(body, alphabet);
    assert patched[start..] == Base64.Encode(body, alphabet);
    assert patched[..start] == packet[..start];
    assert patched[..HEADER] == patched[..start][..HEADER] == packet[..HEADER];
    ValidOuterByHeader(packet, patched);
    assert patched[13..15] == patched[..start][13..15] == packet[13..15];
  }

  // ------------------------------------------------------ capture and request

  /** A text field of the captured material: absent, not parsable, or its parsed value. */
  datatype Field<+T> = Missing | Malformed | Present(value: T)

  /** `marketKnown` says whether the template symbol maps to a market code. */
  datatype Captured = Captured(
    serverIp: string,
    serverPort: Field<int>,
    authPacket: Field<seq<byte>>,
    alphabet: seq<nat>,
    template: Symbol,
    marketKnown: bool,
    packets: Field<seq<Field<seq<byte>>>>,
    macdfs: Field<seq<int>>)

  datatype Material = Material(
    serverIp: string,
    serverPort: int,
    authPacket: seq<byte>,
    alphabet: seq<nat>,
    template: Symbol,
    packets: seq<seq<byte>>,
    macdfs: seq<int>)

  predicate ValidMacdfs(params: seq<int>) {
    |params| == 3 && forall p <- params :: 0 < p <= 1000
  }

  predicate DistinctCharacters(alphabet: seq<nat>) {
    |alphabet| == 64 && forall i, j :: 0 <= i < j < 64 ==> alphabet[i] != alphabet[j]
  }

  /** One captured request packet: present, not empty, and patchable with its own symbol. */
  predicate AcceptablePacket(p: Field<seq<byte>>, template: Symbol, alphabet: seq<nat>) {
    p.Present? && p.value != [] && Patch(p.value, template, template, alphabet).Ok?
  }

  predicate AcceptableMaterial(c: Captured) {
    && c.serverIp != "" && c.serverPort.Present? && 1 <= c.serverPort.value <= 65535
    && c.authPacket.Present? && ValidOuter(c.authPacket.value)
    && DistinctCharacters(c.alphabet)
    && c.macdfs.Present? && ValidMacdfs(c.macdfs.value)
    && SixDigits(c.template) && c.marketKnown
    && c.packets.Present? && c.packets.value != []
    && forall p <- c.packets.value :: AcceptablePacket(p, c.template, c.alphabet)
  }

  predicate MissingSession(c: Captured) {
    c.serverIp == "" || c.serverPort.Missing? || c.authPacket.Missing?
  }

  predicate MissingTemplate(c: Captured) {
    c.alphabet == [] || c.template == [] || c.packets.Missing? || c.macdfs.Missing?
  }

  /** The faults reported as a missing session; a missing template field hides an unusable port or packet. */
  predicate SessionFault(c: Captured) {
    MissingSession(c)
    || (!MissingTemplate(c)
        && (!c.serverPort.Present? || !c.authPacket.Present? || !(1 <= c.serverPort.value <= 65535) || c.authPacket.value == []))
  }

  /** _validated_core_material */
  method ValidatedCoreMaterial(c: Captured) returns (r: Result<Material, ErrorCode>)
    ensures r.Ok? <==> AcceptableMaterial(c)
    ensures r.Ok? ==>
              && r.value.serverIp == c.serverIp && r.value.serverPort == c.serverPort.value
              && r.value.authPacket == c.authPacket.value && r.value.alphabet == c.alphabet
              && r.value.template == c.template && r.value.macdfs == c.macdfs.value
              && |r.value.packets| == |c.packets.value|
              && forall i :: 0 <= i < |r.value.packets| ==> c.packets.value[i] == Present(r.value.packets[i])
    ensures r.Ok? ==> Accepted(r.value)
    ensures r.Err? ==> r.error == if SessionFault(c) then SessionUnavailable else HandshakeFailed
  {
    hide Patch, ValidOuter;
    if c.serverIp == "" || c.serverPort.Missing? || c.authPacket.Missing? {
      return Err(SessionUnavailable);
    }
    if c.alphabet == [] {
      return Err(HandshakeFailed);
    }
    if c.template == [] || c.packets.Missing? || c.macdfs.Missing? {
      return Err(HandshakeFailed);
    }
    if c.serverPort.Malformed? || c.authPacket.Malformed? {
      return Err(SessionUnavailable);
    }
    if !(1 <= c.serverPort.value <= 65535) || c.authPacket.value == [] {
      NotEmptyIfValid(c.authPacket.value);
      return Err(SessionUnavailable);
    }
    if !DistinctCharacters(c.alphabet) {
      return Err(HandshakeFailed);
    }
    if c.macdfs.Malformed? || !ValidMacdfs(c.macdfs.value) {
      return Err(HandshakeFailed);
    }
    if !ValidOuter(c.authPacket.value) {
      return Err(HandshakeFailed);
    }
    if !SixDigits(c.template) || !c.marketKnown || c.packets.Malformed? || c.packets.value == [] {
      return Err(HandshakeFailed);
    }
    var packets: seq<seq<byte>> := [];
    for i := 0 to |c.packets.value|
      invariant |packets| == i
      invariant forall j :: 0 <= j < i ==> c.packets.value[j] == Present(packets[j])
      invariant forall j :: 0 <= j < i ==> AcceptablePacket(c.packets.value[j], c.template, c.alphabet)
    {
      var packet := c.packets.value[i];
      if !packet.Present? || packet.value == [] {
        assert c.packets.value[i] in c.packets.value;
        return Err(HandshakeFailed);
      }
      if Patch(packet.value, c.template, c.template, c.alphabet).Err? {
        assert c.packets.value[i] in c.packets.value;
        return Err(HandshakeFailed);
      }
      packets := packets + [packet.value];
    }
    return Ok(Material(c.serverIp, c.serverPort.value, c.authPacket.value, c.alphabet, c.template, packets, c.macdfs.value));
  }

  lemma NotEmptyIfValid(packet: seq<byte>)
    ensures ValidOuter(packet) ==> packet != []
  {
  }

  /** Material as the capture leaves it. */
  predicate Accepted(m: Material) {
    && 1 <= m.serverPort <= 65535 && ValidOuter(m.authPacket) && DistinctCharacters(m.alphabet)
    && SixDigits(m.template) && ValidMacdfs(m.macdfs) && m.packets != []
    && forall p <- m.packets :: Patch(p, m.template, m.template, m.alphabet).Ok?
  }

  /** The request packets for a symbol, or None if one of them cannot be patched. */
  function PatchAll(packets: seq<seq<byte>>, template: Symbol, symbol: Symbol, alphabet: seq<nat>): Option<seq<seq<byte>>> {
    if packets == [] then Some([])
    else match Patch(packets[0], template, symbol, alphabet)
      case Err(_) => None
      case Ok(first) =>
        var rest :- PatchAll(packets[1..], template, symbol, alphabet);
        Some([first] + rest)
  }

  /** The packets `prepare` sends: the authentication packet, then every patched request packet. */
  function MaterialPackets(m: Material, symbol: Symbol): Result<seq<seq<byte>>, ErrorCode> {
    if !Base64.ValidAlphabet(m.alphabet) || !ValidOuter(m.authPacket) || m.packets == [] then Err(HandshakeFailed)
    else match PatchAll(m.packets, m.template, symbol, m.alphabet)
      case None => Err(HandshakeFailed)
      case Some(packets) => Ok([m.authPacket] + packets)
  }

  ghost predicate WellPatched(patched: seq<byte>, packet: seq<byte>) {
    && BodyStart(packet).Some?
    && |patched| == |packet| && ValidOuter(patched) && BodyStart(patched) == BodyStart(packet)
    && patched[..BodyStart(packet).value] == packet[..BodyStart(packet).value]
  }

  lemma {:induction false} PatchAllSucceeds(packets: seq<seq<byte>>, template: Symbol, symbol: Symbol, alphabet: seq<nat>)
    requires SixDigits(template) && SixDigits(symbol)
    requires forall p <- packets :: Patch(p, template, template, alphabet).Ok?
    ensures var r := PatchAll(packets, template, symbol, alphabet);
            && r.Some? && |r.value| == |packets|
            && forall i :: 0 <= i < |packets| ==> WellPatched(r.value[i], packets[i])
    decreases |packets|
  {
    hide SixDigits, ValidOuter, BodyStart;
    if packets != [] {
      assert packets[0] in packets;
      PatchIsSymbolIndependent(packets[0], template, template, symbol, alphabet);
      PatchedIsWellPatched(packets[0], template, symbol, alphabet);
      PatchAllSucceeds(packets[1..], template, symbol, alphabet);
    }
  }

  lemma PatchedIsWellPatched(packet: seq<byte>, template: Symbol, symbol: Symbol, alphabet: seq<nat>)
    requires SixDigits(template) && SixDigits(symbol) && Patch(packet, template, symbol, alphabet).Ok?
    ensures WellPatched(Patch(packet, template, symbol, alphabet).value, packet)
  {
    PatchedPacketIsSound(packet, template, symbol, alphabet);
  }

  /** The checks made at capture time make packet preparation succeed for every six-digit symbol. */
  lemma CaptureSuffices(m: Material, symbol: Symbol)
    requires Accepted(m) && SixDigits(symbol)
    ensures var r := MaterialPackets(m, symbol);
            && r.Ok? && |r.value| == 1 + |m.packets| && r.value[0] == m.authPacket
            && forall i :: 0 <= i < |m.packets| ==> WellPatched(r.value[i + 1], m.packets[i])
  {
    hide ValidOuter, BodyStart, SixDigits;
    assert m.packets[0] in m.packets;
    AlphabetWasUsed(m.packets[0], m.template, m.alphabet);
    PatchAllSucceeds(m.packets, m.template, symbol, m.alphabet);
  }

  /** The alphabet check that capture time leaves to the first packet. */
  lemma AlphabetWasUsed(packet: seq<byte>, template: Symbol, alphabet: seq<nat>)
    requires Patch(packet, template, template, alphabet).Ok?
    ensures Base64.ValidAlphabet(alphabet)
  {
  }

  /** And they are not too strict: material one symbol can be prepared from would have been accepted at capture. */
  lemma {:induction false} CaptureIsNotTooStrict(packets: seq<seq<byte>>, template: Symbol, symbol: Symbol, alphabet: seq<nat>)
    requires SixDigits(template) && SixDigits(symbol) && PatchAll(packets, template, symbol, alphabet).Some?
    ensures forall p <- packets :: Patch(p, template, template, alphabet).Ok?
    decreases |packets|
  {
    hide SixDigits, Patch;
    if packets != [] {
      PatchIsSymbolIndependent(packets[0], template, symbol, template, alphabet);
      CaptureIsNotTooStrict(packets[1..], template, symbol, alphabet);
      assert packets == [packets[0]] + packets[1..];
    }
  }

  // ------------------------------------------------------- in plain terms

  lemma TextMeans(symbol: Symbol)
    ensures SixDigits(symbol) <==> |symbol| == 6 && forall i :: 0 <= i < 6 ==> '0' as int <= symbol[i] <= '9' as int
    ensures Ascii(symbol) <==> forall i :: 0 <= i < |symbol| ==> symbol[i] < 128
  {
    forall i | 0 <= i < |symbol| ensures symbol[i] in symbol {
    }
  }

  /**
   What the capture accepts. That the alphabet is ASCII without the pad character is not looked at on its own: the packets,
   each of which has to be patchable, see to it.
   */
  lemma AcceptableMeans(c: Captured)
    ensures AcceptableMaterial(c) <==>
              && |c.serverIp| > 0
              && c.serverPort.Present? && 0 < c.serverPort.value < 65536
              && c.authPacket.Present? && ValidOuter(c.authPacket.value)
              && |c.alphabet| == 64 && (forall i, j :: 0 <= i < 64 && 0 <= j < 64 && c.alphabet[i] == c.alphabet[j] ==> i == j)
              && '=' as int !in c.alphabet && (forall x <- c.alphabet :: x < 128)
              && c.macdfs.Present? && |c.macdfs.value| == 3 && (forall i :: 0 <= i < 3 ==> 1 <= c.macdfs.value[i] <= 1000)
              && SixDigits(c.template) && c.marketKnown
              && c.packets.Present? && |c.packets.value| > 0
              && forall i :: 0 <= i < |c.packets.value| ==>
                   c.packets.value[i].Present? && Patch(c.packets.value[i].value, c.template, c.template, c.alphabet).Ok?
  {
    hide Patch, ValidOuter, SixDigits, Base64.ValidAlphabet;
    Base64.AlphabetMeans(c.alphabet);
    MacdfsMean(c);
    if c.packets.Present? && c.packets.value != [] {
      var ps := c.packets.value;
      forall i | 0 <= i < |ps| && ps[i].Present? && Patch(ps[i].value, c.template, c.template, c.alphabet).Ok?
        ensures ps[i].value != [] && Base64.ValidAlphabet(c.alphabet)
      {
        AlphabetWasUsed(ps[i].value, c.template, c.alphabet);
        PatchedIsNotEmpty(ps[i].value, c.template, c.alphabet);
      }
      assert forall i :: 0 <= i < |ps| ==> ps[i] in ps;
      assert ps[0] in ps;
    }
  }

  lemma MacdfsMean(c: Captured)
    ensures c.macdfs.Present? ==>
              (ValidMacdfs(c.macdfs.value) <==> |c.macdfs.value| == 3 && forall i :: 0 <= i < 3 ==> 1 <= c.macdfs.value[i] <= 1000)
    ensures DistinctCharacters(c.alphabet) <==>
              |c.alphabet| == 64 && forall i, j :: 0 <= i < 64 && 0 <= j < 64 && c.alphabet[i] == c.alphabet[j] ==> i == j
  {
    if c.macdfs.Present? {
      assert forall i :: 0 <= i < |c.macdfs.value| ==> c.macdfs.value[i] in c.macdfs.value;
    }
  }

  lemma PatchedIsNotEmpty(packet: seq<byte>, template: Symbol, alphabet: seq<nat>)
    requires Patch(packet, template, template, alphabet).Ok?
    ensures packet != []
  {
  }

  lemma WellPatchedMeans(patched: seq<byte>, packet: seq<byte>, i: nat)
    requires WellPatched(patched, packet)
    ensures |patched| == |packet| && ValidOuter(patched) && BodyStart(packet).Some? && BodyStart(patched) == BodyStart(packet)
    ensures i < BodyStart(packet).value ==> patched[i] == packet[i]
  {
    hide ValidOuter;
    var start := BodyStart(packet).value;
    if i < start {
      assert patched[..start][i] == packet[..start][i];
    }
  }

  /** Accepted material, as the requests find it. */
  lemma AcceptedMeans(m: Material)
    ensures Accepted(m) <==>
              && 0 < m.serverPort < 65536 && ValidOuter(m.authPacket) && ValidMacdfs(m.macdfs) && SixDigits(m.template)
              && Base64.ValidAlphabet(m.alphabet) && |m.packets| > 0
              && forall i :: 0 <= i < |m.packets| ==> Patch(m.packets[i], m.template, m.template, m.alphabet).Ok?
  {
    hide Patch, ValidOuter, ValidMacdfs, SixDigits;
    assert forall i :: 0 <= i < |m.packets| ==> m.packets[i] in m.packets;
    if m.packets != [] && Patch(m.packets[0], m.template, m.template, m.alphabet).Ok? {
      AlphabetWasUsed(m.packets[0], m.template, m.alphabet);
    }
  }

  /** An unusable port or authentication packet is reported as a missing session only if every template field is there. */
  lemma SessionFaultMeans(c: Captured)
    ensures SessionFault(c) <==>
              || |c.serverIp| == 0 || c.serverPort == Missing || c.authPacket == Missing
              || (|c.alphabet| > 0 && |c.template| > 0 && c.packets != Missing && c.macdfs != Missing
                  && (c.serverPort == Malformed || c.serverPort.value < 1 || c.serverPort.value > 65535
                      || c.authPacket == Malformed || |c.authPacket.value| == 0))
  {
  }
}
