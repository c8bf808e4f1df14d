/**
 Reading length-prefixed frames from a connection that hands out its bytes in
 arbitrary pieces, may fail at any read, and may pass its deadline at any point.
 */
module FrameReader {
  import opened Wrappers
  import opened Bytes
  import Packet = CorePacket
  import Snappy = SnappyBlock

  // ---------------------------------------------------------------- connection

  /** What the next read meets: at most `extra + 1` bytes, a socket error or timeout, or a passed deadline. */
  datatype Step = Deliver(extra: nat) | Fail | Expired

  predicate Clean(schedule: seq<Step>) {
    forall s <- schedule :: s.Deliver?
  }

  /** A socket: the bytes the peer has sent or will send, and how the coming reads go. */
  class Connection {
    var stream: seq<byte>
    var schedule: seq<Step>

    constructor (stream: seq<byte>, schedule: seq<Step>)
      ensures this.stream == stream && this.schedule == schedule
    {
      this.stream := stream;
      this.schedule := schedule;
    }

    /** deadline - time.monotonic() <= 0; a passed deadline stays passed. */
    predicate DeadlinePassed()
      reads this
    {
      schedule != [] && schedule[0].Expired?
    }

    /** recv: None for an error, an empty chunk when the peer has closed. */
    method Receive(limit: nat) returns (chunk: Option<seq<byte>>)
      requires limit > 0
      modifies this
      ensures chunk.None? ==> stream == old(stream) && !Clean(old(schedule))
      ensures chunk.Some? ==> old(stream) == chunk.value + stream && |chunk.value| <= limit
      ensures chunk.Some? && old(stream) != [] ==> chunk.value != []
      ensures Clean(old(schedule)) ==> Clean(schedule)
    {
      var count := limit;
      if schedule != [] {
        var step := schedule[0];
        if !step.Deliver? {
          assert step in schedule;
          schedule := schedule[1..];
          return None;
        }
        schedule := schedule[1..];
        count := if step.extra + 1 < limit then step.extra + 1 else limit;
      }
      if count > |stream| {
        count := |stream|;
      }
      chunk := Some(stream[..count]);
      stream := stream[count..];
    }
  }

  /** _read_exact */
  method ReadExact(connection: Connection, length: nat) returns (r: Result<seq<byte>, ErrorCode>)
    modifies connection
    ensures r.Ok? ==> |r.value| == length && old(connection.stream) == r.value + connection.stream
    ensures Clean(old(connection.schedule)) ==>
              && Clean(connection.schedule)
              && r == (if |old(connection.stream)| >= length then Ok(old(connection.stream)[..length]) else Err(ResponseInvalid))
    ensures r.Err? ==> r.error == ResponseTimeout || r.error == ResponseInvalid
    ensures r == Err(ResponseTimeout) ==> connection.DeadlinePassed() || connection.stream == old(connection.stream)
  {
    var chunks: seq<byte> := [];
    while |chunks| < length
      invariant |chunks| <= length
      invariant old(connection.stream) == chunks + connection.stream
      invariant Clean(old(connection.schedule)) ==> Clean(connection.schedule)
      decreases length - |chunks|
    {
      if connection.DeadlinePassed() {
        assert connection.schedule[0] in connection.schedule;
        return Err(ResponseTimeout);
      }
      var chunk := connection.Receive(length - |chunks|);
      if chunk.None? {
        return Err(if chunks != [] then ResponseInvalid else ResponseTimeout);
      }
      if chunk.value == [] {
        return Err(ResponseInvalid);
      }
      chunks := chunks + chunk.value;
    }
    return Ok(chunks);
  }

  // -------------------------------------------------------------------- frames

  /** A header and a body of the declared length. */
  predicate ValidFrame(frame: seq<byte>) {
    && |frame| >= Packet.HEADER
    && Packet.ValidHeader(frame[..Packet.HEADER])
    && Packet.DeclaredLength(frame[..Packet.HEADER]) == |frame| - Packet.HEADER <= MAX_PAYLOAD
  }

  /** A frame with a body is what the packet validator accepts. */
  lemma NonEmptyFramesAreValidPackets(frame: seq<byte>)
    ensures Packet.ValidOuter(frame) <==> ValidFrame(frame) && |frame| > Packet.HEADER
  {
  }

  /** The length of the whole frame at the start of the stream. */
  function FrameLength(stream: seq<byte>): (n: Option<nat>)
    ensures n.Some? ==> Packet.HEADER <= n.value <= |stream|
  {
    if |stream| < Packet.HEADER || !Packet.ValidHeader(stream[..Packet.HEADER]) then None
    else
      var length := Packet.DeclaredLength(stream[..Packet.HEADER]);
      if length > MAX_PAYLOAD || Packet.HEADER + length > |stream| then None else Some(Packet.HEADER + length)
  }

  /** The whole frames of a stream, up to the first byte that does not start one. */
  function FramesOf(stream: seq<byte>): seq<seq<byte>> {
    match FrameLength(stream)
    case None => []
    case Some(n) => [stream[..n]] + FramesOf(stream[n..])
  }

  function Lower(c: byte): byte {
    if 65 <= c <= 90 then c + 32 else c
  }

  /** s.lower() in {b"cv2", b"cv3"} */
  predicate CurveName(s: seq<byte>) {
    |s| == 3 && Lower(s[0]) == 99 && Lower(s[1]) == 118 && (s[2] == 50 || s[2] == 51)
  }

  /** s[low:high], clipped to the sequence */
  function Slice(s: seq<byte>, low: nat, high: nat): seq<byte>
    requires low <= high
  {
    s[(if low < |s| then low else |s|)..(if high < |s| then high else |s|)]
  }

  /** _is_curve_frame */
  predicate IsCurveFrame(frame: seq<byte>) {
    var payload := Slice(frame, 13, 13 + |frame|);
    |payload| >= 10
    && var headLength := LittleEndian(payload[..2]);
    24 <= headLength <= |payload|
    && var headType := LittleEndian(payload[6..10]);
    headType / 0x1000_0000 == 0
    && var kind := (headType / 0x1000) % 16;
    var raw := payload[headLength..];
    match kind
    case 1 =>
      (match Snappy.DecodeSnappy(raw)
       case Ok(body) => CurveName(Slice(body, 0, 3)) || CurveName(Slice(body, 4, 7))
       case Err(_) => false)
    case 3 => false
    case _ => CurveName(Slice(raw, 0, 3)) || CurveName(Slice(raw, 4, 7))
  }

  /** The curve frames still to come after `frame`, when a number of them ends the reading. */
  function Left(curves: Option<nat>, frame: seq<byte>): Option<nat>
    requires curves.Some? ==> curves.value > 0
  {
    if curves.Some? && IsCurveFrame(frame) then Some(curves.value - 1) else curves
  }

  /** The frames that may be read: at most `most`, and none after the last curve frame asked for. */
  function Limit(frames: seq<seq<byte>>, most: int, curves: Option<nat>): (fs: seq<seq<byte>>)
    requires curves.Some? ==> curves.value > 0
    ensures |fs| <= |frames| && fs == frames[..|fs|]
    ensures |fs| <= if most > 0 then most else 0
    decreases |frames|
  {
    if most <= 0 || frames == [] then []
    else
      var left := Left(curves, frames[0]);
      [frames[0]] + if left == Some(0) then [] else Limit(frames[1..], most - 1, left)
  }

  /** What reading returns when nothing interrupts it: it depends on the bytes alone. */
  function CleanRead(stream: seq<byte>, most: int, curves: Option<nat>): Result<seq<seq<byte>>, ErrorCode>
    requires curves.Some? ==> curves.value > 0
    decreases |stream|
  {
    if most <= 0 then Ok([])
    else match FrameLength(stream)
      case None => Err(ResponseInvalid)
      case Some(n) =>
        var left := Left(curves, stream[..n]);
        if left == Some(0) then Ok([stream[..n]])
        else Prepend([stream[..n]], CleanRead(stream[n..], most - 1, left))
  }

  function Prepend(frames: seq<seq<byte>>, r: Result<seq<seq<byte>>, ErrorCode>): Result<seq<seq<byte>>, ErrorCode> {
    match r
    case Err(e) => Err(e)
    case Ok(rest) => Ok(frames + rest)
  }

  function Concatenate(frames: seq<seq<byte>>): seq<byte> {
    if frames == [] then [] else frames[0] + Concatenate(frames[1..])
  }

  /** One frame; None when the header timed out before its first byte or its deadline passed. */
  method ReadFrame(connection: Connection) returns (r: Result<Option<seq<byte>>, ErrorCode>)
    modifies connection
    ensures r.Ok? && r.value.Some? ==>
              && FrameLength(old(connection.stream)) == Some(|r.value.value|)
              && old(connection.stream) == r.value.value + connection.stream
    ensures r.Ok? && r.value.None? ==> connection.DeadlinePassed() || connection.stream == old(connection.stream)
    ensures r.Err? ==> r.error == ResponseInvalid
    ensures Clean(old(connection.schedule)) ==>
              && Clean(connection.schedule)
              && match FrameLength(old(connection.stream))
                 case None => r.Err?
                 case Some(_) => r.Ok? && r.value.Some?
  {
    ghost var stream := connection.stream;
    var header := ReadExact(connection, Packet.HEADER);
    if header == Err(ResponseTimeout) {
      return Ok(None);
    }
    if header.Err? {
      return Err(ResponseInvalid);
    }
    assert header.value == stream[..Packet.HEADER];
    if !Packet.ValidHeader(header.value) {
      return Err(ResponseInvalid);
    }
    var length := Packet.DeclaredLength(header.value);
    if length > MAX_PAYLOAD {
      return Err(ResponseInvalid);
    }
    ghost var afterHeader := connection.stream;
    var body := ReadExact(connection, length);
    if body.Err? {
      return Err(ResponseInvalid);
    }
    assert stream == (header.value + body.value) + connection.stream;
    return Ok(Some(header.value + body.value));
  }

  /** `frames` have been read of `start`, `rest` is still to come, and `left` curve frames may follow. */
  ghost predicate Progress(start: seq<byte>, rest: seq<byte>, frames: seq<seq<byte>>, most: int, curves: Option<nat>, left: Option<nat>)
    requires curves != Some(0) && left != Some(0)
  {
    && start == Concatenate(frames) + rest
    && Limit(FramesOf(start), most, curves) == frames + Limit(FramesOf(rest), most - |frames|, left)
    && CleanRead(start, most, curves) == Prepend(frames, CleanRead(rest, most - |frames|, left))
  }

  /** The reading is over after `frames`. */
  ghost predicate Finished(start: seq<byte>, rest: seq<byte>, frames: seq<seq<byte>>, most: int, curves: Option<nat>)
    requires curves != Some(0)
  {
    && start == Concatenate(frames) + rest
    && Limit(FramesOf(start), most, curves) == frames
    && CleanRead(start, most, curves) == Ok(frames)
  }

  lemma NothingRead(start: seq<byte>, most: int, curves: Option<nat>)
    requires curves != Some(0)
    ensures Progress(start, start, [], most, curves, curves)
  {
    hide Limit, CleanRead, FramesOf;
    var clean := CleanRead(start, most, curves);
    assert clean.Ok? ==> [] + clean.value == clean.value;
  }

  lemma LimitOfNext(frames: seq<seq<byte>>, most: int, was: Option<nat>, left: Option<nat>)
    requires was != Some(0) && most > 0 && frames != [] && left == Left(was, frames[0])
    ensures Limit(frames, most, was) == [frames[0]] + if left == Some(0) then [] else Limit(frames[1..], most - 1, left)
  {
    hide IsCurveFrame;
  }

  lemma FramesOfNext(before: seq<byte>, n: nat)
    requires n <= |before| && FrameLength(before) == Some(n)
    ensures FramesOf(before) == [before[..n]] + FramesOf(before[n..])
  {
    hide FrameLength;
  }

  lemma CleanReadNext(before: seq<byte>, n: nat, most: int, was: Option<nat>, left: Option<nat>)
    requires was != Some(0) && most > 0 && n <= |before| && FrameLength(before) == Some(n)
    requires left == Left(was, before[..n])
    ensures CleanRead(before, most, was)
         == if left == Some(0) then Ok([before[..n]]) else Prepend([before[..n]], CleanRead(before[n..], most - 1, left))
  {
    hide FrameLength, IsCurveFrame;
  }

  lemma PrependTwice(frames: seq<seq<byte>>, frame: seq<byte>, r: Result<seq<seq<byte>>, ErrorCode>)
    ensures Prepend(frames, Prepend([frame], r)) == Prepend(frames + [frame], r)
  {
    if r.Ok? {
      assert frames + ([frame] + r.value) == (frames + [frame]) + r.value;
    }
  }

  lemma {:induction false} ConcatenateNext(frames: seq<seq<byte>>, frame: seq<byte>)
    ensures Concatenate(frames + [frame]) == Concatenate(frames) + frame
  {
    if frames != [] {
      ConcatenateNext(frames[1..], frame);
      assert (frames + [frame])[1..] == frames[1..] + [frame];
    }
  }

  /** What one more frame means for the frames allowed and for an uninterrupted reading. */
  lemma FrameRead(start: seq<byte>, before: seq<byte>, frames: seq<seq<byte>>, n: nat, most: int, curves: Option<nat>,
      was: Option<nat>, left: Option<nat>)
    requires curves != Some(0) && was != Some(0) && most > |frames|
    requires n <= |before| && FrameLength(before) == Some(n) && left == Left(was, before[..n])
    requires Progress(start, before, frames, most, curves, was)
    ensures if left == Some(0) then Finished(start, before[n..], frames + [before[..n]], most, curves)
            else Progress(start, before[n..], frames + [before[..n]], most, curves, left)
  {
    hide IsCurveFrame, FrameLength, Limit, FramesOf, CleanRead, Concatenate;
    var frame := before[..n];
    FramesOfNext(before, n);
    var fs := FramesOf(before);
    assert fs[0] == frame && fs[1..] == FramesOf(before[n..]);
    LimitOfNext(fs, most - |frames|, was, left);
    CleanReadNext(before, n, most - |frames|, was, left);
    ConcatenateNext(frames, frame);
    assert before == frame + before[n..];
    if left != Some(0) {
      PrependTwice(frames, frame, CleanRead(before[n..], most - |frames| - 1, left));
    }
  }

  lemma FinishedMeans(start: seq<byte>, rest: seq<byte>, frames: seq<seq<byte>>, most: int, curves: Option<nat>)
    requires curves != Some(0) && Finished(start, rest, frames, most, curves)
    ensures start == Concatenate(frames) + rest && frames <= Limit(FramesOf(start), most, curves)
    ensures CleanRead(start, most, curves) == Ok(frames)
  {
    hide FramesOf, Limit, CleanRead, Concatenate;
  }

  lemma ProgressMeans(start: seq<byte>, rest: seq<byte>, frames: seq<seq<byte>>, most: int, curves: Option<nat>, left: Option<nat>)
    requires curves != Some(0) && left != Some(0) && Progress(start, rest, frames, most, curves, left)
    ensures start == Concatenate(frames) + rest && frames <= Limit(FramesOf(start), most, curves)
    ensures |frames| >= most ==> CleanRead(start, most, curves) == Ok(frames)
  {
    hide FramesOf, Limit, CleanRead, Concatenate;
    if |frames| >= most {
      NothingMoreToRead(rest, most - |frames|, left);
      assert frames + [] == frames;
    }
  }

  lemma NothingMoreToRead(rest: seq<byte>, most: int, left: Option<nat>)
    requires left != Some(0) && most <= 0
    ensures CleanRead(rest, most, left) == Ok([])
  {
  }

  /** Without a whole frame to read an uninterrupted reading fails. */
  lemma NoWholeFrame(start: seq<byte>, rest: seq<byte>, frames: seq<seq<byte>>, most: int, curves: Option<nat>, left: Option<nat>)
    requires curves != Some(0) && left != Some(0) && most > |frames|
    requires Progress(start, rest, frames, most, curves, left)
    ensures FrameLength(rest) == None ==> CleanRead(start, most, curves) == Err(ResponseInvalid)
  {
    hide FrameLength, FramesOf, Limit, Concatenate;
  }

  /** _read_frames; the time limits act through the connection's schedule. */
  method ReadFrames(connection: Connection, most: int, curves: Option<nat>) returns (r: Result<seq<seq<byte>>, ErrorCode>)
    modifies connection
    ensures r == Err(ValueError) <==> curves == Some(0)
    ensures curves != Some(0) && r.Ok? ==> r.value <= Limit(FramesOf(old(connection.stream)), most, curves)
    ensures curves != Some(0) && r.Ok? ==>
              connection.DeadlinePassed() || old(connection.stream) == Concatenate(r.value) + connection.stream
    ensures curves != Some(0) && Clean(old(connection.schedule)) ==> r == CleanRead(old(connection.stream), most, curves)
    ensures r == Err(ResponseTimeout) ==> connection.DeadlinePassed() || connection.stream == old(connection.stream)
  {
    hide IsCurveFrame, FrameLength, Left, Limit, FramesOf, CleanRead, Concatenate, Progress, Finished, Clean;
    if curves == Some(0) {
      return Err(ValueError);
    }
    var frames: seq<seq<byte>> := [];
    var left := curves;
    ghost var start := connection.stream;
    ghost var clean := Clean(connection.schedule);
    ghost var rest := start;
    NothingRead(start, most, curves);
    while |frames| < most
      invariant rest == connection.stream
      invariant left != Some(0) && Progress(start, rest, frames, most, curves, left)
      invariant clean ==> Clean(connection.schedule)
      invariant frames == [] ==> connection.stream == start
      decreases most - |frames|
    {
      var next := ReadFrame(connection);
      if next.Err? {
        NoWholeFrame(start, rest, frames, most, curves, left);
        return Err(ResponseInvalid);
      }
      if next.value.None? {
        if frames == [] {
          return Err(ResponseTimeout);
        }
        break;
      }
      var frame := next.value.value;
      assert rest[..|frame|] == frame && rest[|frame|..] == connection.stream;
      FrameRead(start, rest, frames, |frame|, most, curves, left, Left(left, frame));
      left := Left(left, frame);
      frames := frames + [frame];
      rest := connection.stream;
      if left == Some(0) {
        FinishedMeans(start, connection.stream, frames, most, curves);
        return Ok(frames);
      }
    }
    ProgressMeans(start, rest, frames, most, curves, left);
    return Ok(frames);
  }

  /** Every frame read is whole, and together they are the start of the stream. */
  lemma {:induction false} FramesAreWhole(stream: seq<byte>)
    ensures forall f <- FramesOf(stream) :: ValidFrame(f)
    ensures Concatenate(FramesOf(stream)) <= stream
    decreases |stream|
  {
    hide Packet.ValidHeader, Packet.DeclaredLength;
    var n := FrameLength(stream);
    if n.Some? {
      var frame, rest := stream[..n.value], stream[n.value..];
      FramesAreWhole(rest);
      assert frame[..Packet.HEADER] == stream[..Packet.HEADER];
      assert FramesOf(stream)[1..] == FramesOf(rest);
      assert stream == frame + rest;
    }
  }

  lemma SentFrameIsRead(frame: seq<byte>, rest: seq<byte>)
    requires ValidFrame(frame)
    ensures FrameLength(frame + rest) == Some(|frame|)
  {
    hide Packet.ValidHeader, Packet.DeclaredLength;
    assert (frame + rest)[..Packet.HEADER] == frame[..Packet.HEADER];
  }

  /** Reading undoes sending: whatever whole frames are sent are the first frames read. */
  lemma {:induction false} FramesRoundTrip(frames: seq<seq<byte>>, rest: seq<byte>)
    requires forall f <- frames :: ValidFrame(f)
    ensures FramesOf(Concatenate(frames) + rest) == frames + FramesOf(rest)
    decreases |frames|
  {
    hide FrameLength, ValidFrame, FramesOf;
    if frames == [] {
      assert Concatenate(frames) + rest == rest;
    } else {
      var frame, tail := frames[0], Concatenate(frames[1..]) + rest;
      assert frame in frames;
      FramesRoundTrip(frames[1..], rest);
      assert Concatenate(frames) + rest == frame + tail;
      SentFrameIsRead(frame, tail);
      FramesOfNext(frame + tail, |frame|);
      assert (frame + tail)[|frame|..] == tail;
      assert frames + FramesOf(rest) == [frame] + (frames[1..] + FramesOf(rest));
    }
  }

  // ------------------------------------------------------------ in plain bytes

  /** "cv2" or "cv3", in any case, at position `at`. */
  predicate NamesCurve(s: seq<byte>, at: nat) {
    && at + 3 <= |s|
    && (s[at] == 'c' as int || s[at] == 'C' as int) && (s[at + 1] == 'v' as int || s[at + 1] == 'V' as int)
    && (s[at + 2] == '2' as int || s[at + 2] == '3' as int)
  }

  lemma NameMeans(s: seq<byte>, at: nat)
    ensures CurveName(Slice(s, at, at + 3)) <==> NamesCurve(s, at)
  {
    var name := Slice(s, at, at + 3);
    if at + 3 <= |s| {
      assert name[0] == s[at] && name[1] == s[at + 1] && name[2] == s[at + 2];
    }
  }

  /** The head length in the first two bytes, and the nibbles of the type word that are looked at. */
  lemma HeadMeans(payload: seq<byte>)
    requires |payload| >= 10
    ensures LittleEndian(payload[..2]) == payload[0] + 256 * (payload[1] as nat)
    ensures LittleEndian(payload[6..10]) / 0x1000_0000 == 0 <==> payload[9] < 16
    ensures LittleEndian(payload[6..10]) / 0x1000 % 16 == payload[7] / 16
  {
    var head, word := payload[..2], payload[6..10];
    assert head[1..][1..] == [] && LittleEndian(head[1..]) == payload[1];
    assert word[1..][1..] == word[2..] && word[2..][1..] == word[3..] && word[3..][1..] == [];
    var v3 := LittleEndian(word[3..]);
    assert v3 == payload[9];
    var v2 := LittleEndian(word[2..]);
    assert v2 == payload[8] + 256 * v3;
    var v1 := LittleEndian(word[1..]);
    assert v1 == payload[7] + 256 * v2;
    Nibbles(payload[6], payload[7], payload[8], payload[9], payload[6] + 256 * v1);
  }

  lemma Nibbles(a: byte, b: byte, c: byte, d: byte, word: nat)
    requires word == a + 256 * (b + 256 * (c + 256 * d))
    ensures word / 0x1000_0000 == 0 <==> d < 16
    ensures word / 0x1000 % 16 == b / 16
  {
    var high := c + 256 * d;
    assert word == 4096 * (b / 16 + 16 * high) + (a + 256 * (b % 16));
    assert word / 0x1000 == b / 16 + 16 * high;
    assert (b / 16 + 16 * high) % 16 == b / 16;
  }

  /** A curve frame names a curve in its body, raw or Snappy, at the start or after four bytes. */
  lemma CurveFrameMeans(frame: seq<byte>)
    requires |frame| >= 13
    ensures
      var payload := frame[13..];
      IsCurveFrame(frame) <==>
        && |payload| >= 10 && payload[9] < 16
        && (var headLength := payload[0] + 256 * (payload[1] as nat);
            && 24 <= headLength <= |payload|
            && (var kind, raw := payload[7] / 16, payload[headLength..];
                if kind == 1 then
                  var body := Snappy.DecodeSnappy(raw);
                  body.Ok? && (NamesCurve(body.value, 0) || NamesCurve(body.value, 4))
                else kind != 3 && (NamesCurve(raw, 0) || NamesCurve(raw, 4))))
  {
    hide NamesCurve, CurveName, LittleEndian, Snappy.DecodeSnappy;
    var payload := frame[13..];
    assert Slice(frame, 13, 13 + |frame|) == payload;
    if |payload| >= 10 {
      HeadMeans(payload);
      var headLength := payload[0] + 256 * (payload[1] as nat);
      if 24 <= headLength <= |payload| {
        var raw := payload[headLength..];
        NameMeans(raw, 0);
        NameMeans(raw, 4);
        var body := Snappy.DecodeSnappy(raw);
        if body.Ok? {
          NameMeans(body.value, 0);
          NameMeans(body.value, 4);
        }
      }
    }
  }

  function CurveFrames(frames: seq<seq<byte>>): nat {
    if frames == [] then 0 else (if IsCurveFrame(frames[0]) then 1 else 0) + CurveFrames(frames[1..])
  }

  /** Reading stops with the last curve frame asked for, with the most frames allowed, or with the last frame there is. */
  lemma {:induction false} LimitMeans(frames: seq<seq<byte>>, most: int, curves: Option<nat>)
    requires curves != Some(0)
    ensures
      var fs := Limit(frames, most, curves);
      && fs <= frames
      && (curves.Some? ==> CurveFrames(fs) <= curves.value)
      && (curves.Some? && CurveFrames(fs) == curves.value ==> IsCurveFrame(fs[|fs| - 1]))
      && (|fs| == |frames| || |fs| == (if most > 0 then most else 0) || (curves.Some? && CurveFrames(fs) == curves.value))
    decreases |frames|
  {
    hide IsCurveFrame;
    if most > 0 && frames != [] {
      var left := Left(curves, frames[0]);
      var fs := Limit(frames, most, curves);
      if left != Some(0) {
        LimitMeans(frames[1..], most - 1, left);
        assert fs[1..] == Limit(frames[1..], most - 1, left);
      } else {
        assert fs == [frames[0]] && fs[1..] == [];
      }
    }
  }
}
