/**
 * The client's connection as an object (agent/internal/wsclient/client.go): an incoming stream
 * that is consumed, an outgoing one that grows. Masks come from the random source `masks`; the
 * socket takes `socket(i)` bytes on its i-th write, and none means it is broken.
 */
module WsClient {
  import opened Basics
  import opened Frames
  import opened Messages

  const TWO63 := 0x8000_0000_0000_0000
  const TWO64 := 0x1_0000_0000_0000_0000

  /** int64 arithmetic: two's complement wrap-around. */
  function Wrap(x: int): int {
    (x + TWO63) % TWO64 - TWO63
  }

  /** `(length << 8) | value` on an int64; the shift has cleared the low byte, so OR is addition. */
  function ShiftIn(length: int, value: bv8): int {
    Wrap(length * 256) + value as int
  }

  /** A shift to the right by `k` bytes. */
  function ShiftRight(n: nat, k: nat): nat {
    if k == 0 then n else ShiftRight(n, k - 1) / 256
  }

  /** How often `x` wraps around. */
  function Turns(x: int): int {
    (x + TWO63) / TWO64
  }

  lemma WrapIs(x: int, k: int)
    requires -TWO63 <= x - k * TWO64 < TWO63
    ensures Wrap(x) == x - k * TWO64
  {
    assert x + TWO63 == k * TWO64 + (x - k * TWO64 + TWO63);
  }

  lemma WrapTurns(x: int)
    ensures Wrap(x) == x - Turns(x) * TWO64 && -TWO63 <= Wrap(x) < TWO63
  {
    assert x + TWO63 == Turns(x) * TWO64 + (x + TWO63) % TWO64;
  }

  lemma WrapShifted(y: int, k: int)
    ensures Wrap(y - k * TWO64) == Wrap(y)
  {
    WrapTurns(y);
    WrapIs(y - k * TWO64, Turns(y) - k);
  }

  /** A multiple of 256 leaves room for a byte below the next wrap. */
  lemma LowByteClear(x: int)
    ensures Wrap(x * 256) <= TWO63 - 256
  {
    WrapTurns(x * 256);
    assert Wrap(x * 256) == 256 * (x - Turns(x * 256) * 0x100_0000_0000_0000);
  }

  lemma WrapOnce(x: int, v: int)
    requires 0 <= v < 256
    ensures Wrap(Wrap(x) * 256) + v == Wrap(x * 256 + v)
  {
    WrapTurns(x);
    assert Wrap(x) * 256 == x * 256 - (Turns(x) * 256) * TWO64;
    WrapShifted(x * 256, Turns(x) * 256);
    WrapTurns(x * 256);
    LowByteClear(x);
    WrapIs(x * 256 + v, Turns(x * 256));
  }

  /** The accumulator after the first `i` bytes. */
  function Accumulated(extended: bytes, i: nat): int
    requires i <= |extended|
  {
    Wrap(127 * Pow256(i) + Number(extended[..i]))
  }

  lemma AccumulateStep(extended: bytes, i: nat)
    requires i < |extended|
    ensures ShiftIn(Accumulated(extended, i), extended[i]) == Accumulated(extended, i + 1)
  {
    NumberLast(extended[..i + 1], extended[..i], extended[i]);
    var n := 127 * Pow256(i) + Number(extended[..i]);
    Regroup(n, 127, Pow256(i), Number(extended[..i]), extended[i] as int);
    WrapOnce(n, extended[i] as int);
  }

  /** The accumulator starts at 127, and eight shifts push the 127 out of the 64 bits. */
  lemma StartIsShiftedOut(n: nat)
    requires n < TWO64
    ensures Wrap(127 * Pow256(8) + n) == Wrap(n)
    ensures n <= LARGEST ==> Wrap(n) == n
  {
    Pow256Values();
    WrapShifted(n, -127);
  }

  /** The pongs that answer `pings`, with the masks they are written with. */
  function Pongs(masks: nat -> Mask, from: nat, pings: seq<bytes>): bytes {
    if pings == [] then []
    else Pongs(masks, from, pings[..|pings| - 1]) + Print(PONG, masks(from + |pings| - 1), pings[|pings| - 1])
  }

  lemma PongsAppend(masks: nat -> Mask, from: nat, pings: seq<bytes>, ping: bytes)
    ensures Pongs(masks, from, pings + [ping]) == Pongs(masks, from, pings) + Print(PONG, masks(from + |pings|), ping)
  {
    assert (pings + [ping])[..|pings + [ping]| - 1] == pings;
  }

  lemma PongWritten(output: bytes, before: bytes, masks: nat -> Mask, from: nat, pings: seq<bytes>, ping: bytes,
                    frame: bytes)
    requires output == before + Pongs(masks, from, pings) + frame
    requires frame == Print(PONG, masks(from + |pings|), ping)
    ensures output == before + Pongs(masks, from, pings + [ping])
  {
    PongsAppend(masks, from, pings, ping);
  }

  /** The pieces WriteFrame puts on the wire make up the frame. */
  lemma PiecesOfPrint(opcode: bv8, mask: Mask, payload: bytes, header: bytes)
    requires header == [0x80 | opcode, 0x80 | ByteOf(ShortLength(|payload|))] + LongLength(|payload|)
    ensures header + mask + Masked(payload, mask) == Print(opcode, mask, payload)
  {
    Joined(header, mask, Masked(payload, mask));
  }

  /** What was put on the wire is the beginning of the data, or all of it. */
  ghost predicate BeginsWith(output: bytes, before: bytes, data: bytes) {
    exists k :: 0 <= k <= |data| && output == before + data[..k]
  }

  lemma HeaderBegins(output: bytes, before: bytes, header: bytes, body: bytes, count: nat)
    requires count <= |header| && output == before + header[..count]
    ensures BeginsWith(output, before, header + body)
  {
    assert (header + body)[..count] == header[..count];
  }

  lemma BodyBegins(output: bytes, before: bytes, header: bytes, body: bytes)
    requires BeginsWith(output, before + header, body)
    ensures BeginsWith(output, before, header + body)
  {
    var k :| 0 <= k <= |body| && output == before + header + body[..k];
    assert (header + body)[..|header| + k] == header + body[..k];
    Joined(before, header, body[..k]);
  }

  datatype ReadFrameResult = GotFrame(frame: Frame) | NoFrame(why: ReadError)

  datatype Outcome = Received(text: bytes) | Failed(why: Refusal) | WriteFailed

  // How the results of the methods answer to the functions that specify them.

  predicate LengthRead(l: Length, length: int, why: Option<ReadError>, all: bytes, left: bytes) {
    match l
    case NoLength(e) => why == Some(e)
    case Length(n, end) => why == None && length == n && end <= |all| && left == all[end..]
  }

  predicate FrameRead(p: Parsed, r: ReadFrameResult, left: bytes) {
    match p
    case Parsed(f, rest) => r == GotFrame(f) && left == rest
    case Broken(e) => r == NoFrame(e)
  }

  predicate MessageRead(read: Read, r: Outcome, left: bytes) {
    match r
    case Received(text) => read.Message? && read.text == text && read.rest == left
    case Failed(why) => read.Refused? && read.why == why
    case WriteFailed => true
  }

  class Connection {
    const maxBytes: nat
    const masks: nat -> Mask
    const socket: nat -> nat
    var input: bytes
    var output: bytes
    var frames: nat
    var calls: nat

    constructor (maxBytes: nat, masks: nat -> Mask, socket: nat -> nat, input: bytes)
      ensures this.maxBytes == maxBytes && this.masks == masks && this.socket == socket
      ensures this.input == input && output == [] && frames == 0 && calls == 0
    {
      this.maxBytes, this.masks, this.socket, this.input := maxBytes, masks, socket, input;
      output, frames, calls := [], 0, 0;
    }

    /** A socket that always takes at least a small frame's worth of bytes. */
    ghost predicate Healthy() {
      forall i :: 14 <= socket(i)
    }

    method ReadFull(n: nat) returns (data: Option<bytes>)
      modifies this`input
      ensures if n <= |old(input)| then data == Some(old(input)[..n]) && input == old(input)[n..]
              else data == None && input == []
    {
      if |input| < n {
        input := [];
        return None;
      }
      data := Some(input[..n]);
      input := input[n..];
    }

    /** The extended length after the two header bytes `head`. */
    method ReadLength(short: int, ghost head: bytes) returns (length: int, why: Option<ReadError>)
      requires |head| == 2 && (head[1] & 0x7f) as int == short
      modifies this`input
      ensures LengthRead(ParseLength(head + old(input)), length, why, head + old(input), input)
    {
      ghost var start := head + input;
      assert start[1] == head[1] && start[2..] == input;
      length, why := short, None;
      if length == 126 {
        var extended := ReadFull(2);
        if extended.None? {
          return 0, Some(Eof);
        }
        var e := extended.value;
        assert start[2..4] == e;
        TwoBytes(e);
        length := e[0] as int * 256 + e[1] as int;
      } else if length == 127 {
        var extended := ReadFull(8);
        if extended.None? {
          return 0, Some(Eof);
        }
        var e := extended.value;
        assert start[2..10] == e && start[2] == e[0];
        if e[0] & 0x80 != 0 {
          return 0, Some(InvalidLength);
        }
        length := Accumulate(e);
      }
    }

    method Accumulate(extended: bytes) returns (length: int)
      requires |extended| == 8 && extended[0] & 0x80 == 0
      ensures length == Number(extended)
    {
      length := 127;
      assert Accumulated(extended, 0) == 127;
      for i := 0 to 8
        invariant length == Accumulated(extended, i)
      {
        AccumulateStep(extended, i);
        length := ShiftIn(length, extended[i]);
      }
      assert extended[..8] == extended;
      EightBytes(extended);
      StartIsShiftedOut(Number(extended));
    }

    /** readFrame: what the parser finds at the head of the stream, which is consumed. */
    method ReadFrame() returns (r: ReadFrameResult)
      modifies this`input
      ensures FrameRead(ParseFrame(old(input), maxBytes), r, input)
    {
      ghost var start := input;
      var header := ReadFull(2);
      if header.None? {
        return NoFrame(Eof);
      }
      var h := header.value;
      assert start == h + input;
      var length, why := ReadLength((h[1] & 0x7f) as int, h);
      if why.Some? {
        return NoFrame(why.value);
      }
      r := ReadBody(h[0] & 0x80 != 0, h[0] & 0x0f, h[1] & 0x80 != 0, length, start, ParseLength(start).end);
    }

    method ReadBody(fin: bool, opcode: bv8, masked: bool, length: int, ghost start: bytes, ghost at: nat)
      returns (r: ReadFrameResult)
      requires 0 <= length && at <= |start| && input == start[at..]
      modifies this`input
      ensures FrameRead(ParseBody(start, fin, opcode, masked, length, at, maxBytes), r, input)
    {
      if length < 0 || length > maxBytes || length > LARGEST {
        return NoFrame(TooLong);
      }
      if Control(opcode) && (!fin || length > 125) {
        return NoFrame(InvalidControl);
      }
      var mask: Mask := [0, 0, 0, 0];
      if masked {
        var read := ReadFull(4);
        if read.None? {
          return NoFrame(Eof);
        }
        mask := read.value;
        assert mask == start[at..at + 4] && input == start[at + 4..];
      }
      ghost var body := if masked then at + 4 else at;
      var read := ReadFull(length);
      if read.None? {
        return NoFrame(Eof);
      }
      var payload := read.value;
      assert payload == start[body..body + length] && input == start[body + length..];
      if masked {
        payload := Masked(payload, mask);
      }
      r := GotFrame(Frame(fin, opcode, payload));
    }

    /** One call of the socket: it takes a prefix. */
    method Write(data: bytes) returns (count: nat)
      modifies this`output, this`calls
      ensures count == (if socket(old(calls)) < |data| then socket(old(calls)) else |data|)
      ensures output == old(output) + data[..count]
      ensures calls == old(calls) + 1
    {
      count := socket(calls);
      if |data| < count {
        count := |data|;
      }
      output := output + data[..count];
      calls := calls + 1;
    }

    method WriteAll(data: bytes) returns (ok: bool)
      modifies this`output, this`calls
      ensures ok ==> output == old(output) + data
      ensures BeginsWith(output, old(output), data)
      ensures Healthy() ==> ok
    {
      var left := data;
      ghost var sent := 0;
      while |left| > 0
        invariant 0 <= sent <= |data| && left == data[sent..]
        invariant output == old(output) + data[..sent]
        decreases |left|
      {
        var count := Write(left);
        assert data[..sent] + left[..count] == data[..sent + count];
        sent := sent + count;
        if count == 0 {
          assert BeginsWith(output, old(output), data);
          return false;
        }
        left := left[count..];
      }
      assert data[..sent] == data;
      assert BeginsWith(output, old(output), data);
      ok := true;
    }

    method BuildHeader(opcode: bv8, length: nat) returns (header: bytes)
      requires length <= LARGEST
      ensures header == [0x80 | opcode, 0x80 | ByteOf(ShortLength(length))] + LongLength(length)
    {
      header := [0x80 | opcode];
      MarkerBytes();
      if length < 126 {
        header := header + [0x80 | ByteOf(length)];
      } else if length <= 0xFFFF {
        header := header + [0x80 | 126];
        header := header + [ByteOf(length / 256 % 256)];
        header := header + [ByteOf(length % 256)];
        assert BigEndian(length, 2) == BigEndian(length / 256, 1) + [ByteOf(length % 256)];
        assert BigEndian(length / 256, 1) == BigEndian(length / 256 / 256, 0) + [ByteOf(length / 256 % 256)];
      } else {
        header := header + [0x80 | 127];
        ghost var start := header;
        for k := 0 to 8
          invariant header == start + BigEndian(ShiftRight(length, 8 - k), k)
        {
          var byte := ShiftRight(length, 7 - k);
          assert ShiftRight(length, 8 - k) == byte / 256;
          assert BigEndian(byte, k + 1) == BigEndian(byte / 256, k) + [ByteOf(byte % 256)];
          header := header + [ByteOf(byte % 256)];
        }
      }
    }

    /** Writes one frame. A short count stands for the error that a socket reports with it. */
    method WriteFrame(opcode: bv8, payload: bytes) returns (ok: bool)
      requires |payload| <= LARGEST
      modifies this`output, this`calls, this`frames
      ensures frames == old(frames) + 1
      ensures ok ==> output == old(output) + Print(opcode, masks(old(frames)), payload)
      ensures Healthy() ==> ok
      ensures BeginsWith(output, old(output), Print(opcode, masks(old(frames)), payload))
    {
      var mask := masks(frames);
      frames := frames + 1;
      var header := BuildHeader(opcode, |payload|);
      PiecesOfPrint(opcode, mask, payload, header);
      header := header + mask;
      Joined(output, header, Masked(payload, mask));
      ghost var before := output;
      var count := Write(header);
      HeaderBegins(output, before, header, Masked(payload, mask), count);
      if count < |header| {
        return false;
      }
      assert header[..count] == header;
      ok := WriteAll(Masked(payload, mask));
      BodyBegins(output, before, header, Masked(payload, mask));
    }

    method WriteMessage(payload: bytes) returns (ok: bool)
      requires |payload| <= LARGEST
      modifies this`output, this`calls, this`frames
      ensures |payload| > maxBytes ==> !ok && output == old(output)
      ensures ok ==> output == old(output) + Print(TEXT, masks(old(frames)), payload)
      ensures Healthy() && |payload| <= maxBytes ==> ok
    {
      if |payload| > maxBytes {
        return false;
      }
      ok := WriteFrame(TEXT, payload);
    }

    /** ReadMessage: what ReadStream says, with one pong per ping, in order, written on the way. */
    method ReadMessage() returns (r: Outcome)
      modifies this`input, this`output, this`calls, this`frames
      ensures MessageRead(ReadStream(old(input), maxBytes), r, input)
      ensures !r.WriteFailed? ==>
        output == old(output) + Pongs(masks, old(frames), ReadStream(old(input), maxBytes).pings)
      ensures r.WriteFailed? ==> !Healthy()
    {
      var buffer: bytes := [];
      var started := false;
      ghost var pings: seq<bytes> := [];
      ghost var whole := ReadStream(input, maxBytes);
      ContinuesFirst(input, maxBytes);
      while true
        invariant frames == old(frames) + |pings|
        invariant output == old(output) + Pongs(masks, old(frames), pings)
        invariant Continues(whole, Deframe(input, maxBytes), maxBytes, started, buffer, pings)
        decreases |input|
      {
        var turn := ReadTurn(whole, started, buffer, pings);
        match turn
        case Refuse(why) =>
          return Failed(why);
        case Finish(text) =>
          return Received(text);
        case Answer(ping) =>
          var ok := WritePong(ping, old(output), old(frames), pings);
          if !ok {
            return WriteFailed;
          }
          pings := pings + [ping];
        case Continue(s, b) =>
          started, buffer := s, b;
      }
    }

    /** One turn of the loop: the next frame and what it does to the message. */
    method ReadTurn(ghost whole: Read, started: bool, buffer: bytes, ghost pings: seq<bytes>) returns (turn: Turn)
      requires Continues(whole, Deframe(input, maxBytes), maxBytes, started, buffer, pings)
      modifies this`input
      ensures turn.Refuse? ==> whole == Refused(turn.why, pings)
      ensures turn.Finish? ==> whole == Message(turn.text, pings, input)
      ensures turn.Answer? ==> |turn.ping| <= LARGEST
      ensures turn.Answer? ==>
        Continues(whole, Deframe(input, maxBytes), maxBytes, started, buffer, pings + [turn.ping])
      ensures turn.Continue? ==> Continues(whole, Deframe(input, maxBytes), maxBytes, turn.started, turn.buffer, pings)
      ensures turn.Answer? || turn.Continue? ==> |input| < |old(input)|
    {
      ghost var incoming := Deframe(input, maxBytes);
      ContinuesStep(whole, incoming, maxBytes, started, buffer, pings);
      var read := NextFrame(incoming);
      if read.NoFrame? {
        return Refuse(BadFrame(read.why));
      }
      turn := HandleFrame(read.frame, started, buffer);
    }

    /** readFrame once more, for a stream already seen as `incoming`. */
    method NextFrame(ghost incoming: Incoming) returns (r: ReadFrameResult)
      requires incoming == Deframe(input, maxBytes)
      modifies this`input
      ensures r.NoFrame? ==> incoming == End(r.why)
      ensures r.GotFrame? ==> incoming == Next(r.frame, input, Deframe(input, maxBytes))
      ensures r.GotFrame? ==> |input| < |old(input)| && |r.frame.payload| <= LARGEST
    {
      DeframeStep(input, maxBytes);
      r := ReadFrame();
    }

    /** writeControl: the pong that answers `ping`, after those for `pings`. */
    method WritePong(ping: bytes, ghost before: bytes, ghost from: nat, ghost pings: seq<bytes>) returns (ok: bool)
      requires |ping| <= LARGEST
      requires output == before + Pongs(masks, from, pings) && frames == from + |pings|
      modifies this`output, this`calls, this`frames
      ensures frames == from + |pings| + 1
      ensures ok ==> output == before + Pongs(masks, from, pings + [ping])
      ensures Healthy() ==> ok
    {
      ghost var frame := Print(PONG, masks(frames), ping);
      ok := WriteFrame(PONG, ping);
      if ok {
        PongWritten(output, before, masks, from, pings, ping, frame);
      }
    }

    /** The switch of ReadMessage on one frame. */
    method HandleFrame(f: Frame, started: bool, buffer: bytes) returns (turn: Turn)
      ensures turn == TurnOn(f, maxBytes, started, buffer)
      ensures turn.Answer? ==> turn.ping == f.payload
    {
      if f.opcode == CLOSE {
        return Refuse(Closed);
      } else if f.opcode == PING {
        return Answer(f.payload);
      } else if f.opcode == PONG {
        return Continue(started, buffer);
      } else if f.opcode == TEXT {
        if started {
          return Refuse(UnexpectedText);
        }
        if |buffer| + |f.payload| > maxBytes {
          return Refuse(OverLimit);
        }
        var message := buffer + f.payload;
        return if f.fin then Finish(message) else Continue(true, message);
      } else if f.opcode == CONTINUATION {
        if !started {
          return Refuse(UnexpectedContinuation);
        }
        if |buffer| + |f.payload| > maxBytes {
          return Refuse(OverLimit);
        }
        var message := buffer + f.payload;
        return if f.fin then Finish(message) else Continue(true, message);
      }
      turn := Refuse(Unsupported);
    }
  }

  lemma TwoBytes(e: bytes)
    requires |e| == 2
    ensures Number(e) == e[0] as int * 256 + e[1] as int
  {
    var front := e[..1];
    assert front[..0] == [] && front[0] == e[0];
    assert Number(front) == e[0] as int;
  }

  /** What is still to be read, after `pings` have been answered, completes what the whole stream reads as. */
  predicate Continues(whole: Read, input: Incoming, max: nat, started: bool, buffer: bytes, pings: seq<bytes>) {
    var now := ReadFrom(input, max, started, buffer);
    whole == now.(pings := pings + now.pings)
  }

  lemma ContinuesFirst(input: bytes, max: nat)
    ensures Continues(ReadStream(input, max), Deframe(input, max), max, false, [], [])
  {
    var whole := ReadStream(input, max);
    assert [] + whole.pings == whole.pings;
  }

  lemma DeframeStep(input: bytes, max: nat)
    ensures ParseFrame(input, max).Broken? ==> Deframe(input, max) == End(ParseFrame(input, max).why)
    ensures ParseFrame(input, max).Parsed? ==>
      var f, rest := ParseFrame(input, max).frame, ParseFrame(input, max).rest;
      Deframe(input, max) == Next(f, rest, Deframe(rest, max)) && |rest| < |input| && Legal(f) && |f.payload| <= LARGEST
  {
    ParseConsumes(input, max);
  }

  /** One turn of the loop, on the level of frames. */
  lemma ContinuesStep(whole: Read, input: Incoming, max: nat, started: bool, buffer: bytes, pings: seq<bytes>)
    requires Continues(whole, input, max, started, buffer, pings)
    ensures input.End? ==> whole == Refused(BadFrame(input.why), pings)
    ensures input.Next? ==>
      var turn, more := TurnOn(input.frame, max, started, buffer), input.more;
      && (turn.Refuse? ==> whole == Refused(turn.why, pings))
      && (turn.Finish? ==> whole == Message(turn.text, pings, input.rest))
      && (turn.Answer? ==> Continues(whole, more, max, started, buffer, pings + [turn.ping]))
      && (turn.Continue? ==> Continues(whole, more, max, turn.started, turn.buffer, pings))
  {
    assert pings + [] == pings;
    if input.Next? {
      var later := ReadFrom(input.more, max, started, buffer);
      assert pings + ([input.frame.payload] + later.pings) == (pings + [input.frame.payload]) + later.pings;
    }
  }
}
