/**
 * Reassembling text messages from frames (section 5.4 of RFC 6455) and answering pings
 * (section 5.5), as ReadMessage does it.
 */
module Messages {
  import opened Basics
  import opened Frames

  datatype Refusal =
    | BadFrame(why: ReadError)
    | Closed
    | UnexpectedText
    | UnexpectedContinuation
    | Unsupported
    | OverLimit

  const CONTINUATION: bv8 := 0
  const TEXT: bv8 := 1
  const CLOSE: bv8 := 8
  const PING: bv8 := 9
  const PONG: bv8 := 10

  /** The outcome of a read, the pings it answered, and, for a message, what is left of the stream. */
  datatype Read =
    | Message(text: bytes, pings: seq<bytes>, rest: bytes)
    | Refused(why: Refusal, pings: seq<bytes>)

  function AfterPing(payload: bytes, r: Read): Read {
    r.(pings := [payload] + r.pings)
  }

  /** A stream as the frames it holds, up to the first thing that is not a frame. */
  datatype Incoming = End(why: ReadError) | Next(frame: Frame, rest: bytes, more: Incoming)

  function Deframe(input: bytes, max: nat): Incoming
    decreases |input|
  {
    match ParseFrame(input, max)
    case Broken(why) => End(why)
    case Parsed(f, rest) =>
      ParseConsumes(input, max);
      Next(f, rest, Deframe(rest, max))
  }

  /** What one frame makes the reader do: give up, return, answer a ping, or go on. */
  datatype Turn =
    | Refuse(why: Refusal)
    | Finish(text: bytes)
    | Answer(ping: bytes)
    | Continue(started: bool, buffer: bytes)

  function TurnOn(f: Frame, max: nat, started: bool, buffer: bytes): Turn {
    if f.opcode == CLOSE then Refuse(Closed)
    else if f.opcode == PING then Answer(f.payload)
    else if f.opcode == PONG then Continue(started, buffer)
    else if f.opcode != TEXT && f.opcode != CONTINUATION then Refuse(Unsupported)
    else if f.opcode == TEXT && started then Refuse(UnexpectedText)
    else if f.opcode == CONTINUATION && !started then Refuse(UnexpectedContinuation)
    else if |buffer| + |f.payload| > max then Refuse(OverLimit)
    else if f.fin then Finish(buffer + f.payload)
    else Continue(true, buffer + f.payload)
  }

  /** The loop of ReadMessage. */
  function ReadFrom(input: Incoming, max: nat, started: bool, buffer: bytes): Read {
    match input
    case End(why) => Refused(BadFrame(why), [])
    case Next(f, rest, more) =>
      match TurnOn(f, max, started, buffer)
      case Refuse(why) => Refused(why, [])
      case Finish(text) => Message(text, [], rest)
      case Answer(ping) => AfterPing(ping, ReadFrom(more, max, started, buffer))
      case Continue(s, b) => ReadFrom(more, max, s, b)
  }

  function ReadStream(input: bytes, max: nat): Read {
    ReadFrom(Deframe(input, max), max, false, [])
  }

  // The same on the level of frames.

  predicate IsData(f: Frame) {
    f.opcode == TEXT || f.opcode == CONTINUATION
  }

  predicate IsPingOrPong(f: Frame) {
    f.opcode == PING || f.opcode == PONG
  }

  /** The text that a list of frames carries. */
  function Text(fs: seq<Frame>): bytes {
    if fs == [] then [] else (if IsData(fs[0]) then fs[0].payload else []) + Text(fs[1..])
  }

  function Pings(fs: seq<Frame>): seq<bytes> {
    if fs == [] then [] else (if fs[0].opcode == PING then [fs[0].payload] else []) + Pings(fs[1..])
  }

  /** Data frame `i` has the opcode its position asks for: text for the first one, continuation after it. */
  predicate Ordered(fs: seq<Frame>, i: nat, started: bool)
    requires i < |fs|
  {
    IsData(fs[i]) ==> (fs[i].opcode == TEXT <==> !started && forall j :: 0 <= j < i ==> !IsData(fs[j]))
  }

  /** Frames that leave a message open: pings, pongs and well-ordered data frames that are not final. */
  predicate Open(fs: seq<Frame>, started: bool) {
    forall i :: 0 <= i < |fs| ==>
      Ordered(fs, i, started) && (IsPingOrPong(fs[i]) || (IsData(fs[i]) && !fs[i].fin))
  }

  /** `fs` is a way to send one text message: fragments in order, the last one final, pings and pongs in between. */
  predicate SplitFrom(fs: seq<Frame>, started: bool) {
    && fs != [] && Open(fs[..|fs| - 1], started)
    && IsData(fs[|fs| - 1]) && fs[|fs| - 1].fin && Ordered(fs, |fs| - 1, started)
  }

  predicate Split(fs: seq<Frame>) {
    SplitFrom(fs, false)
  }

  /** A frame with the mask it is sent with, if any. */
  datatype Sent = Sent(frame: Frame, mask: Option<Mask>)

  function FramesOf(ss: seq<Sent>): seq<Frame> {
    seq(|ss|, i requires 0 <= i < |ss| => ss[i].frame)
  }

  function Stream(ss: seq<Sent>): bytes {
    if ss == [] then [] else Encode(ss[0].frame, ss[0].mask) + Stream(ss[1..])
  }

  predicate Sendable(ss: seq<Sent>, max: nat) {
    forall i :: 0 <= i < |ss| ==> Legal(ss[i].frame) && |ss[i].frame.payload| <= max && |ss[i].frame.payload| <= LARGEST
  }

  predicate HasData(fs: seq<Frame>) {
    exists i :: 0 <= i < |fs| && IsData(fs[i])
  }

  lemma DeframeEncoded(f: Frame, mask: Option<Mask>, rest: bytes, max: nat)
    requires Legal(f) && |f.payload| <= max && |f.payload| <= LARGEST
    ensures Deframe(Encode(f, mask) + rest, max) == Next(f, rest, Deframe(rest, max))
  {
    ParseOfEncode(f, mask, rest, max);
  }

  lemma FirstOfStream(ss: seq<Sent>, tail: bytes)
    requires ss != []
    ensures Stream(ss) + tail == Encode(ss[0].frame, ss[0].mask) + (Stream(ss[1..]) + tail)
  {
    Joined(Encode(ss[0].frame, ss[0].mask), Stream(ss[1..]), tail);
  }

  lemma FramesTail(ss: seq<Sent>, max: nat)
    requires ss != [] && Sendable(ss, max)
    ensures FramesOf(ss)[1..] == FramesOf(ss[1..]) && Sendable(ss[1..], max)
  {
  }

  lemma StreamStep(ss: seq<Sent>, tail: bytes, max: nat)
    requires ss != [] && Sendable(ss, max)
    ensures Deframe(Stream(ss) + tail, max)
      == Next(ss[0].frame, Stream(ss[1..]) + tail, Deframe(Stream(ss[1..]) + tail, max))
    ensures FramesOf(ss)[1..] == FramesOf(ss[1..]) && Sendable(ss[1..], max)
  {
    FirstOfStream(ss, tail);
    FramesTail(ss, max);
    DeframeEncoded(ss[0].frame, ss[0].mask, Stream(ss[1..]) + tail, max);
  }

  lemma OrderedTail(fs: seq<Frame>, i: nat, started: bool)
    requires fs != [] && i < |fs| - 1
    ensures Ordered(fs[1..], i, started || IsData(fs[0])) <==> Ordered(fs, i + 1, started)
  {
    assert forall j :: 0 <= j < |fs| - 1 ==> fs[1..][j] == fs[j + 1];
    if forall j :: 0 <= j < i ==> !IsData(fs[1..][j]) {
      forall j | 1 <= j < i + 1 ensures !IsData(fs[j]) {
        assert fs[j] == fs[1..][j - 1];
      }
    }
  }

  lemma OpenTail(fs: seq<Frame>, started: bool)
    requires fs != []
    ensures Open(fs, started) <==>
      Open(fs[1..], started || IsData(fs[0]))
      && (IsPingOrPong(fs[0]) || (IsData(fs[0]) && !fs[0].fin && (fs[0].opcode == TEXT <==> !started)))
  {
    var tail, later := fs[1..], started || IsData(fs[0]);
    forall i | 0 <= i < |tail|
      ensures tail[i] == fs[i + 1] && (Ordered(tail, i, later) <==> Ordered(fs, i + 1, started))
    {
      OrderedTail(fs, i, started);
    }
    if Open(tail, later) {
      forall i | 1 <= i < |fs|
        ensures Ordered(fs, i, started) ==> (IsPingOrPong(fs[i]) || (IsData(fs[i]) && !fs[i].fin))
      {
        assert fs[i] == tail[i - 1];
      }
      forall i | 1 <= i < |fs| ensures Ordered(fs, i, started) {
        assert Ordered(tail, i - 1, later);
      }
    }
    if Open(fs, started) {
      assert Ordered(fs, 0, started);
      forall i | 0 <= i < |tail| ensures Ordered(tail, i, later) {
        assert Ordered(fs, i + 1, started);
      }
    }
  }

  lemma HasDataStep(fs: seq<Frame>)
    requires fs != []
    ensures HasData(fs) <==> IsData(fs[0]) || HasData(fs[1..])
  {
    if HasData(fs) && !IsData(fs[0]) {
      var i :| 0 <= i < |fs| && IsData(fs[i]);
      assert fs[1..][i - 1] == fs[i];
    }
    if HasData(fs[1..]) {
      var i :| 0 <= i < |fs[1..]| && IsData(fs[1..][i]);
      assert fs[i + 1] == fs[1..][i];
    }
  }

  /** `input` holds the frames `fs`, then goes on as `tail`. */
  predicate Begins(input: Incoming, fs: seq<Frame>, tail: Incoming) {
    if fs == [] then input == tail
    else input.Next? && input.frame == fs[0] && Begins(input.more, fs[1..], tail)
  }

  /** One frame that leaves the message open. */
  lemma OpenTurn(f: Frame, rest: bytes, more: Incoming, max: nat, started: bool, buffer: bytes)
    requires IsPingOrPong(f) || (IsData(f) && !f.fin && (f.opcode == TEXT <==> !started))
    requires IsData(f) ==> |buffer| + |f.payload| <= max
    ensures var later := ReadFrom(more, max, started || IsData(f), if IsData(f) then buffer + f.payload else buffer);
      ReadFrom(Next(f, rest, more), max, started, buffer) ==
        if f.opcode == PING then AfterPing(f.payload, later) else later
  {
  }

  /** While a message stays open the reader goes on: text is collected, pings are answered in order. */
  lemma {:induction false} ReadOpen(input: Incoming, fs: seq<Frame>, tail: Incoming, max: nat, started: bool,
                                    buffer: bytes)
    requires Begins(input, fs, tail) && Open(fs, started) && |buffer| + |Text(fs)| <= max
    ensures var later := ReadFrom(tail, max, started || HasData(fs), buffer + Text(fs));
      ReadFrom(input, max, started, buffer) == later.(pings := Pings(fs) + later.pings)
  {
    var later := ReadFrom(tail, max, started || HasData(fs), buffer + Text(fs));
    if fs == [] {
      assert buffer + [] == buffer && [] + later.pings == later.pings;
    } else {
      OpenTail(fs, started);
      HasDataStep(fs);
      var f := fs[0];
      var extended := if IsData(f) then buffer + f.payload else buffer;
      assert buffer + [] == buffer;
      Joined(buffer, if IsData(f) then f.payload else [], Text(fs[1..]));
      OpenTurn(f, input.rest, input.more, max, started, buffer);
      ReadOpen(input.more, fs[1..], tail, max, started || IsData(f), extended);
      Joined(if f.opcode == PING then [f.payload] else [], Pings(fs[1..]), later.pings);
    }
  }

  /** What was encoded is what the stream holds. */
  lemma {:induction false} StreamBegins(ss: seq<Sent>, tail: bytes, max: nat)
    requires Sendable(ss, max)
    ensures Begins(Deframe(Stream(ss) + tail, max), FramesOf(ss), Deframe(tail, max))
  {
    if ss == [] {
      assert Stream(ss) + tail == tail;
    } else {
      StreamStep(ss, tail, max);
      StreamBegins(ss[1..], tail, max);
    }
  }

  lemma {:induction false} TextOfAppend(fs: seq<Frame>, f: Frame)
    ensures Text(fs + [f]) == Text(fs) + (if IsData(f) then f.payload else [])
    ensures Pings(fs + [f]) == Pings(fs) + (if f.opcode == PING then [f.payload] else [])
  {
    if fs != [] {
      TextOfAppend(fs[1..], f);
      assert (fs + [f])[1..] == fs[1..] + [f];
    } else {
      assert (fs + [f])[1..] == [];
    }
  }

  lemma {:induction false} StreamOfAppend(ss: seq<Sent>, s: Sent)
    ensures Stream(ss + [s]) == Stream(ss) + Encode(s.frame, s.mask)
    ensures FramesOf(ss + [s]) == FramesOf(ss) + [s.frame]
  {
    if ss != [] {
      StreamOfAppend(ss[1..], s);
      assert (ss + [s])[1..] == ss[1..] + [s];
    } else {
      assert (ss + [s])[1..] == [];
    }
  }

  /** The last data frame is in order exactly when its opcode says whether it is the first. */
  lemma OrderedLast(fs: seq<Frame>, f: Frame)
    requires IsData(f)
    ensures Ordered(fs + [f], |fs|, false) <==> (f.opcode == TEXT <==> !HasData(fs))
  {
    assert forall j :: 0 <= j < |fs| ==> (fs + [f])[j] == fs[j];
  }

  /** What the reader does with one more data frame after an open message. */
  function OneMore(fs: seq<Frame>, f: Frame, rest: bytes, more: Incoming, max: nat): Read {
    if f.opcode == TEXT && HasData(fs) then Refused(UnexpectedText, Pings(fs))
    else if f.opcode != TEXT && !HasData(fs) then Refused(UnexpectedContinuation, Pings(fs))
    else if |Text(fs)| + |f.payload| > max then Refused(OverLimit, Pings(fs))
    else if f.fin then Message(Text(fs) + f.payload, Pings(fs), rest)
    else
      var later := ReadFrom(more, max, true, Text(fs) + f.payload);
      later.(pings := Pings(fs) + later.pings)
  }

  lemma ReadIncomingOneMore(input: Incoming, fs: seq<Frame>, f: Frame, rest: bytes, more: Incoming, max: nat)
    requires Begins(input, fs, Next(f, rest, more)) && Open(fs, false) && |Text(fs)| <= max && IsData(f)
    ensures ReadFrom(input, max, false, []) == OneMore(fs, f, rest, more, max)
  {
    ReadOpen(input, fs, Next(f, rest, more), max, false, []);
    assert [] + Text(fs) == Text(fs) && Pings(fs) + [] == Pings(fs);
  }

  lemma ReadOneMore(front: seq<Sent>, last: Sent, tail: bytes, max: nat)
    requires Sendable(front + [last], max) && Open(FramesOf(front), false) && |Text(FramesOf(front))| <= max
    requires IsData(last.frame)
    ensures ReadStream(Stream(front + [last]) + tail, max)
      == OneMore(FramesOf(front), last.frame, tail, Deframe(tail, max), max)
  {
    var after := Encode(last.frame, last.mask) + tail;
    StreamOfAppend(front, last);
    assert Stream(front + [last]) + tail == Stream(front) + after;
    assert forall i :: 0 <= i < |front| ==> (front + [last])[i] == front[i];
    assert (front + [last])[|front|] == last;
    StreamBegins(front, after, max);
    DeframeEncoded(last.frame, last.mask, tail, max);
    ReadIncomingOneMore(Deframe(Stream(front) + after, max), FramesOf(front), last.frame, tail, Deframe(tail, max),
                        max);
  }

  /**
   * However a text message within the limit is split into fragments, and whatever pings and pongs
   * come in between, it is read back whole, the pings are answered in order, and what follows on
   * the stream is left alone.
   */
  lemma EverySplitIsRead(ss: seq<Sent>, tail: bytes, max: nat)
    requires Sendable(ss, max) && Split(FramesOf(ss)) && |Text(FramesOf(ss))| <= max
    ensures ReadStream(Stream(ss) + tail, max) == Message(Text(FramesOf(ss)), Pings(FramesOf(ss)), tail)
  {
    var front, last := ss[..|ss| - 1], ss[|ss| - 1];
    assert front + [last] == ss;
    StreamOfAppend(front, last);
    SplitLast(FramesOf(front), last.frame);
    ReadOneMore(front, last, tail, max);
  }

  lemma SplitLast(front: seq<Frame>, f: Frame)
    requires Split(front + [f])
    ensures Open(front, false) && IsData(f) && f.fin && (f.opcode == TEXT <==> !HasData(front))
    ensures Text(front + [f]) == Text(front) + f.payload && Pings(front + [f]) == Pings(front)
  {
    assert (front + [f])[..|front|] == front;
    OrderedLast(front, f);
    TextOfAppend(front, f);
    assert Pings(front) + [] == Pings(front);
  }

  /** An ill-ordered data frame after an open message is refused, whatever it carries. */
  lemma IllOrderedIsRefused(ss: seq<Sent>, bad: Sent, tail: bytes, max: nat)
    requires Sendable(ss + [bad], max) && Open(FramesOf(ss), false) && |Text(FramesOf(ss))| <= max
    requires IsData(bad.frame) && !Ordered(FramesOf(ss) + [bad.frame], |ss|, false)
    ensures ReadStream(Stream(ss + [bad]) + tail, max) ==
      Refused(if bad.frame.opcode == TEXT then UnexpectedText else UnexpectedContinuation, Pings(FramesOf(ss)))
  {
    OrderedLast(FramesOf(ss), bad.frame);
    ReadOneMore(ss, bad, tail, max);
  }

  /** A fragment that takes an open message over the limit is refused. */
  lemma OverLimitIsRefused(ss: seq<Sent>, last: Sent, tail: bytes, max: nat)
    requires Sendable(ss + [last], max) && Open(FramesOf(ss), false) && |Text(FramesOf(ss))| <= max
    requires IsData(last.frame) && Ordered(FramesOf(ss) + [last.frame], |ss|, false)
    requires |Text(FramesOf(ss))| + |last.frame.payload| > max
    ensures ReadStream(Stream(ss + [last]) + tail, max) == Refused(OverLimit, Pings(FramesOf(ss)))
  {
    OrderedLast(FramesOf(ss), last.frame);
    ReadOneMore(ss, last, tail, max);
  }

  /** The frames of a stream, one after the other, up to `rest`. */
  predicate Holds(input: Incoming, fs: seq<Frame>, rest: bytes)
    requires fs != []
  {
    && input.Next? && input.frame == fs[0]
    && (if |fs| == 1 then input.rest == rest else Holds(input.more, fs[1..], rest))
  }

  lemma SplitFromStep(f: Frame, fs: seq<Frame>, started: bool)
    requires SplitFrom(fs, started || IsData(f))
    requires IsPingOrPong(f) || (IsData(f) && !f.fin && (f.opcode == TEXT <==> !started))
    ensures SplitFrom([f] + fs, started)
  {
    var all := [f] + fs;
    assert all[1..] == fs && all[..|all| - 1] == [f] + fs[..|fs| - 1] && all[..|all| - 1][1..] == fs[..|fs| - 1];
    OpenTail(all[..|all| - 1], started);
    OrderedTail(all, |all| - 2, started);
  }

  /** What was read is the text of the split `fs`, with an answer to each of its pings. */
  predicate ReadAs(input: Incoming, r: Read, fs: seq<Frame>, max: nat, buffer: bytes) {
    fs != [] && r.Message? && Holds(input, fs,
                                    r.rest) && r.text == buffer + Text(fs) && |r.text| <= max && r.pings == Pings(fs)
  }

  lemma LastFrameMeansSplit(input: Incoming, max: nat, started: bool, buffer: bytes)
    requires input.Next? && TurnOn(input.frame, max, started, buffer).Finish?
    ensures SplitFrom([input.frame], started)
    ensures ReadAs(input, ReadFrom(input, max, started, buffer), [input.frame], max, buffer)
  {
    var f := input.frame;
    assert [f][..0] == [] && [f][1..] == [] && f.payload + [] == f.payload;
  }

  lemma FirstFrameMeansSplit(input: Incoming, fs: seq<Frame>, max: nat, started: bool, buffer: bytes, later: bytes)
    requires input.Next? && SplitFrom(fs, started || IsData(input.frame))
    requires var turn := TurnOn(input.frame, max, started, buffer);
      || (turn.Answer? && later == buffer)
      || (turn.Continue? && later == turn.buffer && turn.started == (started || IsData(input.frame)))
    requires ReadAs(input.more, ReadFrom(input.more, max, started || IsData(input.frame), later), fs, max, later)
    ensures SplitFrom([input.frame] + fs, started)
    ensures ReadAs(input, ReadFrom(input, max, started, buffer), [input.frame] + fs, max, buffer)
  {
    var f := input.frame;
    SplitFromStep(f, fs, started);
    assert ([f] + fs)[1..] == fs;
    assert Text([f] + fs) == (if IsData(f) then f.payload else []) + Text(fs);
    assert Pings([f] + fs) == (if f.opcode == PING then [f.payload] else []) + Pings(fs);
  }

  /** Nothing else is ever returned: a message that is read was sent as such a split and is within the limit. */
  lemma {:induction false} MessageMeansSplit(input: Incoming, max: nat, started: bool, buffer: bytes)
    returns (fs: seq<Frame>)
    requires ReadFrom(input, max, started, buffer).Message?
    ensures SplitFrom(fs, started) && ReadAs(input, ReadFrom(input, max, started, buffer), fs, max, buffer)
  {
    var turn := TurnOn(input.frame, max, started, buffer);
    if turn.Finish? {
      LastFrameMeansSplit(input, max, started, buffer);
      fs := [input.frame];
    } else {
      var later := if turn.Continue? then turn.buffer else buffer;
      var tail := MessageMeansSplit(input.more, max, started || IsData(input.frame), later);
      FirstFrameMeansSplit(input, tail, max, started, buffer, later);
      fs := [input.frame] + tail;
    }
  }

  /** What WriteMessage puts on a stream reads back as the same text. */
  lemma WrittenMessageIsRead(payload: bytes, mask: Mask, tail: bytes, max: nat)
    requires |payload| <= max && |payload| <= LARGEST
    ensures ReadStream(Print(TEXT, mask, payload) + tail, max) == Message(payload, [], tail)
  {
    var f := Frame(true, TEXT, payload);
    DeframeEncoded(f, Some(mask), tail, max);
    assert [] + payload == payload;
  }
}
