/** The examples of section 5.7 of RFC 6455, byte by byte. */
module FrameExamples {
  import opened Basics
  import opened Frames
  import opened Messages

  const HELLO: bytes := [0x48, 0x65, 0x6c, 0x6c, 0x6f]
  const MASK: Mask := [0x37, 0xfa, 0x21, 0x3d]
  const MASKED_HELLO: bytes := [0x7f, 0x9f, 0x4d, 0x51, 0x58]

  lemma SmallNumbers()
    ensures ByteOf(0) == 0 && ByteOf(1) == 1 && ByteOf(2) == 2 && ByteOf(3) == 3 && ByteOf(5) == 5
  {
    assert ByteOf(4) == 4;
  }

  lemma MaskingHello()
    ensures Masked(HELLO, MASK) == MASKED_HELLO
  {
    var m := Masked(HELLO, MASK);
    assert m[0] == 0x7f && m[1] == 0x9f && m[2] == 0x4d && m[3] == 0x51 && m[4] == 0x58;
  }

  /** A text in one frame, unmasked and masked. */
  lemma SingleFrame()
    ensures Encode(Frame(true, TEXT, HELLO), None) == [0x81, 0x05] + HELLO
    ensures Print(TEXT, MASK, HELLO) == [0x81, 0x85] + MASK + MASKED_HELLO
  {
    SmallNumbers();
    MaskingHello();
    Joined([0x81, 0x85], MASK, MASKED_HELLO);
    assert Flag(true) | TEXT == 0x81 && Flag(false) | ByteOf(5) == 0x05 && Flag(true) | ByteOf(5) == 0x85;
  }

  /** The same text in two fragments. */
  lemma TwoFragments()
    ensures Encode(Frame(false, TEXT, HELLO[..3]), None) == [0x01, 0x03] + HELLO[..3]
    ensures Encode(Frame(true, CONTINUATION, HELLO[3..]), None) == [0x80, 0x02] + HELLO[3..]
  {
    SmallNumbers();
    assert Flag(false) | TEXT == 0x01 && Flag(false) | ByteOf(3) == 0x03;
    assert Flag(true) | CONTINUATION == 0x80 && Flag(false) | ByteOf(2) == 0x02;
  }

  /** A ping and the pong that answers it, and a close frame. */
  lemma PingAndPong()
    ensures Encode(Frame(true, PING, HELLO), None) == [0x89, 0x05] + HELLO
    ensures Print(PONG, MASK, HELLO) == [0x8a, 0x85] + MASK + MASKED_HELLO
    ensures Encode(Frame(true, CLOSE, []), None) == [0x88, 0x00]
  {
    SmallNumbers();
    MaskingHello();
    Joined([0x8a, 0x85], MASK, MASKED_HELLO);
    assert Flag(true) | PING == 0x89 && Flag(false) | ByteOf(5) == 0x05;
    assert Flag(true) | PONG == 0x8a && Flag(true) | ByteOf(5) == 0x85;
    assert Flag(true) | CLOSE == 0x88 && Flag(false) | ByteOf(0) == 0x00;
  }

  /** 256 bytes and 64 KiB in one frame. */
  lemma LongFrames(short: bytes, long: bytes)
    requires |short| == 256 && |long| == 65536
    ensures Encode(Frame(true, 2, short), None) == [0x82, 0x7e, 0x01, 0x00] + short
    ensures Encode(Frame(true, 2, long), None) == [0x82, 0x7f, 0, 0, 0, 0, 0, 1, 0, 0] + long
  {
    MarkerBytes();
    SmallNumbers();
    assert Flag(true) | 2 == 0x82 && Flag(false) | ByteOf(126) == 0x7e && Flag(false) | ByteOf(127) == 0x7f;
    LongNumbers();
    assert [0x82, 0x7e] + [0x01, 0x00] == [0x82, 0x7e, 0x01, 0x00];
    assert [0x82, 0x7f] + [0, 0, 0, 0, 0, 1, 0, 0] == [0x82, 0x7f, 0, 0, 0, 0, 0, 1, 0, 0];
  }

  lemma LongNumbers()
    ensures BigEndian(256, 2) == [1, 0] && BigEndian(65536, 8) == [0, 0, 0, 0, 0, 1, 0, 0]
  {
    SmallNumbers();
    assert BigEndian(0, 5) == [0, 0, 0, 0, 0];
    assert BigEndian(1, 6) == [0, 0, 0, 0, 0, 1];
    assert BigEndian(256, 7) == [0, 0, 0, 0, 0, 1, 0];
  }

  /** What the reader does with a frame, by the opcodes of section 5.2 of RFC 6455. */
  lemma TurnByOpcode(f: Frame, max: nat, started: bool, buffer: bytes)
    ensures var turn := TurnOn(f, max, started, buffer);
      && (f.opcode == 8 ==> turn == Refuse(Closed)) && (f.opcode == 9 ==> turn == Answer(f.payload))
      && (f.opcode == 10 ==> turn == Continue(started, buffer))
      && (f.opcode !in {0, 1, 8, 9, 10} ==> turn == Refuse(Unsupported))
      && (f.opcode == 1 && started ==> turn == Refuse(UnexpectedText))
      && (f.opcode == 0 && !started ==> turn == Refuse(UnexpectedContinuation))
      && (f.opcode == (if started then 0 else 1) ==>
            if |buffer| + |f.payload| > max then turn == Refuse(OverLimit)
            else turn == if f.fin then Finish(buffer + f.payload) else Continue(true, buffer + f.payload))
  {
  }
}
