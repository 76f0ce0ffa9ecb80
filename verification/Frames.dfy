/**
 * WebSocket frames as the agent's client writes and reads them
 * (agent/internal/wsclient/client.go; sections 5.2 and 5.3 of RFC 6455).
 */
module Frames {
  import opened Basics

  type bytes = seq<bv8>
  type Mask = m: bytes | |m| == 4 witness [0, 0, 0, 0]

  datatype Frame = Frame(fin: bool, opcode: bv8, payload: bytes)

  const LARGEST := 0x7FFF_FFFF_FFFF_FFFF  // int64 and, on a 64-bit machine, int

  predicate Control(opcode: bv8) {
    8 <= opcode
  }

  /** The frames that can be on a wire at all: a four-bit opcode, and short final control frames. */
  predicate Legal(f: Frame) {
    f.opcode < 16 && (Control(f.opcode) ==> f.fin && |f.payload| <= 125)
  }

  /** XOR with the mask, byte by byte; it is its own inverse. */
  function Masked(payload: bytes, mask: Mask): bytes {
    seq(|payload|, i requires 0 <= i < |payload| => payload[i] ^ mask[i % 4])
  }

  lemma MaskedTwice(payload: bytes, mask: Mask)
    ensures Masked(Masked(payload, mask), mask) == payload
  {
    forall i | 0 <= i < |payload| ensures Masked(Masked(payload, mask), mask)[i] == payload[i] {
      var x, y := payload[i], mask[i % 4];
      assert (x ^ y) ^ y == x;
    }
  }

  // Big-endian numbers.

  /** The byte with this value, counted up from zero. */
  function ByteOf(n: nat): bv8
    requires n < 256
  {
    if n == 0 then 0 else ByteOf(n - 1) + 1
  }

  function BigEndian(n: nat, width: nat): (s: bytes)
    ensures |s| == width
  {
    if width == 0 then [] else BigEndian(n / 256, width - 1) + [ByteOf(n % 256)]
  }

  function Number(s: bytes): nat {
    if s == [] then 0 else Number(s[..|s| - 1]) * 256 + s[|s| - 1] as int
  }

  function Pow256(k: nat): (p: nat)
    ensures 1 <= p
  {
    if k == 0 then 1 else Pow256(k - 1) * 256
  }

  lemma {:induction false} NumberBound(s: bytes)
    ensures Number(s) < Pow256(|s|)
  {
    if s != [] { NumberBound(s[..|s| - 1]); }
  }

  lemma NextByte(b: bv8)
    requires b != 255
    ensures (b + 1) as int == b as int + 1
  {
  }

  lemma {:induction false} NumberByte(n: nat)
    requires n < 256
    ensures ByteOf(n) as int == n
  {
    if n > 0 {
      NumberByte(n - 1);
      NextByte(ByteOf(n - 1));
    }
  }

  lemma SameByte(a: bv8, b: bv8)
    requires a as int == b as int
    ensures a == b
  {
  }

  lemma ByteRoundTrip(b: bv8)
    ensures ByteOf(b as int) == b
  {
    NumberByte(b as int);
    SameByte(ByteOf(b as int), b);
  }

  lemma DigitsApart(front: nat, last: int)
    requires 0 <= last < 256
    ensures (front * 256 + last) / 256 == front && (front * 256 + last) % 256 == last
  {
  }

  /** A number that fits is read back from its bytes ... */
  lemma {:induction false} NumberOfBigEndian(n: nat, width: nat)
    requires n < Pow256(width)
    ensures Number(BigEndian(n, width)) == n
  {
    if width > 0 {
      var s := BigEndian(n, width);
      assert s[..|s| - 1] == BigEndian(n / 256, width - 1);
      NumberOfBigEndian(n / 256, width - 1);
      NumberByte(n % 256);
    }
  }

  /** ... and bytes are written back from their number. */
  lemma BigEndianLast(n: nat, width: nat, last: bv8)
    ensures BigEndian(n * 256 + last as int, width + 1) == BigEndian(n, width) + [last]
  {
    DigitsApart(n, last as int);
    ByteRoundTrip(last);
  }

  lemma {:induction false} BigEndianOfNumber(s: bytes)
    ensures BigEndian(Number(s), |s|) == s
  {
    if s != [] {
      var front, last := s[..|s| - 1], s[|s| - 1];
      BigEndianOfNumber(front);
      NumberLast(s, front, last);
      BigEndianLast(Number(front), |front|, last);
    }
  }

  // Encoding.

  /** The seven-bit length field. */
  function ShortLength(n: nat): nat {
    if n < 126 then n else if n <= 0xFFFF then 126 else 127
  }

  function LongLength(n: nat): bytes {
    if n < 126 then [] else if n <= 0xFFFF then BigEndian(n, 2) else BigEndian(n, 8)
  }

  function Flag(on: bool): bv8 {
    if on then 0x80 else 0
  }

  /** A frame in its shortest form. */
  function Encode(f: Frame, mask: Option<Mask>): bytes {
    [Flag(f.fin) | f.opcode, Flag(mask.Some?) | ByteOf(ShortLength(|f.payload|))]
    + LongLength(|f.payload|)
    + (if mask.Some? then mask.value + Masked(f.payload, mask.value) else f.payload)
  }

  /** What the client writes: always final, always masked. */
  function Print(opcode: bv8, mask: Mask, payload: bytes): bytes {
    Encode(Frame(true, opcode, payload), Some(mask))
  }

  // Decoding.

  datatype ReadError = Eof | InvalidLength | TooLong | InvalidControl

  datatype Parsed = Parsed(frame: Frame, rest: bytes) | Broken(why: ReadError)

  /** Where the length ends and what it is. */
  datatype Length = Length(value: nat, end: nat) | NoLength(why: ReadError)

  function ParseLength(input: bytes): Length
    requires 2 <= |input|
    ensures ParseLength(input).Length? ==> ParseLength(input).end <= |input|
  {
    var short := (input[1] & 0x7f) as int;
    if short == 126 then
      if |input| < 4 then NoLength(Eof) else Length(Number(input[2..4]), 4)
    else if short == 127 then
      if |input| < 10 then NoLength(Eof)
      else if input[2] & 0x80 != 0 then NoLength(InvalidLength)
      else Length(Number(input[2..10]), 10)
    else Length(short, 2)
  }

  /** The `n` payload bytes after a length that ends at `at`, unmasked. */
  function Payload(input: bytes, masked: bool, at: nat, n: nat): bytes
    requires (if masked then at + 4 else at) + n <= |input|
  {
    if masked then Masked(input[at + 4..at + 4 + n], input[at..at + 4]) else input[at..at + n]
  }

  /** The checks and reads of readFrame after the length. */
  function ParseBody(input: bytes, fin: bool, opcode: bv8, masked: bool, n: nat, at: nat, max: nat): Parsed {
    if n > max || n > LARGEST then Broken(TooLong)
    else if Control(opcode) && (!fin || n > 125) then Broken(InvalidControl)
    else
      var end := (if masked then at + 4 else at) + n;
      if |input| < end then Broken(Eof)
      else Parsed(Frame(fin, opcode, Payload(input, masked, at, n)), input[end..])
  }

  function ParseFrame(input: bytes, max: nat): Parsed {
    if |input| < 2 then Broken(Eof)
    else
      match ParseLength(input)
      case NoLength(why) => Broken(why)
      case Length(n, at) =>
        ParseBody(input, input[0] & 0x80 != 0, input[0] & 0x0f, input[1] & 0x80 != 0, n, at, max)
  }

  /** Parsing consumes at least the two header bytes. */
  lemma ParseConsumes(input: bytes, max: nat)
    ensures ParseFrame(input, max).Parsed? ==>
      |ParseFrame(input, max).rest| <= |input| - 2 && Legal(ParseFrame(input, max).frame)
      && |ParseFrame(input, max).frame.payload| <= max && |ParseFrame(input, max).frame.payload| <= LARGEST
  {
    if 2 <= |input| {
      FirstByte(input[0]);
    }
  }

  // The bits of the two header bytes.

  lemma FirstByteBits(fin: bool, opcode: bv8)
    requires opcode < 16
    ensures var b := Flag(fin) | opcode; (b & 0x80 != 0) == fin && b & 0x0f == opcode
  {
  }

  lemma FirstByte(b: bv8)
    ensures b & 0x0f < 16
    ensures b & 0x70 == 0 ==> b == Flag(b & 0x80 != 0) | (b & 0x0f)
  {
  }

  lemma SecondByteBits(on: bool, x: bv8)
    requires x < 128
    ensures var b := Flag(on) | x; (b & 0x80 != 0) == on && b & 0x7f == x
  {
  }

  lemma SecondByte(b: bv8)
    ensures b & 0x7f < 128 && b == Flag(b & 0x80 != 0) | (b & 0x7f)
  {
  }

  lemma SmallByte(b: bv8)
    ensures b as int < 128 <==> b < 128
  {
  }

  lemma SmallBytes(n: nat)
    requires n < 128
    ensures ByteOf(n) < 128 && ByteOf(n) as int == n
  {
    NumberByte(n);
    SmallByte(ByteOf(n));
  }

  lemma MarkerBytes()
    ensures ByteOf(126) == 126 && ByteOf(127) == 127
  {
    NumberByte(126);
    SameByte(ByteOf(126), 126);
    NumberByte(127);
    SameByte(ByteOf(127), 127);
  }

  lemma Pow256Values()
    ensures Pow256(1) == 0x100 && Pow256(2) == 0x1_0000
    ensures Pow256(7) == 0x100_0000_0000_0000 && Pow256(8) == 0x1_0000_0000_0000_0000
  {
    assert Pow256(1) == 0x100;
    assert Pow256(2) == 0x1_0000;
    assert Pow256(3) == 0x100_0000;
    assert Pow256(4) == 0x1_0000_0000;
    assert Pow256(5) == 0x100_0000_0000;
    assert Pow256(6) == 0x1_0000_0000_0000;
    assert Pow256(7) == 0x100_0000_0000_0000;
  }

  lemma HighBit(b: bv8)
    ensures b & 0x80 == 0 <==> b as int < 128
  {
  }

  lemma NumberLast(s: bytes, front: bytes, last: bv8)
    requires s == front + [last]
    ensures Number(s) == Number(front) * 256 + last as int
  {
    assert s[..|s| - 1] == front;
  }

  lemma HeadLast(h: bv8, t: bytes, front: bytes, last: bv8)
    requires t == front + [last]
    ensures [h] + t == ([h] + front) + [last]
  {
  }

  lemma Regroup(w: int, d: int, p: int, n: int, l: int)
    requires w == d * p + n
    ensures w * 256 + l == d * (p * 256) + (n * 256 + l)
  {
  }

  lemma {:induction false} NumberHead(h: bv8, t: bytes)
    ensures Number([h] + t) == h as int * Pow256(|t|) + Number(t)
  {
    if t == [] {
      NumberLast([h] + t, [], h);
    } else {
      var front, last := t[..|t| - 1], t[|t| - 1];
      NumberHead(h, front);
      HeadLast(h, t, front, last);
      NumberLast([h] + t, [h] + front, last);
      Regroup(Number([h] + front), h as int, Pow256(|front|), Number(front), last as int);
    }
  }

  /** Eight bytes hold an int64 length exactly when the first one has its high bit clear. */
  lemma EightBytes(s: bytes)
    requires |s| == 8
    ensures s[0] & 0x80 == 0 <==> Number(s) <= LARGEST
  {
    Pow256Values();
    NumberHead(s[0], s[1..]);
    assert [s[0]] + s[1..] == s;
    NumberBound(s[1..]);
    HighBit(s[0]);
    TopDigit(s[0] as int, Number(s[1..]));
  }

  lemma TopDigit(d: int, n: int)
    requires 0 <= n < 0x100_0000_0000_0000
    ensures d * 0x100_0000_0000_0000 + n <= LARGEST <==> d < 128
  {
  }

  /** The length of an encoded frame is read back. */
  lemma ParseLengthOfEncode(f: Frame, mask: Option<Mask>, rest: bytes)
    requires |f.payload| <= LARGEST
    ensures 2 <= |Encode(f, mask) + rest|
    ensures ParseLength(Encode(f, mask) + rest) == Length(|f.payload|, 2 + |LongLength(|f.payload|)|)
  {
    var n := |f.payload|;
    var all := Encode(f, mask) + rest;
    SmallBytes(ShortLength(n));
    SecondByteBits(mask.Some?, ByteOf(ShortLength(n)));
    Pow256Values();
    if 126 <= n <= 0xFFFF {
      assert all[2..4] == BigEndian(n, 2);
      NumberOfBigEndian(n, 2);
    } else if 0xFFFF < n {
      assert all[2..10] == BigEndian(n, 8);
      NumberOfBigEndian(n, 8);
      EightBytes(all[2..10]);
    }
  }

  lemma HeaderOfEncode(f: Frame, mask: Option<Mask>, rest: bytes)
    ensures var all := Encode(f, mask) + rest;
      && 2 <= |all| && all[0] == Flag(f.fin) | f.opcode
      && all[1] == Flag(mask.Some?) | ByteOf(ShortLength(|f.payload|))
  {
  }

  /** The bits of the two header bytes are read back. */
  lemma HeaderBack(f: Frame, mask: Option<Mask>, rest: bytes)
    requires f.opcode < 16
    ensures var all := Encode(f, mask) + rest;
      && 2 <= |all| && (all[0] & 0x80 != 0) == f.fin && all[0] & 0x0f == f.opcode && (all[1] & 0x80 != 0) == mask.Some?
  {
    HeaderOfEncode(f, mask, rest);
    FirstByteBits(f.fin, f.opcode);
    SmallBytes(ShortLength(|f.payload|));
    SecondByteBits(mask.Some?, ByteOf(ShortLength(|f.payload|)));
  }

  lemma PayloadBack(f: Frame, mask: Option<Mask>, rest: bytes)
    ensures var all, at, n := Encode(f, mask) + rest, 2 + |LongLength(|f.payload|)|, |f.payload|;
      var end := (if mask.Some? then at + 4 else at) + n;
      && end <= |all| && Payload(all, mask.Some?, at, n) == f.payload && all[end..] == rest
  {
    var all, at, n := Encode(f, mask) + rest, 2 + |LongLength(|f.payload|)|, |f.payload|;
    if mask.Some? {
      assert all[at..at + 4] == mask.value;
      assert all[at + 4..at + 4 + n] == Masked(f.payload, mask.value);
      MaskedTwice(f.payload, mask.value);
    }
  }

  /** Reading inverts writing: any legal frame within the limit comes back, and the rest of the stream is untouched. */
  lemma ParseOfEncode(f: Frame, mask: Option<Mask>, rest: bytes, max: nat)
    requires Legal(f) && |f.payload| <= max && |f.payload| <= LARGEST
    ensures ParseFrame(Encode(f, mask) + rest, max) == Parsed(f, rest)
  {
    HeaderBack(f, mask, rest);
    ParseLengthOfEncode(f, mask, rest);
    PayloadBack(f, mask, rest);
  }

  /** The frame at the head of `input` has no reserved bits set and its length in the shortest form. */
  predicate Shortest(input: bytes)
    requires 2 <= |input|
  {
    && input[0] & 0x70 == 0
    && ParseLength(input).Length?
    && (input[1] & 0x7f) as int == ShortLength(ParseLength(input).value)
  }

  lemma LongLengthOfParsed(input: bytes)
    requires 2 <= |input| && Shortest(input)
    ensures var l := ParseLength(input); l.end == 2 + |LongLength(l.value)| && input[2..l.end] == LongLength(l.value)
  {
    var l := ParseLength(input);
    Pow256Values();
    if l.end == 4 {
      NumberBound(input[2..4]);
      BigEndianOfNumber(input[2..4]);
    } else if l.end == 10 {
      BigEndianOfNumber(input[2..10]);
    }
  }

  lemma HeaderOfParse(input: bytes, n: nat)
    requires 2 <= |input| && input[0] & 0x70 == 0 && (input[1] & 0x7f) as int == ShortLength(n)
    ensures input[0] == Flag(input[0] & 0x80 != 0) | (input[0] & 0x0f)
    ensures input[1] == Flag(input[1] & 0x80 != 0) | ByteOf(ShortLength(n))
  {
    FirstByte(input[0]);
    SecondByte(input[1]);
    ByteRoundTrip(input[1] & 0x7f);
  }

  lemma EncodeMasked(head: bytes, fin: bool, opcode: bv8, raw: bytes, mask: Mask)
    requires head == [Flag(fin) | opcode, Flag(true) | ByteOf(ShortLength(|raw|))]
    ensures Encode(Frame(fin, opcode, Masked(raw, mask)), Some(mask)) == head + LongLength(|raw|) + (mask + raw)
  {
    MaskedTwice(raw, mask);
  }

  lemma EncodePlain(head: bytes, fin: bool, opcode: bv8, raw: bytes)
    requires head == [Flag(fin) | opcode, Flag(false) | ByteOf(ShortLength(|raw|))]
    ensures Encode(Frame(fin, opcode, raw), None) == head + LongLength(|raw|) + raw
  {
  }

  lemma Cut(input: bytes, a: nat, b: nat)
    requires 2 <= a <= b <= |input|
    ensures input == input[..2] + input[2..a] + input[a..b] + input[b..]
  {
  }

  lemma CutMask(input: bytes, a: nat, b: nat)
    requires a + 4 <= b <= |input|
    ensures input[a..b] == input[a..a + 4] + input[a + 4..b]
  {
  }

  /** A payload taken from a stream, encoded again, is the piece of the stream it was taken from. */
  lemma EncodePayload(input: bytes, fin: bool, opcode: bv8, masked: bool, at: nat, n: nat) returns (mask: Option<Mask>)
    requires 2 <= at && (if masked then at + 4 else at) + n <= |input|
    requires input[..2] == [Flag(fin) | opcode, Flag(masked) | ByteOf(ShortLength(n))] && input[2..at] == LongLength(n)
    ensures input == Encode(Frame(fin, opcode, Payload(input, masked, at, n)), mask)
                     + input[(if masked then at + 4 else at) + n..]
  {
    if masked {
      Cut(input, at, at + 4 + n);
      CutMask(input, at, at + 4 + n);
      EncodeMasked(input[..2], fin, opcode, input[at + 4..at + 4 + n], input[at..at + 4]);
      mask := Some(input[at..at + 4]);
    } else {
      Cut(input, at, at + n);
      EncodePlain(input[..2], fin, opcode, input[at..at + n]);
      mask := None;
    }
  }

  lemma HeadOf(input: bytes)
    requires 2 <= |input|
    ensures input[..2] == [input[0], input[1]]
  {
  }

  lemma ParsedMeans(input: bytes, max: nat, fin: bool, opcode: bv8, masked: bool)
    requires ParseFrame(input, max).Parsed?
    requires fin == (input[0] & 0x80 != 0) && opcode == input[0] & 0x0f && masked == (input[1] & 0x80 != 0)
    ensures var l := ParseLength(input);
      && l.Length? && (if masked then l.end + 4 else l.end) + l.value <= |input|
      && ParseFrame(input, max) == Parsed(Frame(fin, opcode, Payload(input, masked, l.end, l.value)),
                                          input[(if masked then l.end + 4 else l.end) + l.value..])
  {
  }

  lemma HeaderParsed(input: bytes, n: nat, fin: bool, opcode: bv8, masked: bool)
    requires 2 <= |input| && input[0] & 0x70 == 0 && (input[1] & 0x7f) as int == ShortLength(n)
    requires fin == (input[0] & 0x80 != 0) && opcode == input[0] & 0x0f && masked == (input[1] & 0x80 != 0)
    ensures input[..2] == [Flag(fin) | opcode, Flag(masked) | ByteOf(ShortLength(n))]
  {
    HeadOf(input);
    HeaderOfParse(input, n);
  }

  lemma ShortestIsEncoded(input: bytes, max: nat) returns (mask: Option<Mask>)
    requires ParseFrame(input, max).Parsed? && Shortest(input)
    ensures input == Encode(ParseFrame(input, max).frame, mask) + ParseFrame(input, max).rest
  {
    var l := ParseLength(input);
    var fin, opcode, masked := input[0] & 0x80 != 0, input[0] & 0x0f, input[1] & 0x80 != 0;
    ParsedMeans(input, max, fin, opcode, masked);
    HeaderParsed(input, l.value, fin, opcode, masked);
    LongLengthOfParsed(input);
    mask := EncodePayload(input, fin, opcode, masked, l.end, l.value);
  }

  lemma EncodedIsShortest(f: Frame, mask: Option<Mask>, rest: bytes)
    requires Legal(f) && |f.payload| <= LARGEST
    ensures 2 <= |Encode(f, mask) + rest| && Shortest(Encode(f, mask) + rest)
  {
    HeaderOfEncode(f, mask, rest);
    ReservedBits(f.fin, f.opcode);
    ParseLengthOfEncode(f, mask, rest);
    ShortLengthBack(mask.Some?, |f.payload|);
  }

  lemma ShortLengthBack(on: bool, n: nat)
    ensures ((Flag(on) | ByteOf(ShortLength(n))) & 0x7f) as int == ShortLength(n)
  {
    SmallBytes(ShortLength(n));
    SecondByteBits(on, ByteOf(ShortLength(n)));
  }

  /** Writing inverts reading exactly on the streams that begin with a frame in its shortest form. */
  lemma EncodeOfParse(input: bytes, max: nat)
    requires ParseFrame(input, max).Parsed?
    ensures Shortest(input) <==>
      exists mask: Option<Mask> :: input == Encode(ParseFrame(input, max).frame, mask) + ParseFrame(input, max).rest
  {
    var p := ParseFrame(input, max);
    ParseConsumes(input, max);
    if Shortest(input) {
      var mask := ShortestIsEncoded(input, max);
    }
    forall mask: Option<Mask> | input == Encode(p.frame, mask) + p.rest ensures Shortest(input) {
      EncodedIsShortest(p.frame, mask, p.rest);
    }
  }

  lemma ReservedBits(fin: bool, opcode: bv8)
    requires opcode < 16
    ensures (Flag(fin) | opcode) & 0x70 == 0
  {
  }
}
