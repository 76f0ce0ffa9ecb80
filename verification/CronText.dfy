/**
 * What the texts of a cron field mean (server/app/scheduler.py), stated on the texts and the numbers written in them:
 * "*", "a", "a-b", each with or without "/n", and lists of them.
 */
module CronText {
  import opened Basics
  import opened Calendar
  import opened Cron

  // Numbers as text.

  function Figure(d: nat): char
    requires d < 10
  {
    ['0', '1', '2', '3', '4', '5', '6', '7', '8', '9'][d]
  }

  /** A number in decimal. */
  function Text(n: nat): (text: string)
    ensures text != "" && forall i :: 0 <= i < |text| ==> Digit(text[i])
  {
    if n < 10 then [Figure(n)] else Text(n / 10) + [Figure(n % 10)]
  }

  lemma {:induction false} TextIsNat(n: nat)
    ensures PyNat(Text(n)) == Some(n)
  {
    if n < 10 {
      assert [Figure(n)][..0] == "";
    } else {
      TextIsNat(n / 10);
      var front := Text(n / 10);
      assert Text(n)[..|Text(n)| - 1] == front && Text(n)[|Text(n)| - 1] == Figure(n % 10);
      assert Digit(front[|front| - 1]);
    }
  }

  lemma TextIsPlain(n: nat, c: char)
    requires !Digit(c)
    ensures c !in Text(n) && PyInt(Text(n)) == Some(n) && IndexOf(Text(n), c) == |Text(n)|
  {
    assert Digit(Text(n)[0]);
    TextIsNat(n);
    NotFound(Text(n), c);
  }

  lemma {:induction false} FoundAfter(a: string, c: char, b: string)
    requires c !in a
    ensures IndexOf(a + [c] + b, c) == |a| && (a + [c] + b)[..|a|] == a && (a + [c] + b)[|a| + 1..] == b
  {
    if a != "" {
      FoundAfter(a[1..], c, b);
      assert (a + [c] + b)[1..] == a[1..] + [c] + b;
    }
  }

  // One part.

  /** The text before the slash means the numbers from `start` to `end`. */
  predicate Base(base: string, minimum: int, maximum: int, start: int, end: int) {
    '/' !in base && ',' !in base && base != "" && PartBounds(base, minimum, maximum) == Some((start, end))
  }

  lemma StarIsBase(minimum: int, maximum: int)
    ensures Base("*", minimum, maximum, minimum, maximum)
  {
  }

  lemma NumberIsBase(a: nat, minimum: int, maximum: int)
    ensures Base(Text(a), minimum, maximum, a, a)
  {
    TextIsPlain(a, '/');
    TextIsPlain(a, ',');
    TextIsPlain(a, '-');
    TextIsPlain(a, '*');
    assert Text(a)[0] != '*';
  }

  lemma SpanIsBase(a: nat, b: nat, minimum: int, maximum: int)
    ensures Base(Text(a) + "-" + Text(b), minimum, maximum, a, b)
  {
    var base := Text(a) + "-" + Text(b);
    TextIsPlain(a, '-');
    TextIsPlain(b, '-');
    TextIsPlain(a, '/');
    TextIsPlain(b, '/');
    TextIsPlain(a, ',');
    TextIsPlain(b, ',');
    FoundAfter(Text(a), '-', Text(b));
    assert base[|Text(a)|] == '-';
    assert |base| > 1;
  }

  lemma WithoutStep(base: string, minimum: int, maximum: int, start: int, end: int)
    requires Base(base, minimum, maximum, start, end)
    ensures PartRange(base, minimum, maximum) ==
      if minimum <= start <= end <= maximum then Some(Range(start, end, 1)) else None
  {
    NotFound(base, '/');
    assert base[..|base|] == base;
  }

  lemma WithStep(base: string, n: nat, minimum: int, maximum: int, start: int, end: int)
    requires Base(base, minimum, maximum, start, end)
    ensures PartRange(base + "/" + Text(n), minimum, maximum) ==
      if 1 <= n && minimum <= start <= end <= maximum then Some(Range(start, end, n)) else None
  {
    FoundAfter(base, '/', Text(n));
    TextIsPlain(n, '/');
  }

  /** A field with this one part. */
  lemma OnePart(part: string, minimum: int, maximum: int, f: Field, v: int)
    requires ',' !in part
    ensures PartsOk(part, minimum, maximum) <==> PartRange(part, minimum, maximum).Some?
    ensures Reads(part, minimum, maximum, f) ==> (v in f.values <==> PartAdmits(part, minimum, maximum, v))
  {
    NotFound(part, ',');
    assert Split(part, ',') == [part];
    assert PartsOk(part, minimum, maximum) ==> PartRange(Split(part, ',')[0], minimum, maximum).Some?;
    assert PartAdmits(Split(part, ',')[0], minimum, maximum, v) <==> PartAdmits(part, minimum, maximum, v);
  }

  lemma WholeBase(base: string, minimum: int, maximum: int, start: int, end: int, f: Field, v: int)
    requires Base(base, minimum, maximum, start, end)
    ensures PartsOk(base, minimum, maximum) <==> minimum <= start <= end <= maximum
    ensures Reads(base, minimum, maximum, f) ==> (v in f.values <==> start <= v <= end)
  {
    WithoutStep(base, minimum, maximum, start, end);
    OnePart(base, minimum, maximum, f, v);
  }

  lemma SteppedBase(base: string, n: nat, minimum: int, maximum: int, start: int, end: int, f: Field, v: int)
    requires Base(base, minimum, maximum, start, end)
    ensures PartsOk(base + "/" + Text(n), minimum, maximum) <==> 1 <= n && minimum <= start <= end <= maximum
    ensures 1 <= n && Reads(base + "/" + Text(n), minimum, maximum, f) ==>
      (v in f.values <==> start <= v <= end && (v - start) % n == 0) && !f.any
  {
    TextIsPlain(n, ',');
    WithStep(base, n, minimum, maximum, start, end);
    OnePart(base + "/" + Text(n), minimum, maximum, f, v);
    assert |base + "/" + Text(n)| > 1;
  }

  // The forms of a field, each with when it is read and which values it then allows.

  lemma StarMeans(minimum: int, maximum: int, f: Field, v: int)
    ensures PartsOk("*", minimum, maximum) <==> minimum <= maximum
    ensures Reads("*", minimum, maximum, f) ==> (v in f.values <==> minimum <= v <= maximum) && f.any
  {
    StarIsBase(minimum, maximum);
    WholeBase("*", minimum, maximum, minimum, maximum, f, v);
  }

  /** "*" and a step: every n-th value from the least one on. */
  lemma EveryMeans(n: nat, minimum: int, maximum: int, f: Field, v: int)
    ensures PartsOk("*/" + Text(n), minimum, maximum) <==> 1 <= n && minimum <= maximum
    ensures 1 <= n && Reads("*/" + Text(n), minimum, maximum, f) ==>
      (v in f.values <==> minimum <= v <= maximum && (v - minimum) % n == 0) && !f.any
  {
    StarIsBase(minimum, maximum);
    SteppedBase("*", n, minimum, maximum, minimum, maximum, f, v);
    assert "*" + "/" + Text(n) == "*/" + Text(n);
  }

  lemma NumberMeans(a: nat, minimum: int, maximum: int, f: Field, v: int)
    ensures PartsOk(Text(a), minimum, maximum) <==> minimum <= a <= maximum
    ensures Reads(Text(a), minimum, maximum, f) ==> (v in f.values <==> v == a) && !f.any
  {
    NumberIsBase(a, minimum, maximum);
    WholeBase(Text(a), minimum, maximum, a, a, f, v);
    assert Digit(Text(a)[0]);
  }

  lemma SpanMeans(a: nat, b: nat, minimum: int, maximum: int, f: Field, v: int)
    ensures PartsOk(Text(a) + "-" + Text(b), minimum, maximum) <==> minimum <= a <= b <= maximum
    ensures Reads(Text(a) + "-" + Text(b), minimum, maximum, f) ==> (v in f.values <==> a <= v <= b) && !f.any
  {
    SpanIsBase(a, b, minimum, maximum);
    WholeBase(Text(a) + "-" + Text(b), minimum, maximum, a, b, f, v);
    assert |Text(a) + "-" + Text(b)| > 1;
  }

  /** "a-b/n": from a on, every n-th value up to b. */
  lemma SteppedSpanMeans(a: nat, b: nat, n: nat, minimum: int, maximum: int, f: Field, v: int)
    ensures PartsOk(Text(a) + "-" + Text(b) + "/" + Text(n), minimum, maximum) <==>
      1 <= n && minimum <= a <= b <= maximum
    ensures 1 <= n && Reads(Text(a) + "-" + Text(b) + "/" + Text(n), minimum, maximum, f) ==>
      (v in f.values <==> a <= v <= b && (v - a) % n == 0) && !f.any
  {
    SpanIsBase(a, b, minimum, maximum);
    SteppedBase(Text(a) + "-" + Text(b), n, minimum, maximum, a, b, f, v);
  }

  /** A number with a step is that number alone. */
  lemma SteppedNumberMeans(a: nat, n: nat, minimum: int, maximum: int, f: Field, v: int)
    ensures PartsOk(Text(a) + "/" + Text(n), minimum, maximum) <==> 1 <= n && minimum <= a <= maximum
    ensures Reads(Text(a) + "/" + Text(n), minimum, maximum, f) ==> (v in f.values <==> v == a) && !f.any
  {
    NumberIsBase(a, minimum, maximum);
    SteppedBase(Text(a), n, minimum, maximum, a, a, f, v);
    if 1 <= n { NoStepAtAll(a, v, n); }
  }

  lemma NoStepAtAll(a: int, v: int, n: nat)
    requires 1 <= n
    ensures a <= v <= a && (v - a) % n == 0 <==> v == a
  {
  }

  /** No part is empty, and an empty step is one. */
  lemma EmptyTexts(minimum: int, maximum: int)
    ensures !PartsOk("", minimum, maximum)
    ensures PartsOk("*/", minimum, maximum) <==> minimum <= maximum
  {
    OnePart("", minimum, maximum, Field({}, false), 0);
    OnePart("*/", minimum, maximum, Field({}, false), 0);
    assert IndexOf("*/", '/') == 1 && "*/"[..1] == "*" && "*/"[2..] == "";
  }

  /** A step may have a sign, but it has to be positive. */
  lemma SignedSteps(sign: string, n: nat, minimum: int, maximum: int)
    requires sign == "-" || sign == "+"
    ensures PartsOk("*/" + sign + Text(n), minimum, maximum) <==> sign == "+" && 1 <= n && minimum <= maximum
  {
    TextIsPlain(n, ',');
    SignedStep(sign, n, minimum, maximum);
    OnePart("*/" + sign + Text(n), minimum, maximum, Field({}, false), 0);
  }

  lemma StarStep(step: string, minimum: int, maximum: int)
    requires step != ""
    ensures PartRange("*/" + step, minimum, maximum) ==
      var n := PyInt(step);
      if n.Some? && 1 <= n.value && minimum <= maximum then Some(Range(minimum, maximum, n.value)) else None
  {
    FoundAfter("*", '/', step);
    assert "*" + ['/'] + step == "*/" + step;
  }

  lemma SignedStep(sign: string, n: nat, minimum: int, maximum: int)
    requires sign == "-" || sign == "+"
    ensures PartRange("*/" + sign + Text(n), minimum, maximum) ==
      if sign == "+" && 1 <= n && minimum <= maximum then Some(Range(minimum, maximum, n)) else None
  {
    Joined("*/", sign, Text(n));
    StarStep(sign + Text(n), minimum, maximum);
    Signed(sign, n);
  }

  lemma Signed(sign: string, n: nat)
    requires sign == "-" || sign == "+"
    ensures PyInt(sign + Text(n)) == Some(if sign == "-" then 0 - n else n)
  {
    assert (sign + Text(n))[1..] == Text(n);
    TextIsNat(n);
  }

  /** A list is read exactly if its first part and the rest are, and allows what either allows. */
  lemma ListMeans(part: string, rest: string, minimum: int, maximum: int)
    requires ',' !in part
    ensures PartsOk(part + "," + rest, minimum, maximum) <==>
      PartsOk(part, minimum, maximum) && PartsOk(rest, minimum, maximum)
    ensures forall f, g, h ::
      (Reads(part + "," + rest, minimum, maximum, f) && Reads(part, minimum, maximum, g)
       && Reads(rest, minimum, maximum, h)) ==> f.values == g.values + h.values && !f.any
  {
    var all := part + "," + rest;
    FoundAfter(part, ',', rest);
    NotFound(part, ',');
    var first, others := Split(part, ','), Split(rest, ',');
    assert first == [part] && Split(all, ',') == [part] + others;
    ListIsRead(part, rest, minimum, maximum);
    forall f, g, h |
      Reads(all, minimum, maximum, f) && Reads(part, minimum, maximum, g) && Reads(rest, minimum, maximum, h)
      ensures f.values == g.values + h.values && !f.any
    {
      ListAllows(part, rest, minimum, maximum, f, g, h);
    }
  }

  lemma ListIsRead(part: string, rest: string, minimum: int, maximum: int)
    requires Split(part, ',') == [part] && Split(part + "," + rest, ',') == [part] + Split(rest, ',')
    ensures PartsOk(part + "," + rest, minimum, maximum) <==>
      PartsOk(part, minimum, maximum) && PartsOk(rest, minimum, maximum)
  {
    var all, others := Split(part + "," + rest, ','), Split(rest, ',');
    assert Split(part, ',')[0] == part && all[0] == part;
    assert forall i :: 0 <= i < |others| ==> all[i + 1] == others[i];
    assert forall i :: 1 <= i < |all| ==> all[i] == others[i - 1];
  }

  lemma ListAllows(part: string, rest: string, minimum: int, maximum: int, f: Field, g: Field, h: Field)
    requires Split(part, ',') == [part] && Split(part + "," + rest, ',') == [part] + Split(rest, ',')
    requires Reads(part + "," + rest, minimum, maximum, f)
    requires Reads(part, minimum, maximum, g) && Reads(rest, minimum, maximum, h)
    ensures f.values == g.values + h.values && !f.any
  {
    forall v ensures v in f.values <==> v in g.values || v in h.values {
      ListAdmits(part, Split(part + "," + rest, ','), Split(rest, ','), minimum, maximum, v);
      assert Split(part, ',')[0] == part;
      assert PartAdmits(part, minimum, maximum, v) ==> PartAdmits(Split(part, ',')[0], minimum, maximum, v);
    }
    assert (part + "," + rest)[|part|] == ',';
  }

  /** Some part of the list admits the value. */
  ghost predicate SomePart(parts: seq<string>, minimum: int, maximum: int, v: int) {
    exists i :: 0 <= i < |parts| && PartAdmits(parts[i], minimum, maximum, v)
  }

  lemma ListAdmits(part: string, all: seq<string>, others: seq<string>, minimum: int, maximum: int, v: int)
    requires all == [part] + others
    ensures SomePart(all, minimum, maximum, v) <==>
      PartAdmits(part, minimum, maximum, v) || SomePart(others, minimum, maximum, v)
  {
    if i :| 0 <= i < |all| && PartAdmits(all[i], minimum, maximum, v) {
      assert i > 0 ==> all[i] == others[i - 1];
    }
    if PartAdmits(part, minimum, maximum, v) {
      assert PartAdmits(all[0], minimum, maximum, v);
    }
    if i :| 0 <= i < |others| && PartAdmits(others[i], minimum, maximum, v) {
      assert PartAdmits(all[i + 1], minimum, maximum, v);
    }
  }

  // Whole lines.

  /** A part of a field that is no star: every n-th number from `start` to `end`. */
  datatype Span = Span(start: nat, end: nat, step: nat)

  predicate Allows(p: Span, v: int) {
    1 <= p.step && p.start <= v <= p.end && (v - p.start) % p.step == 0
  }

  predicate InBounds(p: seq<Span>)
    requires |p| == 5
  {
    && (forall i :: 0 <= i < 5 ==> 1 <= p[i].step && p[i].start <= p[i].end)
    && p[0].end <= 59 && p[1].end <= 23 && 1 <= p[2].start && p[2].end <= 31 && 1 <= p[3].start && p[3].end <= 12
    && p[4].end <= 6
  }

  /** Minute, hour and month are allowed, and the day of month or the weekday, of which Monday is the first. */
  predicate LineAllows(p: seq<Span>, s: Stamp)
    requires |p| == 5
  {
    && Allows(p[0], s.minute) && Allows(p[1], s.hour) && Allows(p[3], s.month)
    && (Allows(p[2], s.day) || Allows(p[4], (Day(s) + 6) % 7))
  }

  function SpanText(p: Span): string {
    Text(p.start) + "-" + Text(p.end) + "/" + Text(p.step)
  }

  /**
   * A line of five spans stands for minute, hour, day of month, month and weekday, in this order: it is refused exactly
   * if one of them is out of its bounds, and allows a minute exactly if minute, hour, month and one of the days do.
   */
  lemma LineMeans(p: seq<Span>, fields: seq<string>, f: Fields, s: Stamp)
    requires |p| == 5 && |fields| == 5 && forall i :: 0 <= i < 5 ==> fields[i] == SpanText(p[i])
    ensures Readable(fields) <==> InBounds(p)
    ensures Readable(fields) && Parses(fields, f) ==>
      (Matches(f, s) <==> LineAllows(p, s))
  {
    LineIsReadable(p, fields);
    if Readable(fields) && Parses(fields, f) { LineMatches(p, fields, f, s); }
  }

  lemma InField(p: Span, minimum: int, maximum: int, f: Field, v: int)
    ensures PartsOk(SpanText(p), minimum, maximum) <==> 1 <= p.step && minimum <= p.start <= p.end <= maximum
    ensures 1 <= p.step && Reads(SpanText(p), minimum, maximum, f) ==>
      !f.any && (v in f.values <==> p.start <= v <= p.end && (v - p.start) % p.step == 0)
  {
    SteppedSpanMeans(p.start, p.end, p.step, minimum, maximum, f, v);
  }

  lemma LineIsReadable(p: seq<Span>, fields: seq<string>)
    requires |p| == 5 && |fields| == 5 && forall i :: 0 <= i < 5 ==> fields[i] == SpanText(p[i])
    ensures Readable(fields) <==> InBounds(p)
  {
    ReadableInOrder(fields);
    SpanIsRead(p[0], 0, 59);
    SpanIsRead(p[1], 0, 23);
    SpanIsRead(p[2], 1, 31);
    SpanIsRead(p[3], 1, 12);
    SpanIsRead(p[4], 0, 6);
  }

  lemma SpanIsRead(p: Span, minimum: int, maximum: int)
    ensures PartsOk(SpanText(p), minimum, maximum) <==> 1 <= p.step && minimum <= p.start <= p.end <= maximum
  {
    InField(p, minimum, maximum, Field({}, false), 0);
  }

  lemma ReadableInOrder(fields: seq<string>)
    requires |fields| == 5
    ensures Readable(fields) <==>
      && PartsOk(fields[0], 0, 59) && PartsOk(fields[1], 0, 23) && PartsOk(fields[2], 1, 31)
      && PartsOk(fields[3], 1, 12) && PartsOk(fields[4], 0, 6)
  {
    if Readable(fields) {
      assert PartsOk(fields[0], MINIMUMS[0], MAXIMUMS[0]) && PartsOk(fields[1], MINIMUMS[1], MAXIMUMS[1]);
      assert PartsOk(fields[2], MINIMUMS[2], MAXIMUMS[2]) && PartsOk(fields[3], MINIMUMS[3], MAXIMUMS[3]);
      assert PartsOk(fields[4], MINIMUMS[4], MAXIMUMS[4]);
    }
  }

  lemma LineMatches(p: seq<Span>, fields: seq<string>, f: Fields, s: Stamp)
    requires |p| == 5 && |fields| == 5 && forall i :: 0 <= i < 5 ==> fields[i] == SpanText(p[i]) && 1 <= p[i].step
    requires Parses(fields, f)
    ensures Matches(f, s) <==> LineAllows(p, s)
  {
    FieldOf(p, fields, f, 0, s.minute);
    FieldOf(p, fields, f, 1, s.hour);
    FieldOf(p, fields, f, 2, s.day);
    FieldOf(p, fields, f, 3, s.month);
    FieldOf(p, fields, f, 4, (Day(s) + 6) % 7);
    LineRule(p, f, s);
  }

  lemma FieldOf(p: seq<Span>, fields: seq<string>, f: Fields, i: nat, v: int)
    requires |p| == 5 && |fields| == 5 && i < 5 && fields[i] == SpanText(p[i]) && 1 <= p[i].step && Parses(fields, f)
    ensures !FieldAt(f, i).any && (v in FieldAt(f, i).values <==> Allows(p[i], v))
  {
    InField(p[i], MINIMUMS[i], MAXIMUMS[i], FieldAt(f, i), v);
  }

  /** Which field is which, and the day rule of a line without stars. */
  lemma LineRule(p: seq<Span>, f: Fields, s: Stamp)
    requires |p| == 5 && !FieldAt(f, 2).any && !FieldAt(f, 4).any
    requires s.minute in FieldAt(f, 0).values <==> Allows(p[0], s.minute)
    requires s.hour in FieldAt(f, 1).values <==> Allows(p[1], s.hour)
    requires s.day in FieldAt(f, 2).values <==> Allows(p[2], s.day)
    requires s.month in FieldAt(f, 3).values <==> Allows(p[3], s.month)
    requires (Day(s) + 6) % 7 in FieldAt(f, 4).values <==> Allows(p[4], (Day(s) + 6) % 7)
    ensures Matches(f, s) <==> LineAllows(p, s)
  {
  }

  lemma FieldsInOrder(fields: seq<string>, f: Fields)
    requires |fields| == 5
    ensures Parses(fields, f) <==>
      && Reads(fields[0], 0, 59, f.minute) && Reads(fields[1], 0, 23, f.hour) && Reads(fields[2], 1, 31, f.day)
      && Reads(fields[3], 1, 12, f.month) && Reads(fields[4], 0, 6, f.weekday)
  {
    assert FieldAt(f, 0) == f.minute && FieldAt(f, 1) == f.hour && FieldAt(f, 2) == f.day;
    assert FieldAt(f, 3) == f.month && FieldAt(f, 4) == f.weekday;
    if Parses(fields, f) {
      assert Reads(fields[0], MINIMUMS[0], MAXIMUMS[0], FieldAt(f, 0));
      assert Reads(fields[1], MINIMUMS[1], MAXIMUMS[1], FieldAt(f, 1));
      assert Reads(fields[2], MINIMUMS[2], MAXIMUMS[2], FieldAt(f, 2));
      assert Reads(fields[3], MINIMUMS[3], MAXIMUMS[3], FieldAt(f, 3));
      assert Reads(fields[4], MINIMUMS[4], MAXIMUMS[4], FieldAt(f, 4));
    }
  }

  /** "*", "*", "*", "*" behind a minute field: only the minute decides. */
  lemma OnlyMinutes(minute: string, fields: seq<string>, f: Fields, s: Stamp)
    requires fields == [minute, "*", "*", "*", "*"] && Valid(s)
    ensures Readable(fields) <==> PartsOk(minute, 0, 59)
    ensures Parses(fields, f) ==> Reads(minute, 0, 59, f.minute) && (Matches(f, s) <==> s.minute in f.minute.values)
    ensures Parses(fields, f) ==> f.day.any && f.weekday.any
  {
    ReadableInOrder(fields);
    FieldsInOrder(fields, f);
    StarMeans(0, 23, f.hour, s.hour);
    StarMeans(1, 31, f.day, s.day);
    StarMeans(1, 12, f.month, s.month);
    StarMeans(0, 6, f.weekday, Weekday(Day(s)));
    WeekdayRange(s);
    ValidDay(s);
  }

  /** A search with such a line. */
  lemma FoundMinute(minute: string, fields: seq<string>, f: Fields, reference: Stamp, k: nat, t: Stamp)
    requires fields == [minute, "*", "*", "*", "*"] && Parses(fields, f) && Valid(reference) && Valid(t)
    requires FirstMatch(f, reference, k)
    ensures var at := Later(reference, k);
      && Valid(at) && Minutes(reference) < Minutes(at) && at.minute in f.minute.values
      && (Minutes(reference) < Minutes(t) < Minutes(at) ==> t.minute !in f.minute.values)
  {
    LaterMinutes(reference, k);
    OnlyMinutes(minute, fields, f, Later(reference, k));
    OnlyMinutes(minute, fields, f, t);
    if Minutes(reference) < Minutes(t) && Matches(f, t) { FoundIsEarliest(f, reference, k, t); }
  }

  lemma EveryIsRead(n: nat, fields: seq<string>, f: Fields, reference: Stamp, v: int)
    requires fields == ["*/" + Text(n), "*", "*", "*", "*"] && Valid(reference)
    ensures Readable(fields) <==> 1 <= n
    ensures 1 <= n && Parses(fields, f) ==> EveryYear(f) && (v in f.minute.values <==> 0 <= v <= 59 && v % n == 0)
  {
    EveryMeans(n, 0, 59, f.minute, v);
    OnlyMinutes("*/" + Text(n), fields, f, reference);
  }

  lemma EveryFound(n: nat, fields: seq<string>, f: Fields, reference: Stamp, k: nat, t: Stamp)
    requires 1 <= n && fields == ["*/" + Text(n), "*", "*", "*", "*"] && Valid(reference)
    requires Parses(fields, f) && FirstMatch(f, reference, k) && Valid(t)
    ensures var at := Later(reference, k);
      && Valid(at) && Minutes(reference) < Minutes(at) && at.minute % n == 0
      && (Minutes(reference) < Minutes(t) < Minutes(at) ==> t.minute % n != 0)
  {
    EveryIsRead(n, fields, f, reference, Later(reference, k).minute);
    EveryIsRead(n, fields, f, reference, t.minute);
    FoundMinute("*/" + Text(n), fields, f, reference, k, t);
  }

  /** Every n-th minute of the hour: the search finds the first such minute after the reference. */
  method NextEvery(n: nat, reference: Stamp) returns (r: Search)
    requires Valid(reference)
    ensures n == 0 ==> r == BadFields
    ensures 1 <= n ==>
      && r.Found? && Valid(r.at) && Minutes(reference) < Minutes(r.at) && r.at.minute % n == 0
      && forall t :: Valid(t) && Minutes(reference) < Minutes(t) < Minutes(r.at) ==> t.minute % n != 0
  {
    var fields := ["*/" + Text(n), "*", "*", "*", "*"];
    ghost var f;
    r, f := FallbackCronNext(fields, reference);
    EveryIsRead(n, fields, f, reference, 0);
    if 1 <= n {
      NeverFails(f, reference);
      ghost var k: nat :| k <= WINDOW && FirstMatch(f, reference, k) && r.at == Later(reference, k);
      EveryFound(n, fields, f, reference, k, reference);
      forall t | Valid(t) && Minutes(reference) < Minutes(t) < Minutes(r.at) ensures t.minute % n != 0 {
        EveryFound(n, fields, f, reference, k, t);
      }
    }
  }

  lemma LineFound(p: seq<Span>, fields: seq<string>, f: Fields, reference: Stamp, k: nat, t: Stamp)
    requires |p| == 5 && |fields| == 5 && (forall i :: 0 <= i < 5 ==> fields[i] == SpanText(p[i])) && Valid(reference)
    requires Readable(fields) && Parses(fields, f) && FirstMatch(f, reference, k) && Valid(t)
    ensures var at := Later(reference, k);
      && Valid(at) && Minutes(reference) < Minutes(at) && LineAllows(p, at)
      && (Minutes(reference) < Minutes(t) < Minutes(at) ==> !LineAllows(p, t))
  {
    LaterMinutes(reference, k);
    LineMeans(p, fields, f, Later(reference, k));
    LineMeans(p, fields, f, t);
    if Minutes(reference) < Minutes(t) && Matches(f, t) { FoundIsEarliest(f, reference, k, t); }
  }

  /** A line of spans is refused exactly as LineIsReadable says; what is found is the first minute that it allows. */
  method NextOfLine(p: seq<Span>, reference: Stamp) returns (r: Search)
    requires |p| == 5 && Valid(reference)
    ensures r.BadFields? <==> !InBounds(p)
    ensures r.Found? ==>
      && Valid(r.at) && Minutes(reference) < Minutes(r.at) && LineAllows(p, r.at)
      && forall t :: Valid(t) && Minutes(reference) < Minutes(t) < Minutes(r.at) ==> !LineAllows(p, t)
  {
    var fields := [SpanText(p[0]), SpanText(p[1]), SpanText(p[2]), SpanText(p[3]), SpanText(p[4])];
    ghost var f;
    r, f := FallbackCronNext(fields, reference);
    LineIsReadable(p, fields);
    if r.Found? {
      ghost var k: nat :| k <= WINDOW && FirstMatch(f, reference, k) && r.at == Later(reference, k);
      LineFound(p, fields, f, reference, k, reference);
      forall t | Valid(t) && Minutes(reference) < Minutes(t) < Minutes(r.at) ensures !LineAllows(p, t) {
        LineFound(p, fields, f, reference, k, t);
      }
    }
  }
}
