/** The fallback cron search of the scheduler (server/app/scheduler.py): fields, day rule, and the search itself. */
module Cron {
  import opened Basics
  import opened Calendar

  // Reading a field.

  predicate Digit(c: char) {
    '0' <= c <= '9'
  }

  /** Python's int() on digits: an underscore may stand between two of them. */
  function PyNat(text: string): Option<nat> {
    if text == "" || !Digit(text[|text| - 1]) then None
    else
      var d := text[|text| - 1] as int - '0' as int;
      var front := text[..|text| - 1];
      if front == "" then Some(d)
      else
        var more := PyNat(if front[|front| - 1] == '_' then front[..|front| - 1] else front);
        if more.None? then None else Some(more.value * 10 + d)
  }

  function PyInt(text: string): Option<int> {
    if text == "" then None
    else if text[0] == '-' then
      var n := PyNat(text[1..]);
      if n.None? then None else Some(0 - (n.value as int))
    else if text[0] == '+' then
      var n := PyNat(text[1..]);
      if n.None? then None else Some(n.value)
    else
      var n := PyNat(text);
      if n.None? then None else Some(n.value)
  }

  function IndexOf(text: string, c: char): (i: nat)
    ensures i <= |text| && (i < |text| ==> text[i] == c)
  {
    if text == "" || text[0] == c then 0 else 1 + IndexOf(text[1..], c)
  }

  /** str.split(c): at least one part. */
  function Split(text: string, c: char): (parts: seq<string>)
    ensures parts != []
    decreases |text|
  {
    var i := IndexOf(text, c);
    if i == |text| then [text] else [text[..i]] + Split(text[i + 1..], c)
  }

  /** start, start + step, ... up to end */
  datatype Range = Range(start: int, end: int, step: int)

  function PartBounds(base: string, minimum: int, maximum: int): Option<(int, int)> {
    if base == "*" then Some((minimum, maximum))
    else if '-' in base then
      var i := IndexOf(base, '-');
      var start, end := PyInt(base[..i]), if i < |base| then PyInt(base[i + 1..]) else None;
      if start.None? || end.None? then None else Some((start.value, end.value))
    else
      var n := PyInt(base);
      if n.None? then None else Some((n.value, n.value))
  }

  /** One comma-separated part, or None for every error the code raises. */
  function PartRange(part: string, minimum: int, maximum: int): Option<Range> {
    if part == "" then None
    else
      var i := IndexOf(part, '/');
      var stepText := if i < |part| then part[i + 1..] else "";
      var step := if stepText == "" then Some(1) else PyInt(stepText);
      if step.None? || step.value < 1 then None
      else
        var bounds := PartBounds(part[..i], minimum, maximum);
        if bounds.None? then None
        else if bounds.value.0 < minimum || bounds.value.1 > maximum || bounds.value.0 > bounds.value.1 then None
        else Some(Range(bounds.value.0, bounds.value.1, step.value))
  }

  predicate InRange(r: Range, v: int)
    requires 1 <= r.step
  {
    r.start <= v <= r.end && (v - r.start) % r.step == 0
  }

  predicate PartAdmits(part: string, minimum: int, maximum: int, v: int) {
    var r := PartRange(part, minimum, maximum);
    r.Some? && InRange(r.value, v)
  }

  /** The values a field allows, and whether it is the plain star. */
  datatype Field = Field(values: set<int>, any: bool)

  function RangeValues(r: Range): set<int>
    requires 1 <= r.step
  {
    set v | r.start <= v <= r.end && InRange(r, v)
  }

  /** No part of the field is an error. */
  ghost predicate PartsOk(value: string, minimum: int, maximum: int) {
    forall i :: 0 <= i < |Split(value, ',')| ==> PartRange(Split(value, ',')[i], minimum, maximum).Some?
  }

  /** The field allows exactly what some part of it admits. */
  ghost predicate Reads(value: string, minimum: int, maximum: int, f: Field) {
    && PartsOk(value, minimum, maximum)
    && f.any == (value == "*")
    && forall v :: v in f.values <==>
         exists i :: 0 <= i < |Split(value, ',')| && PartAdmits(Split(value, ',')[i], minimum, maximum, v)
  }

  /** _cron_field: fails if any part does, else collects what the parts admit. */
  method CronField(value: string, minimum: int, maximum: int) returns (field: Option<Field>)
    ensures field.Some? <==> PartsOk(value, minimum, maximum)
    ensures field.Some? ==> Reads(value, minimum, maximum, field.value)
  {
    var values: set<int> := {};
    var parts := Split(value, ',');
    for i := 0 to |parts|
      invariant forall k :: 0 <= k < i ==> PartRange(parts[k], minimum, maximum).Some?
      invariant forall v :: v in values <==> exists k :: 0 <= k < i && PartAdmits(parts[k], minimum, maximum, v)
    {
      var range := PartRange(parts[i], minimum, maximum);
      if range.None? {
        assert PartRange(Split(value, ',')[i], minimum, maximum).None?;
        return None;
      }
      var added := RangeValues(range.value);
      assert forall v :: v in added <==> PartAdmits(parts[i], minimum, maximum, v);
      values := values + added;
    }
    field := Some(Field(values, value == "*"));
  }

  // Matching.

  datatype Fields = Fields(minute: Field, hour: Field, day: Field, month: Field, weekday: Field)

  /** The code's day test. */
  predicate DayOk(f: Fields, s: Stamp) {
    var dayMatches := s.day in f.day.values;
    var weekdayMatches := Weekday(Day(s)) in f.weekday.values;
    if !f.day.any && !f.weekday.any then dayMatches || weekdayMatches
    else if f.day.any then weekdayMatches else dayMatches
  }

  predicate Matches(f: Fields, s: Stamp) {
    s.minute in f.minute.values && s.hour in f.hour.values && s.month in f.month.values && DayOk(f, s)
  }

  ghost predicate FieldOk(f: Field, minimum: int, maximum: int) {
    && (exists v :: v in f.values)
    && (forall v :: v in f.values ==> minimum <= v <= maximum)
    && (f.any ==> forall v :: minimum <= v <= maximum ==> v in f.values)
  }

  ghost predicate FieldsOk(f: Fields) {
    && FieldOk(f.minute, 0, 59) && FieldOk(f.hour, 0, 23) && FieldOk(f.day, 1, 31)
    && FieldOk(f.month, 1, 12) && FieldOk(f.weekday, 0, 6)
  }

  /** Every field that is read without an error is nonempty, within its bounds, and full if it is a star. */
  lemma FieldThatParsesIsOk(value: string, minimum: int, maximum: int, f: Field)
    requires minimum <= maximum && Reads(value, minimum, maximum, f)
    ensures FieldOk(f, minimum, maximum)
  {
    FirstPartAdmits(value, minimum, maximum, f);
    ReadInBounds(value, minimum, maximum, f);
    if value == "*" {
      StarReadsFull(minimum, maximum, f);
    }
  }

  lemma FirstPartAdmits(value: string, minimum: int, maximum: int, f: Field)
    requires minimum <= maximum && Reads(value, minimum, maximum, f)
    ensures exists v :: v in f.values
  {
    var parts := Split(value, ',');
    var start := PartRange(parts[0], minimum, maximum).value.start;
    assert PartAdmits(parts[0], minimum, maximum, start);
    assert start in f.values;
  }

  lemma ReadInBounds(value: string, minimum: int, maximum: int, f: Field)
    requires Reads(value, minimum, maximum, f)
    ensures forall v :: v in f.values ==> minimum <= v <= maximum
  {
    var parts := Split(value, ',');
    forall v | v in f.values ensures minimum <= v <= maximum {
      var i :| 0 <= i < |parts| && PartAdmits(parts[i], minimum, maximum, v);
      AdmittedInBounds(parts[i], minimum, maximum, v);
    }
  }

  lemma StarReadsFull(minimum: int, maximum: int, f: Field)
    requires minimum <= maximum && Reads("*", minimum, maximum, f)
    ensures forall v :: minimum <= v <= maximum ==> v in f.values
  {
    StarIsFull(minimum, maximum);
    forall v | minimum <= v <= maximum ensures v in f.values {
      assert PartAdmits(Split("*", ',')[0], minimum, maximum, v);
    }
  }

  lemma AdmittedInBounds(part: string, minimum: int, maximum: int, v: int)
    requires PartAdmits(part, minimum, maximum, v)
    ensures minimum <= v <= maximum
  {
  }

  lemma StarIsFull(minimum: int, maximum: int)
    requires minimum <= maximum
    ensures Split("*", ',') == ["*"] && PartRange("*", minimum, maximum) == Some(Range(minimum, maximum, 1))
  {
    assert IndexOf("*", ',') == 1 && IndexOf("*", '/') == 1;
    assert "*"[..1] == "*";
  }

  /** The code's test of day and weekday: with both restricted either may match, otherwise both have to. */
  lemma DayRule(f: Fields, s: Stamp)
    requires FieldsOk(f) && Valid(s)
    ensures DayOk(f, s) <==>
      if !f.day.any && !f.weekday.any
      then s.day in f.day.values || Weekday(Day(s)) in f.weekday.values
      else s.day in f.day.values && Weekday(Day(s)) in f.weekday.values
  {
    MonthTable(s.year);
    assert 0 <= Weekday(Day(s)) <= 6;
  }

  // Against the standard.

  /**
   * A weekday by number: Monday is 0 with shift 0, as the code counts, and Sunday is 0 with shift 1, as
   * crontab does.
   */
  function WeekdayNumber(s: Stamp, shift: int): int {
    (Weekday(Day(s)) + shift) % 7
  }

  /**
   * The days of the INPUT FILES section of crontab in IEEE Std 1003.1-2017: month and day of month belong together;
   * a restricted weekday stands alone if both of them are stars, and is an alternative to them otherwise.
   */
  predicate StandardDay(f: Fields, s: Stamp, shift: int) {
    var dateMatches := s.month in f.month.values && s.day in f.day.values;
    var weekdayMatches := WeekdayNumber(s, shift) in f.weekday.values;
    if f.weekday.any then dateMatches
    else if f.month.any && f.day.any then weekdayMatches
    else dateMatches || weekdayMatches
  }

  /** The days on which the search may find something. */
  predicate CodeDay(f: Fields, s: Stamp) {
    s.month in f.month.values && DayOk(f, s)
  }

  ghost predicate Agree(f: Fields, shift: int) {
    forall s :: Valid(s) ==> (CodeDay(f, s) <==> StandardDay(f, s, shift))
  }

  ghost predicate Full(f: Field, minimum: int, maximum: int) {
    forall v :: minimum <= v <= maximum ==> v in f.values
  }

  lemma WeekdayRange(s: Stamp)
    ensures 0 <= Weekday(Day(s)) < 7 && WeekdayNumber(s, 0) == Weekday(Day(s))
    ensures WeekdayNumber(s, 1) == if Weekday(Day(s)) == 6 then 0 else Weekday(Day(s)) + 1
  {
  }

  lemma ValidDay(s: Stamp)
    requires Valid(s)
    ensures 1 <= s.day <= 31
  {
    MonthTable(s.year);
  }

  /** A day of the month, on the weekday asked for. */
  lemma DayInMonth(month: int, w: int) returns (s: Stamp)
    requires 1 <= month <= 12 && 0 <= w < 7
    ensures Valid(s) && s.month == month && Weekday(Day(s)) == w
  {
    var day := WeekdayInMonth(2001, month, w);
    MonthTable(2001);
    s := Stamp(2001, month, day, 0, 0);
  }

  /** A year whose first day is this weekday. */
  lemma JanuaryFrom(k: int) returns (year: int)
    requires 0 <= k < 7
    ensures 1 <= year && DaysBeforeMonth(year, 1) == 0 && Weekday(Ordinal(year, 1, 1)) == k
  {
    if k == 0 { year := 2001; }
    else if k == 1 { year := 2002; }
    else if k == 2 { year := 2003; }
    else if k == 3 { year := 2004; }
    else if k == 4 { year := 2010; }
    else if k == 5 { year := 2005; }
    else { year := 2006; }
    assert DaysBeforeMonth(year, 1) == 0;
  }

  /** A day with this number, on the weekday asked for: some January begins on every weekday. */
  lemma DayOnWeekday(day: int, w: int) returns (s: Stamp)
    requires 1 <= day <= 31 && 0 <= w < 7
    ensures Valid(s) && s.day == day && Weekday(Day(s)) == w
  {
    var year := JanuaryFrom((w - (day - 1)) % 7);
    s := Stamp(year, 1, day, 0, 0);
    assert Ordinal(year, 1, day) == Ordinal(year, 1, 1) + (day - 1);
    Congruent(Ordinal(year, 1, 1), day - 1, w);
  }

  lemma Congruent(ordinal: int, days: int, w: int)
    requires 0 <= w < 7 && Weekday(ordinal) == (w - days) % 7
    ensures Weekday(ordinal + days) == w
  {
    var a, b := (ordinal + 6) / 7, (w - days) / 7;
    assert ordinal + 6 == 7 * a + Weekday(ordinal) && w - days == 7 * b + Weekday(ordinal);
    assert ordinal + days + 6 == 7 * (a - b) + w;
  }

  /** With weekdays renumbered, the code's days are the standard's exactly for these lines. */
  lemma RenumberedAgreesIff(f: Fields)
    requires FieldsOk(f)
    ensures Agree(f, 0) <==>
      || f.month.any || f.weekday.any
      || (Full(f.month, 1, 12) && (!f.day.any || Full(f.weekday, 0, 6)))
  {
    if f.month.any || f.weekday.any || (Full(f.month, 1, 12) && (!f.day.any || Full(f.weekday, 0, 6))) {
      forall s | Valid(s) ensures CodeDay(f, s) <==> StandardDay(f, s, 0) {
        WeekdayRange(s);
        ValidDay(s);
      }
    } else if !Full(f.month, 1, 12) {
      MonthMakesADifference(f, 0);
    } else {
      var v :| 0 <= v <= 6 && v !in f.weekday.values;
      var s := DayInMonth(1, v);
      WeekdayRange(s);
      ValidDay(s);
      assert StandardDay(f, s, 0) && !CodeDay(f, s);
    }
  }

  /** In a month that is left out, the standard still allows the weekdays of the line. */
  lemma MonthMakesADifference(f: Fields, shift: int)
    requires FieldsOk(f) && !Full(f.month, 1, 12) && !f.weekday.any && (shift == 0 || shift == 1)
    ensures !Agree(f, shift)
  {
    var month :| 1 <= month <= 12 && month !in f.month.values;
    var w :| w in f.weekday.values;
    var s := DayInMonth(month, if shift == 0 then w else if w == 0 then 6 else w - 1);
    WeekdayRange(s);
    assert StandardDay(f, s, shift) && !CodeDay(f, s);
  }

  /** Weekdays that are neither none nor all are not the same a day later. */
  lemma NotTheSameADayLater(values: set<int>) returns (v: int)
    requires (exists w :: 0 <= w < 7 && w in values) && (exists w :: 0 <= w < 7 && w !in values)
    ensures 0 <= v < 7 && (v in values <==> (if v == 6 then 0 else v + 1) !in values)
  {
    v := 0;
    while v < 6 && (v in values <==> v + 1 in values)
      invariant 0 <= v <= 6 && forall w :: 0 <= w <= v ==> (w in values <==> 0 in values)
    {
      v := v + 1;
    }
  }

  /** The same line, read by the code and by the standard, names the same days exactly in these cases. */
  lemma SameLineAgreesIff(f: Fields)
    requires FieldsOk(f)
    ensures Agree(f, 1) <==>
      || f.weekday.any
      || (Full(f.month, 1, 12) && (Full(f.weekday, 0, 6) || (!f.day.any && Full(f.day, 1, 31))))
  {
    if f.weekday.any || (Full(f.month, 1, 12) && (Full(f.weekday, 0, 6) || (!f.day.any && Full(f.day, 1, 31)))) {
      forall s | Valid(s) ensures CodeDay(f, s) <==> StandardDay(f, s, 1) {
        WeekdayRange(s);
        ValidDay(s);
      }
    } else if !Full(f.month, 1, 12) {
      MonthMakesADifference(f, 1);
    } else {
      NumberingMakesADifference(f);
    }
  }

  lemma NumberingMakesADifference(f: Fields)
    requires FieldsOk(f) && Full(f.month, 1, 12) && !f.weekday.any && !Full(f.weekday, 0, 6)
    requires f.day.any || !Full(f.day, 1, 31)
    ensures !Agree(f, 1)
  {
    var v := NotTheSameADayLater(f.weekday.values);
    var s;
    if !f.day.any {
      var day :| 1 <= day <= 31 && day !in f.day.values;
      s := DayOnWeekday(day, v);
    } else {
      if !f.month.any {
        v :| 0 <= v < 7 && v !in f.weekday.values;
      }
      s := DayInMonth(1, v);
    }
    WeekdayRange(s);
    ValidDay(s);
    assert CodeDay(f, s) <==> !StandardDay(f, s, 1);
  }

  // A line on which the two differ: midnight on 15 January and on weekday 0.

  const DIFFERS: seq<string> := ["0", "0", "15", "1", "0"]

  function Only(v: int): Field {
    Field({v}, false)
  }

  lemma PlainNumber(text: string, minimum: int, maximum: int, n: int)
    requires PyInt(text) == Some(n) && minimum <= n <= maximum && text != "" && text != "*"
    requires ',' !in text && '/' !in text && '-' !in text
    ensures Reads(text, minimum, maximum, Only(n))
  {
    NotFound(text, ',');
    NotFound(text, '/');
    assert text[..|text|] == text;
    assert Split(text, ',') == [text] && PartRange(text, minimum, maximum) == Some(Range(n, n, 1));
    forall v ensures v in Only(n).values <==>
      exists i :: 0 <= i < |Split(text, ',')| && PartAdmits(Split(text, ',')[i], minimum, maximum, v)
    {
      assert PartAdmits(Split(text, ',')[0], minimum, maximum, v) <==> v == n;
    }
  }

  lemma {:induction false} NotFound(text: string, c: char)
    requires c !in text
    ensures IndexOf(text, c) == |text|
  {
    if text != "" { NotFound(text[1..], c); }
  }

  lemma Digits()
    ensures PyInt("0") == Some(0) && PyInt("1") == Some(1) && PyInt("15") == Some(15)
  {
    assert "0"[..0] == "" && "1"[..0] == "" && "15"[..1] == "1";
    assert PyNat("0") == Some(0) && PyNat("1") == Some(1) && PyNat("15") == Some(15);
  }

  /**
   * Monday 2 February 2026 is a day of this line in the standard's sense even with weekdays renumbered, and not one
   * of the code's; read as it stands, the standard means Sunday 1 February, and not Monday 5 January, which
   * the code finds.
   */
  lemma StandardDiffersOnALine()
    ensures var f := Fields(Only(0), Only(0), Only(15), Only(1), Only(0));
      && Parses(DIFFERS, f)
      && Valid(Stamp(2026, 2, 2, 0, 0)) && Valid(Stamp(2026, 2, 1, 0, 0)) && Valid(Stamp(2026, 1, 5, 0, 0))
      && StandardDay(f, Stamp(2026, 2, 2, 0, 0), 0) && !Matches(f, Stamp(2026, 2, 2, 0, 0))
      && StandardDay(f, Stamp(2026, 2, 1, 0, 0), 1) && !Matches(f, Stamp(2026, 2, 1, 0, 0))
      && !StandardDay(f, Stamp(2026, 1, 5, 0, 0), 1) && Matches(f, Stamp(2026, 1, 5, 0, 0))
  {
    var f := Fields(Only(0), Only(0), Only(15), Only(1), Only(0));
    Digits();
    forall i | 0 <= i < 5 ensures Reads(DIFFERS[i], MINIMUMS[i], MAXIMUMS[i], FieldAt(f, i)) {
      PlainNumber(DIFFERS[i], MINIMUMS[i], MAXIMUMS[i], [0, 0, 15, 1, 0][i]);
    }
    assert DaysBeforeMonth(2026, 1) == 0 && DaysBeforeMonth(2026, 2) == 31;
    assert Weekday(Day(Stamp(2026, 2, 2, 0, 0))) == 0 && Weekday(Day(Stamp(2026, 2, 1, 0, 0))) == 6;
    assert Weekday(Day(Stamp(2026, 1, 5, 0, 0))) == 0;
  }

  // The search.

  const WINDOW: nat := 366 * 24 * 60 * 2

  datatype Search = Found(at: Stamp) | BadFields | NoOccurrence

  /** `n` minutes after the reference is the first match. */
  ghost predicate FirstMatch(f: Fields, reference: Stamp, n: nat) {
    1 <= n && Matches(f, Later(reference, n)) && forall m: nat :: 1 <= m < n ==> !Matches(f, Later(reference, m))
  }

  ghost predicate NoMatchUpTo(f: Fields, reference: Stamp, n: nat) {
    forall m: nat :: 1 <= m <= n ==> !Matches(f, Later(reference, m))
  }

  /** The loop of _fallback_cron_next; `reference` has its seconds cut off already. */
  method SearchFrom(f: Fields, reference: Stamp) returns (r: Search)
    ensures !r.BadFields?
    ensures r.Found? ==> exists n: nat :: n <= WINDOW && FirstMatch(f, reference, n) && r.at == Later(reference, n)
    ensures r.NoOccurrence? ==> NoMatchUpTo(f, reference, WINDOW)
  {
    var candidate := Tick(reference);
    assert Later(reference, 0) == reference;
    for n := 1 to WINDOW + 1
      invariant candidate == Later(reference, n)
      invariant NoMatchUpTo(f, reference, n - 1)
    {
      if Matches(f, candidate) {
        assert FirstMatch(f, reference, n);
        return Found(candidate);
      }
      candidate := Tick(candidate);
    }
    r := NoOccurrence;
  }

  const MINIMUMS: seq<int> := [0, 0, 1, 1, 0]
  const MAXIMUMS: seq<int> := [59, 23, 31, 12, 6]

  function FieldAt(f: Fields, i: nat): Field
    requires i < 5
  {
    [f.minute, f.hour, f.day, f.month, f.weekday][i]
  }

  /** Five texts, none of which holds an error. */
  ghost predicate Readable(fields: seq<string>) {
    |fields| == 5 && forall i :: 0 <= i < 5 ==> PartsOk(fields[i], MINIMUMS[i], MAXIMUMS[i])
  }

  ghost predicate Parses(fields: seq<string>, f: Fields) {
    |fields| == 5 && forall i :: 0 <= i < 5 ==> Reads(fields[i], MINIMUMS[i], MAXIMUMS[i], FieldAt(f, i))
  }

  lemma ParsedFieldsAreOk(fields: seq<string>, f: Fields)
    requires Parses(fields, f)
    ensures FieldsOk(f)
  {
    forall i | 0 <= i < 5 ensures FieldOk(FieldAt(f, i), MINIMUMS[i], MAXIMUMS[i]) {
      FieldThatParsesIsOk(fields[i], MINIMUMS[i], MAXIMUMS[i], FieldAt(f, i));
    }
    assert FieldAt(f, 0) == f.minute && FieldAt(f, 1) == f.hour && FieldAt(f, 2) == f.day;
    assert FieldAt(f, 3) == f.month && FieldAt(f, 4) == f.weekday;
  }

  lemma ReadsIsUnique(value: string, minimum: int, maximum: int, f: Field, g: Field)
    requires Reads(value, minimum, maximum, f) && Reads(value, minimum, maximum, g)
    ensures f == g
  {
    assert forall v :: v in f.values <==> v in g.values;
    assert f.values == g.values;
  }

  /** The texts determine the fields. */
  lemma ParseIsUnique(fields: seq<string>, f: Fields, g: Fields)
    requires Parses(fields, f) && Parses(fields, g)
    ensures f == g
  {
    forall i | 0 <= i < 5 ensures FieldAt(f, i) == FieldAt(g, i) {
      ReadsIsUnique(fields[i], MINIMUMS[i], MAXIMUMS[i], FieldAt(f, i), FieldAt(g, i));
    }
    assert FieldAt(f, 0) == f.minute && FieldAt(f, 1) == f.hour && FieldAt(f, 2) == f.day;
    assert FieldAt(f, 3) == f.month && FieldAt(f, 4) == f.weekday;
    assert FieldAt(g, 0) == g.minute && FieldAt(g, 1) == g.hour && FieldAt(g, 2) == g.day;
    assert FieldAt(g, 3) == g.month && FieldAt(g, 4) == g.weekday;
  }

  method FallbackCronNext(fields: seq<string>, reference: Stamp) returns (r: Search, ghost f: Fields)
    requires Valid(reference)
    ensures r.BadFields? <==> !Readable(fields)
    ensures !r.BadFields? ==> Parses(fields, f) && FieldsOk(f)
    ensures r.Found? ==> exists n: nat :: n <= WINDOW && FirstMatch(f, reference, n) && r.at == Later(reference, n)
    ensures r.NoOccurrence? ==> NoMatchUpTo(f, reference, WINDOW)
  {
    var empty := Field({}, false);
    f := Fields(empty, empty, empty, empty, empty);
    if |fields| != 5 {
      return BadFields, f;
    }
    var read: seq<Field> := [];
    for i := 0 to 5
      invariant |read| == i
      invariant forall k :: 0 <= k < i ==> Reads(fields[k], MINIMUMS[k], MAXIMUMS[k], read[k])
    {
      var field := CronField(fields[i], MINIMUMS[i], MAXIMUMS[i]);
      if field.None? {
        return BadFields, f;
      }
      read := read + [field.value];
    }
    var parsed := Fields(read[0], read[1], read[2], read[3], read[4]);
    f := parsed;
    assert forall k :: 0 <= k < 5 ==> FieldAt(f, k) == read[k];
    ParsedFieldsAreOk(fields, f);
    r := SearchFrom(parsed, reference);
  }

  /** What is found is the earliest minute of all after the reference that matches. */
  lemma FoundIsEarliest(f: Fields, reference: Stamp, n: nat, t: Stamp)
    requires Valid(reference) && FirstMatch(f, reference, n)
    requires Valid(t) && Matches(f, t) && Minutes(reference) < Minutes(t)
    ensures Minutes(Later(reference, n)) <= Minutes(t)
  {
    LaterMinutes(reference, n);
    ReachedByTicking(reference, t);
  }

  /** The search fails exactly when no minute of its 732 days matches. */
  lemma FailsIffWindowIsEmpty(f: Fields, reference: Stamp)
    requires Valid(reference)
    ensures NoMatchUpTo(f, reference, WINDOW) <==>
      forall t :: Valid(t) && Minutes(reference) < Minutes(t) <= Minutes(reference) + WINDOW ==> !Matches(f, t)
  {
    if NoMatchUpTo(f, reference, WINDOW) {
      forall t | Valid(t) && Minutes(reference) < Minutes(t) <= Minutes(reference) + WINDOW ensures !Matches(f, t) {
        ReachedByTicking(reference, t);
      }
    } else {
      var m: nat :| 1 <= m <= WINDOW && Matches(f, Later(reference, m));
      LaterMinutes(reference, m);
    }
  }

  /** The fields admit a day that exists in every year. */
  ghost predicate EveryYear(f: Fields) {
    f.day.any || !f.weekday.any ||
    exists m, d :: m in f.month.values && d in f.day.values && d <= MonthDays(1, m)
  }

  /** A day of the given year that the fields admit. */
  lemma MatchInYear(f: Fields, year: int) returns (t: Stamp)
    requires FieldsOk(f) && EveryYear(f) && 1 <= year
    ensures Valid(t) && t.year == year && Matches(f, t)
  {
    var hour :| hour in f.hour.values;
    var minute :| minute in f.minute.values;
    if f.day.any || !f.weekday.any {
      var month :| month in f.month.values;
      var w :| w in f.weekday.values;
      var day := WeekdayInMonth(year, month, w);
      MonthTable(year);
      t := Stamp(year, month, day, hour, minute);
    } else {
      var month, day :| month in f.month.values && day in f.day.values && day <= MonthDays(1, month);
      assert day <= MonthDays(year, month);
      t := Stamp(year, month, day, hour, minute);
    }
  }

  /** The 732 days after any minute contain all of the following calendar year. */
  lemma WindowHoldsNextYear(reference: Stamp, t: Stamp)
    requires Valid(reference) && Valid(t) && t.year == reference.year + 1
    ensures Minutes(reference) < Minutes(t) <= Minutes(reference) + WINDOW
  {
    DayInYear(reference);
    DayInYear(t);
    YearLength(reference.year);
  }

  lemma NeverFails(f: Fields, reference: Stamp)
    requires FieldsOk(f) && EveryYear(f) && Valid(reference)
    ensures !NoMatchUpTo(f, reference, WINDOW)
  {
    var t := MatchInYear(f, reference.year + 1);
    WindowHoldsNextYear(reference, t);
    FailsIffWindowIsEmpty(f, reference);
  }

  const NEW_YEAR_2025 := Stamp(2025, 1, 1, 0, 0)

  /** Fields that ask for a day no common year has find nothing in 2025, 2026 and the first days of 2027. */
  lemma FailsFrom2025(f: Fields)
    requires FieldsOk(f) && !EveryYear(f)
    ensures NoMatchUpTo(f, NEW_YEAR_2025, WINDOW)
  {
    forall t | Valid(t) && Minutes(NEW_YEAR_2025) < Minutes(t) <= Minutes(NEW_YEAR_2025) + WINDOW
      ensures !Matches(f, t)
    {
      DayInYear(t);
      DayInYear(NEW_YEAR_2025);
      assert Day(t) <= Day(NEW_YEAR_2025) + 733;
      if t.year < 2025 {
        DaysBeforeYearGrow(t.year, 2025);
      } else if 2028 <= t.year {
        YearLength(2025);
        YearLength(2026);
        YearLength(2027);
        if 2028 < t.year { DaysBeforeYearGrow(2028, t.year); }
      }
      assert t.day <= MonthDays(1, t.month);
    }
    FailsIffWindowIsEmpty(f, NEW_YEAR_2025);
  }

  /** The search succeeds from every reference exactly when the fields admit a day that exists in every year. */
  lemma NeverFailsIff(f: Fields)
    requires FieldsOk(f)
    ensures EveryYear(f) <==> forall reference :: Valid(reference) ==> !NoMatchUpTo(f, reference, WINDOW)
  {
    if EveryYear(f) {
      forall reference | Valid(reference) ensures !NoMatchUpTo(f, reference, WINDOW) {
        NeverFails(f, reference);
      }
    } else {
      FailsFrom2025(f);
    }
  }
}
