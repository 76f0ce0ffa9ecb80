/** Wall-clock minutes of the proleptic Gregorian calendar, as Python's datetime counts them. */
module Calendar {

  predicate Leap(year: int) {
    year % 4 == 0 && (year % 100 != 0 || year % 400 == 0)
  }

  function MonthDays(year: int, month: int): int {
    if month == 2 then (if Leap(year) then 29 else 28)
    else if month == 4 || month == 6 || month == 9 || month == 11 then 30
    else 31
  }

  function YearDays(year: int): int {
    if Leap(year) then 366 else 365
  }

  /** A wall-clock minute. */
  datatype Stamp = Stamp(year: int, month: int, day: int, hour: int, minute: int)

  predicate Valid(s: Stamp) {
    && 1 <= s.year && 1 <= s.month <= 12 && 1 <= s.day <= MonthDays(s.year, s.month)
    && 0 <= s.hour < 24 && 0 <= s.minute < 60
  }

  /** Days from 1 January of year 1 to 1 January of `year`. */
  function DaysBeforeYear(year: int): int {
    365 * (year - 1) + (year - 1) / 4 - (year - 1) / 100 + (year - 1) / 400
  }

  function DaysBeforeMonth(year: int, month: int): int
    decreases month
  {
    if month <= 1 then 0 else DaysBeforeMonth(year, month - 1) + MonthDays(year, month - 1)
  }

  /** date.toordinal: 1 January of year 1 is day 1. */
  function Ordinal(year: int, month: int, day: int): int {
    DaysBeforeYear(year) + DaysBeforeMonth(year, month) + day
  }

  /** date.weekday: Monday is 0. */
  function Weekday(ordinal: int): int {
    (ordinal + 6) % 7
  }

  function Day(s: Stamp): int {
    Ordinal(s.year, s.month, s.day)
  }

  /** The minute on a line that counts every minute. */
  function Minutes(s: Stamp): int {
    Day(s) * 1440 + s.hour * 60 + s.minute
  }

  /** The next minute, with every carry. */
  function Tick(s: Stamp): Stamp {
    if s.minute < 59 then s.(minute := s.minute + 1)
    else if s.hour < 23 then s.(hour := s.hour + 1, minute := 0)
    else if s.day < MonthDays(s.year, s.month) then s.(day := s.day + 1, hour := 0, minute := 0)
    else if s.month < 12 then Stamp(s.year, s.month + 1, 1, 0, 0)
    else Stamp(s.year + 1, 1, 1, 0, 0)
  }

  function Later(s: Stamp, n: nat): Stamp {
    if n == 0 then s else Tick(Later(s, n - 1))
  }

  /** Some days by their numbers, and the days of the week they fell on: Thursday, Saturday and Wednesday. */
  lemma KnownDays()
    ensures Ordinal(1970, 1, 1) == 719163 && Weekday(719163) == 3
    ensures Ordinal(2000, 1, 1) == 730120 && Weekday(730120) == 5
    ensures Ordinal(2000, 3, 1) == 730180 && Weekday(730180) == 2
  {
    assert DaysBeforeMonth(1970, 1) == 0 && DaysBeforeMonth(2000, 1) == 0;
    assert DaysBeforeMonth(2000, 2) == 31 && DaysBeforeMonth(2000, 3) == 60;
  }

  lemma YearLength(year: int)
    requires 1 <= year
    ensures DaysBeforeYear(year + 1) == DaysBeforeYear(year) + YearDays(year)
  {
    Quotient(year, 4);
    Quotient(year, 100);
    Quotient(year, 400);
    Multiples(year);
    LeapDays(year / 4, year / 100, year / 400, (year - 1) / 4, (year - 1) / 100, (year - 1) / 400,
             year % 4 == 0, year % 100 == 0, year % 400 == 0);
  }

  lemma Multiples(year: int)
    ensures year % 400 == 0 ==> year % 100 == 0
    ensures year % 100 == 0 ==> year % 4 == 0
  {
    if year % 400 == 0 { Hundreds(year, 4 * (year / 400)); }
    if year % 100 == 0 { Fours(year, 25 * (year / 100)); }
  }

  lemma Hundreds(year: int, q: int)
    requires year == 100 * q
    ensures year % 100 == 0
  {
  }

  lemma Fours(year: int, q: int)
    requires year == 4 * q
    ensures year % 4 == 0
  {
  }

  lemma LeapDays(a: int, b: int, c: int, a0: int, b0: int, c0: int, by4: bool, by100: bool, by400: bool)
    requires a == a0 + (if by4 then 1 else 0) && b == b0 + (if by100 then 1 else 0)
    requires c == c0 + (if by400 then 1 else 0)
    requires (by400 ==> by100) && (by100 ==> by4)
    ensures a - b + c == a0 - b0 + c0 + (if by4 && (!by100 || by400) then 1 else 0)
  {
  }

  lemma Quotient(year: int, n: int)
    requires 1 <= year && (n == 4 || n == 100 || n == 400)
    ensures year / n == (year - 1) / n + (if year % n == 0 then 1 else 0)
  {
  }

  lemma MonthTable(year: int)
    ensures DaysBeforeMonth(year, 13) == YearDays(year)
    ensures forall m :: 1 <= m <= 12 ==> 28 <= MonthDays(year, m) <= 31
  {
    assert DaysBeforeMonth(year, 2) == 31;
    assert DaysBeforeMonth(year, 3) == 31 + MonthDays(year, 2);
    assert DaysBeforeMonth(year, 4) == DaysBeforeMonth(year, 3) + 31;
    assert DaysBeforeMonth(year, 5) == DaysBeforeMonth(year, 3) + 61;
    assert DaysBeforeMonth(year, 6) == DaysBeforeMonth(year, 3) + 92;
    assert DaysBeforeMonth(year, 7) == DaysBeforeMonth(year, 3) + 122;
    assert DaysBeforeMonth(year, 8) == DaysBeforeMonth(year, 3) + 153;
    assert DaysBeforeMonth(year, 9) == DaysBeforeMonth(year, 3) + 184;
    assert DaysBeforeMonth(year, 10) == DaysBeforeMonth(year, 3) + 214;
    assert DaysBeforeMonth(year, 11) == DaysBeforeMonth(year, 3) + 245;
    assert DaysBeforeMonth(year, 12) == DaysBeforeMonth(year, 3) + 275;
  }

  /** The first of the next month, or of the next year, follows the last day of the month. */
  lemma NextMonth(year: int, month: int)
    requires 1 <= year && 1 <= month <= 12
    ensures if month < 12 then Ordinal(year, month + 1, 1) == Ordinal(year, month, MonthDays(year, month)) + 1
            else Ordinal(year + 1, 1, 1) == Ordinal(year, 12, 31) + 1
  {
    MonthTable(year);
    YearLength(year);
  }

  lemma TickIsNextMinute(s: Stamp)
    requires Valid(s)
    ensures Valid(Tick(s)) && Minutes(Tick(s)) == Minutes(s) + 1
  {
    var t := Tick(s);
    if s.minute < 59 || s.hour < 23 {
      assert Day(t) == Day(s);
    } else if s.day < MonthDays(s.year, s.month) {
      assert Day(t) == Day(s) + 1;
    } else {
      NextMonth(s.year, s.month);
      assert Day(t) == Day(s) + 1;
      assert 28 <= MonthDays(t.year, t.month);
    }
  }

  lemma {:induction false} LaterMinutes(s: Stamp, n: nat)
    requires Valid(s)
    ensures Valid(Later(s, n)) && Minutes(Later(s, n)) == Minutes(s) + n
  {
    if n > 0 {
      LaterMinutes(s, n - 1);
      TickIsNextMinute(Later(s, n - 1));
    }
  }

  lemma {:induction false} DaysBeforeMonthGrow(year: int, a: int, b: int)
    requires 1 <= a <= b <= 13
    ensures DaysBeforeMonth(year, a) <= DaysBeforeMonth(year, b)
    ensures a < b ==> DaysBeforeMonth(year, a) + MonthDays(year, a) <= DaysBeforeMonth(year, b)
    decreases b - a
  {
    if a < b {
      DaysBeforeMonthGrow(year, a + 1, b);
    }
  }

  lemma {:induction false} DaysBeforeYearGrow(a: int, b: int)
    requires 1 <= a < b
    ensures DaysBeforeYear(a) + YearDays(a) <= DaysBeforeYear(b)
    decreases b - a
  {
    YearLength(a);
    if a + 1 < b {
      DaysBeforeYearGrow(a + 1, b);
    }
  }

  /** A valid day lies within its year. */
  lemma DayInYear(s: Stamp)
    requires Valid(s)
    ensures DaysBeforeYear(s.year) < Day(s) <= DaysBeforeYear(s.year) + YearDays(s.year)
  {
    DaysBeforeMonthGrow(s.year, 1, s.month);
    DaysBeforeMonthGrow(s.year, s.month, 13);
    MonthTable(s.year);
  }

  /** The line of minutes determines the stamp. */
  lemma MinutesDetermine(s: Stamp, t: Stamp)
    requires Valid(s) && Valid(t) && Minutes(s) == Minutes(t)
    ensures s == t
  {
    assert Day(s) == Day(t) && s.hour == t.hour && s.minute == t.minute;
    DayInYear(s);
    DayInYear(t);
    if s.year < t.year {
      DaysBeforeYearGrow(s.year, t.year);
    } else if t.year < s.year {
      DaysBeforeYearGrow(t.year, s.year);
    } else if s.month < t.month {
      DaysBeforeMonthGrow(s.year, s.month, t.month);
    } else if t.month < s.month {
      DaysBeforeMonthGrow(s.year, t.month, s.month);
    }
  }

  /** Every later valid stamp is reached by ticking. */
  lemma ReachedByTicking(s: Stamp, t: Stamp)
    requires Valid(s) && Valid(t) && Minutes(s) <= Minutes(t)
    ensures Later(s, Minutes(t) - Minutes(s)) == t
  {
    LaterMinutes(s, Minutes(t) - Minutes(s));
    MinutesDetermine(Later(s, Minutes(t) - Minutes(s)), t);
  }

  lemma WeekdayLater(ordinal: int, days: int)
    requires 0 <= days < 7
    ensures Weekday(ordinal + days) ==
      if Weekday(ordinal) + days < 7 then Weekday(ordinal) + days
      else Weekday(ordinal) + days - 7
  {
    var weeks := (ordinal + 6) / 7;
    assert ordinal + 6 == 7 * weeks + Weekday(ordinal);
  }

  /** Within the first 28 days of a month every weekday occurs. */
  lemma WeekdayInMonth(year: int, month: int, w: int) returns (day: int)
    requires 0 <= w < 7
    ensures 1 <= day <= 7 && Weekday(Ordinal(year, month, day)) == w
  {
    var first := Weekday(Ordinal(year, month, 1));
    day := 1 + (if w >= first then w - first else w - first + 7);
    assert Ordinal(year, month, day) == Ordinal(year, month, 1) + day - 1;
    WeekdayLater(Ordinal(year, month, 1), day - 1);
  }
}
