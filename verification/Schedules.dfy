/** Daily, weekly and cron schedules on the wall clock of a zone with a fixed offset (server/app/scheduler.py). */
module Schedules {
  import opened Basics
  import opened Calendar
  import Cron

  // Instants and wall-clock times are counted in microseconds.
  const MINUTE := 60_000_000
  const DAY := 1440 * MINUTE

  datatype Schedule =
    | Daily(hour: int, minute: int)
    | Weekly(weekday: int, hour: int, minute: int)
    | CronLine(fields: seq<string>)

  /** A wall-clock time: a minute and the microseconds since it began. */
  datatype Wall = Wall(stamp: Stamp, rest: int)

  predicate WallOk(w: Wall) {
    Valid(w.stamp) && 0 <= w.rest < MINUTE
  }

  function Time(w: Wall): int {
    Minutes(w.stamp) * MINUTE + w.rest
  }

  /** What validate_schedule accepts of a daily or weekly schedule. */
  predicate ClockOk(s: Schedule) {
    !s.CronLine? && 0 <= s.hour < 24 && 0 <= s.minute < 60 && (s.Weekly? ==> 0 <= s.weekday < 7)
  }

  function Clock(s: Schedule): int
    requires !s.CronLine?
  {
    (s.hour * 60 + s.minute) * MINUTE
  }

  predicate OnDay(s: Schedule, day: int) {
    s.Weekly? ==> Weekday(day) == s.weekday
  }

  /** `t` is a wall-clock time the schedule names. */
  ghost predicate Occurs(s: Schedule, t: int) {
    if s.CronLine? then
      exists f, at :: Cron.Parses(s.fields, f) && Valid(at) && Cron.Matches(f, at) && t == Minutes(at) * MINUTE
    else
      exists day :: OnDay(s, day) && t == ClockTime(s, day)
  }

  /** `t` is the first time after `after` that the schedule names. */
  ghost predicate IsNext(s: Schedule, after: int, t: int) {
    Occurs(s, t) && after < t && forall u :: after < u < t ==> !Occurs(s, u)
  }

  /** The clock time of the schedule on a day. */
  function ClockTime(s: Schedule, day: int): int
    requires !s.CronLine?
  {
    day * DAY + Clock(s)
  }

  /** The days of the schedule from `from` to before `to` come too early. */
  ghost predicate Refused(s: Schedule, after: int, from: int, to: int)
    requires !s.CronLine?
  {
    forall d :: from <= d < to && OnDay(s, d) ==> ClockTime(s, d) <= after
  }

  /** Within eight days one is both allowed and late enough. */
  lemma EightDaysSuffice(s: Schedule, after: int, today: int) returns (offset: int)
    requires ClockOk(s) && today * DAY <= after < (today + 1) * DAY
    ensures 0 <= offset < 8 && OnDay(s, today + offset) && after < ClockTime(s, today + offset)
  {
    offset := if s.Daily? then 0 else (s.weekday - Weekday(today) + 7) % 7;
    if ClockTime(s, today + offset) <= after {
      offset := offset + if s.Daily? then 1 else 7;
    }
  }

  /** No occurrence lies between `after` and the clock time of day `day` when the days before `day` were refused. */
  lemma NothingEarlier(s: Schedule, after: int, today: int, day: int)
    requires ClockOk(s) && today * DAY <= after && today <= day
    requires Refused(s, after, today, day)
    ensures forall u :: after < u < ClockTime(s, day) ==> !Occurs(s, u)
  {
    forall d | OnDay(s, d) ensures ClockTime(s, d) <= after || ClockTime(s, day) <= ClockTime(s, d) {
      if d < today {
        assert d * DAY + DAY <= today * DAY;
      }
    }
  }

  /** The eight-day scan for a daily or weekly schedule. */
  method NextClockRun(s: Schedule, reference: Wall) returns (t: Option<int>)
    requires WallOk(reference) && ClockOk(s)
    ensures t.Some? && IsNext(s, Time(reference), t.value)
    ensures OnClock(s, Time(reference), t.value)
  {
    Today(reference);
    t := Scan(s, Time(reference), Day(reference.stamp));
    if s.Daily? {
      DailyOnNumbers(s, Time(reference), t.value);
    } else {
      WeeklyOnNumbers(s, Time(reference), t.value);
    }
  }

  method Scan(s: Schedule, after: int, today: int) returns (t: Option<int>)
    requires ClockOk(s) && today * DAY <= after < (today + 1) * DAY
    ensures t.Some? && IsNext(s, after, t.value)
  {
    ghost var enough := EightDaysSuffice(s, after, today);
    for k := 0 to 8
      invariant k <= enough && Refused(s, after, today, today + k)
    {
      var candidate := ClockTime(s, today + k);
      if OnDay(s, today + k) && candidate > after {
        FirstFits(s, after, today, today + k);
        return Some(candidate);
      }
    }
    assert false;
    t := None;
  }

  lemma Today(w: Wall)
    requires WallOk(w)
    ensures Day(w.stamp) * DAY <= Time(w) < (Day(w.stamp) + 1) * DAY
  {
  }

  lemma FirstFits(s: Schedule, after: int, today: int, day: int)
    requires ClockOk(s) && today * DAY <= after && today <= day
    requires Refused(s, after, today, day) && OnDay(s, day) && after < ClockTime(s, day)
    ensures IsNext(s, after, ClockTime(s, day))
  {
    NothingEarlier(s, after, today, day);
  }

  /** This hour and minute of a day, in microseconds. */
  predicate AtClock(s: Schedule, day: int, t: int)
    requires !s.CronLine?
  {
    t == day * 86_400_000_000 + s.hour * 3_600_000_000 + s.minute * 60_000_000
  }

  /** A time at this hour and minute of some day, or weekday, after `after` by at most a day, or a week. */
  ghost predicate OnClock(s: Schedule, after: int, t: int)
    requires !s.CronLine?
  {
    if s.Daily? then (exists day :: AtClock(s, day, t)) && t - 86_400_000_000 <= after < t
    else (exists day :: (day - 1) % 7 == s.weekday && AtClock(s, day, t)) && t - 7 * 86_400_000_000 <= after < t
  }

  /** A daily schedule in numbers: the first time after `after` that is this hour and minute of some day. */
  lemma DailyOnNumbers(s: Schedule, after: int, t: int)
    requires s.Daily? && IsNext(s, after, t)
    ensures exists day :: AtClock(s, day, t)
    ensures t - 86_400_000_000 <= after < t
  {
    var day :| OnDay(s, day) && t == ClockTime(s, day);
    assert AtClock(s, day, t);
    assert OnDay(s, day - 1) && ClockTime(s, day - 1) == t - 86_400_000_000;
    assert Occurs(s, t - 86_400_000_000);
  }

  /** And a weekly one: on this day of the week, of which day 1, a Monday, is the first. */
  lemma WeeklyOnNumbers(s: Schedule, after: int, t: int)
    requires s.Weekly? && IsNext(s, after, t)
    ensures exists day :: (day - 1) % 7 == s.weekday && AtClock(s, day, t)
    ensures t - 7 * 86_400_000_000 <= after < t
  {
    var day :| OnDay(s, day) && t == ClockTime(s, day);
    assert (day - 1) % 7 == s.weekday;
    assert AtClock(s, day, t);
    assert OnDay(s, day - 7) && ClockTime(s, day - 7) == t - 7 * 86_400_000_000;
    assert Occurs(s, t - 7 * 86_400_000_000);
  }

  /** A cron schedule on the calendar: a whole minute that the line allows, and the first such after `after`. */
  lemma CronOnCalendar(s: Schedule, f: Cron.Fields, after: int, t: int)
    requires s.CronLine? && Cron.Parses(s.fields, f) && IsNext(s, after, t)
    ensures exists at :: Valid(at) && Cron.Matches(f, at) && t == Minutes(at) * 60_000_000
    ensures forall at :: Valid(at) && Cron.Matches(f, at) && after < Minutes(at) * 60_000_000 ==>
      t <= Minutes(at) * 60_000_000
  {
    var g, at :| Cron.Parses(s.fields, g) && Valid(at) && Cron.Matches(g, at) && t == Minutes(at) * MINUTE;
    Cron.ParseIsUnique(s.fields, f, g);
    forall x | Valid(x) && Cron.Matches(f, x) && after < Minutes(x) * 60_000_000 ensures t <= Minutes(x) * 60_000_000 {
      assert Occurs(s, Minutes(x) * MINUTE);
    }
  }

  /** A cron search that found something found the next occurrence. */
  lemma CronFoundIsNext(s: Schedule, f: Cron.Fields, reference: Wall, n: nat)
    requires s.CronLine? && WallOk(reference) && Cron.Parses(s.fields, f) && Cron.FirstMatch(f, reference.stamp, n)
    ensures IsNext(s, Time(reference), Minutes(Later(reference.stamp, n)) * MINUTE)
  {
    var found := Later(reference.stamp, n);
    LaterMinutes(reference.stamp, n);
    forall u | Time(reference) < u < Minutes(found) * MINUTE ensures !Occurs(s, u) {
      if Occurs(s, u) {
        var g, at :| Cron.Parses(s.fields, g) && Valid(at) && Cron.Matches(g, at) && u == Minutes(at) * MINUTE;
        Cron.ParseIsUnique(s.fields, f, g);
        Cron.FoundIsEarliest(f, reference.stamp, n, at);
      }
    }
  }

  /** The lines that next_run refuses: unreadable, or without an occurrence after `now` or after the reference. */
  ghost predicate NoNextRun(fields: seq<string>, now: Stamp, reference: Stamp) {
    || !Cron.Readable(fields)
    || exists f :: Cron.Parses(fields, f) && (Cron.NoMatchUpTo(f, now, Cron.WINDOW) || Cron.NoMatchUpTo(f, reference,
                                                                                                        Cron.WINDOW))
  }

  lemma FoundIsNotEmpty(fields: seq<string>, f: Cron.Fields, from: Stamp)
    requires Cron.Parses(fields, f) && exists n: nat :: n <= Cron.WINDOW && Cron.FirstMatch(f, from, n)
    ensures forall g :: Cron.Parses(fields, g) ==> !Cron.NoMatchUpTo(g, from, Cron.WINDOW)
  {
    forall g | Cron.Parses(fields, g) ensures g == f {
      Cron.ParseIsUnique(fields, f, g);
    }
  }

  /**
   * next_run. A cron line is searched from `now` first, since it is validated before it is used; `zone` is the
   * offset of the wall clock from UTC and `reference` the wall-clock time of the instant `after`.
   */
  method NextRun(s: Schedule, zone: int, after: int, reference: Wall, now: Wall) returns (t: Option<int>)
    requires WallOk(reference) && WallOk(now) && Time(reference) == after + zone
    requires !s.CronLine? ==> ClockOk(s)
    ensures t.Some? ==> t.value > after && IsNext(s, after + zone, t.value + zone)
    ensures !s.CronLine? ==> t.Some?
    ensures !s.CronLine? ==> OnClock(s, after + zone, t.value + zone)
    ensures s.CronLine? ==> (t.None? <==> NoNextRun(s.fields, now.stamp, reference.stamp))
  {
    if s.CronLine? {
      t := NextCronRun(s, zone, after, reference, now);
    } else {
      var local := NextClockRun(s, reference);
      t := Some(local.value - zone);
    }
  }

  method NextCronRun(s: Schedule, zone: int, after: int, reference: Wall, now: Wall) returns (t: Option<int>)
    requires WallOk(reference) && WallOk(now) && Time(reference) == after + zone && s.CronLine?
    ensures t.Some? ==> t.value > after && IsNext(s, after + zone, t.value + zone)
    ensures t.None? <==> NoNextRun(s.fields, now.stamp, reference.stamp)
  {
    var check, g := Cron.FallbackCronNext(s.fields, now.stamp);
    if check.Found? {
      FoundIsNotEmpty(s.fields, g, now.stamp);
    } else {
      return None;
    }
    var found, f := Cron.FallbackCronNext(s.fields, reference.stamp);
    if !found.Found? {
      return None;
    }
    FoundIsNotEmpty(s.fields, f, reference.stamp);
    ghost var n: nat :| n <= Cron.WINDOW && Cron.FirstMatch(f, reference.stamp, n)
                        && found.at == Later(reference.stamp, n);
    CronFoundIsNext(s, f, reference, n);
    t := Some(Minutes(found.at) * MINUTE - zone);
  }
}
