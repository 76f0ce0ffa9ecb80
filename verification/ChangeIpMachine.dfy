/**
 * The machine that changes the WARP exit address, as an object that calls the host
 * (agent/internal/warpchange/state.go).
 */
module ChangeIpMachine {
  import opened Basics
  import opened ChangeIp

  function Max(a: int, b: int): int {
    if a < b then b else a
  }

  /** Every operation ends by the time its context is done. */
  ghost predicate AllHonoured(events: seq<Event>) {
    forall e :: e in events ==> e.Honoured()
  }

  /**
   * Provided every operation honours its context, these took from `start` to `end` and, if they went on, no
   * longer than `at`.
   */
  ghost predicate Timely(events: seq<Event>, start: int, end: int, at: int) {
    start <= end && (AllHonoured(events) ==> end <= Max(start, at))
  }

  lemma TimelyChain(a: seq<Event>, b: seq<Event>, start: int, middle: int, end: int, at: int)
    requires Timely(a, start, middle, at) && Timely(b, middle, end, at)
    ensures Timely(a + b, start, end, at)
  {
    if AllHonoured(a + b) {
      assert forall e :: e in a ==> e in a + b;
      assert forall e :: e in b ==> e in a + b;
    }
  }

  lemma TimelyThen(a: seq<Event>, b: seq<Event>, start: int, middle: int, end: int, at: int, extra: nat)
    requires start <= at && Timely(a, start, middle, at) && Timely(b, middle, end, middle + extra)
    ensures Timely(a + b, start, end, at + extra)
  {
    if AllHonoured(a + b) {
      assert forall e :: e in a ==> e in a + b;
      assert forall e :: e in b ==> e in a + b;
    }
  }

  /** How long the disarms took that no deadline bounds. */
  function UnboundedTime(disarms: seq<Event>): nat {
    if disarms == [] then 0
    else UnboundedTime(disarms[..|disarms| - 1])
         + (if disarms[|disarms| - 1].context.Background? then disarms[|disarms| - 1].reply.duration else 0)
  }

  lemma StoppedEarly(a: Attempt, oldIp: string)
    requires a == Attempt(a.off, a.offWait, None, [], None, None)
    requires a.off.call.TurnOff? && Polled(a.offWait, Off) && (!a.off.Ok() ==> a.offWait == [])
    requires !Reached(a.offWait, Off)
    ensures a.Valid(oldIp) && Verdict(a, oldIp) == "warp_stop_failed"
    ensures a.Events() == [a.off] + a.offWait
  {
  }

  lemma StartedBadly(a: Attempt, oldIp: string)
    requires a.on.Some? && a == Attempt(a.off, a.offWait, a.on, a.onWait, None, None)
    requires a.off.call.TurnOff? && Polled(a.offWait, Off) && (!a.off.Ok() ==> a.offWait == [])
    requires Reached(a.offWait, Off)
    requires a.on.value.call.TurnOn? && Polled(a.onWait, On) && (!a.on.value.Ok() ==> a.onWait == [])
    requires !Reached(a.onWait, On)
    ensures a.Valid(oldIp)
    ensures Verdict(a, oldIp) == if a.on.value.Ok() then "network_not_recovered" else "warp_start_failed"
    ensures a.Events() == [a.off] + a.offWait + ([a.on.value] + a.onWait)
  {
  }

  lemma Compared(a: Attempt, oldIp: string)
    requires a.on.Some? && a.ip.Some?
    requires a.off.call.TurnOff? && Polled(a.offWait, Off) && (!a.off.Ok() ==> a.offWait == [])
    requires Reached(a.offWait, Off)
    requires a.on.value.call.TurnOn? && Polled(a.onWait, On) && (!a.on.value.Ok() ==> a.onWait == [])
    requires Reached(a.onWait, On)
    requires a.ip.value.call.GetIps? && (a.last.Some? <==> a.ip.value.GotAddress() && a.ip.value.Address() != oldIp)
    requires a.last.Some? ==> a.last.value.call.Status?
    ensures a.Valid(oldIp)
    ensures Verdict(a, oldIp) ==
      if !a.ip.value.GotAddress() then "ip_check_failed"
      else if a.last.None? then "ip_unchanged"
                                 else if a.last.value.Saw(On) then "ok" else "network_not_recovered"
    ensures a.Events() == [a.off] + a.offWait + ([a.on.value] + a.onWait) + ([a.ip.value] + ToSeq(a.last))
  {
  }

  lemma Appended(attempts: seq<Attempt>, a: Attempt, oldIp: string)
    requires AttemptsValid(attempts, oldIp) && NoneChanged(attempts) && a.Valid(oldIp)
    ensures AttemptsValid(attempts + [a], oldIp) && (!a.Changed() ==> NoneChanged(attempts + [a]))
    ensures (attempts + [a])[..|attempts + [a]| - 1] == attempts
    ensures AllEvents(attempts + [a]) == AllEvents(attempts) + a.Events()
    ensures LatestIp(attempts + [a]) ==
      if a.ip.Some? && a.ip.value.GotAddress() then a.ip.value.Address()
      else LatestIp(attempts)
  {
    assert (attempts + [a])[..|attempts + [a]| - 1] == attempts;
  }

  /** What the attempts so far have done: their calls, the address they got, and their time. */
  ghost predicate Fought(attempts: seq<Attempt>, oldIp: string, newIp: string, before: seq<Event>, log: seq<Event>,
                         start: int, end: int, at: int, step: int)
  {
    && AttemptsValid(attempts, oldIp) && newIp == LatestIp(attempts)
    && log == before + AllEvents(attempts) && Timely(AllEvents(attempts), start, end, at)
    && BegunInTime(attempts, at, step)
  }

  /** The wait that ended the last of the attempts used up the time. */
  predicate OutOfTimeIfStuck(attempts: seq<Attempt>, now: int, at: int) {
    attempts != [] && attempts[|attempts| - 1].WaitFailed() ==> at <= now
  }

  lemma FirstOnes(attempts: seq<Attempt>)
    requires NoneChanged(attempts)
    ensures attempts != [] ==> NoneChanged(attempts[..|attempts| - 1]) && !attempts[|attempts| - 1].Changed()
  {
  }

  lemma BegunAgain(attempts: seq<Attempt>, a: Attempt, now: int, at: int, step: int)
    requires Timed(a.off, at, step) && (a.on.Some? ==> Timed(a.on.value, at, step))
    requires BegunInTime(attempts, at, step) && OutOfTimeIfStuck(attempts, now, at) && a.off.start == now < at
    ensures BegunInTime(attempts + [a], at, step)
  {
  }

  /** One more attempt after those so far. */
  lemma Continued(log: seq<Event>, attempts: seq<Attempt>, a: Attempt, oldIp: string, start: int, middle: int, end: int,
                  at: int)
    requires AttemptsValid(attempts, oldIp) && NoneChanged(attempts) && a.Valid(oldIp)
    requires Timely(AllEvents(attempts), start, middle, at) && Timely(a.Events(), middle, end, at)
    ensures AttemptsValid(attempts + [a], oldIp) && (!a.Changed() ==> NoneChanged(attempts + [a]))
    ensures (attempts + [a])[..|attempts + [a]| - 1] == attempts
    ensures LatestIp(attempts + [a]) ==
      if a.ip.Some? && a.ip.value.GotAddress() then a.ip.value.Address()
      else LatestIp(attempts)
    ensures log + AllEvents(attempts) + a.Events() == log + AllEvents(attempts + [a])
    ensures Timely(AllEvents(attempts + [a]), start, end, at)
  {
    TimelyChain(AllEvents(attempts), a.Events(), start, middle, end, at);
    Joined(log, AllEvents(attempts), a.Events());
    Appended(attempts, a, oldIp);
  }

  lemma Recovered(v: Recovery, step: int)
    requires v.on.Some? && v.last.Some? && v.look.call.Status? && !v.look.Saw(On) && v.on.value.call.TurnOn?
    requires Polled(v.wait, On) && (!v.on.value.Ok() ==> v.wait == []) && v.last.value.call.Status?
    requires v.on.value.context == Until(v.look.start + step)
    requires v.on.value.Ok() && !Reached(v.wait, On) ==> v.look.start + step <= v.last.value.start
    ensures v.Valid() && v.WaitedOut(step) && v.Events() == [v.look] + ([v.on.value] + v.wait) + [v.last.value]
  {
  }

  lemma SeenAtOnce(v: Recovery, step: int)
    requires v == Recovery(v.look, None, [], None) && v.look.call.Status? && v.look.Saw(On)
    ensures v.Valid() && v.WaitedOut(step) && v.Events() == [v.look]
  {
  }

  /** The log and the time of a recovery that called WarpOn. */
  lemma RecoveryLasts(log: seq<Event>, look: Event, restart: seq<Event>, last: Event, start: int, first: int,
                      second: int, end: int, at: int, step: nat)
    requires start <= at && Timely([look], start, first, at) && Timely(restart, first, second, at)
    requires Timely([last], second, end, second + step)
    ensures log + [look] + restart + [last] == log + ([look] + restart + [last])
    ensures Timely([look] + restart + [last], start, end, at + step)
  {
    TimelyChain([look], restart, start, first, second, at);
    TimelyThen([look] + restart, [last], start, second, end, at, step);
  }

  lemma RecoveryFits(v: Recovery, before: seq<Event>, log: seq<Event>, first: int, second: int, end: int, step: nat)
    requires v.on.Some? && v.last.Some? && v.look.call.Status? && !v.look.Saw(On) && v.on.value.call.TurnOn?
    requires Polled(v.wait, On) && (!v.on.value.Ok() ==> v.wait == []) && v.last.value.call.Status?
    requires v.on.value.context == Until(v.look.start + step)
    requires v.on.value.Ok() && !Reached(v.wait, On) ==> v.look.start + step <= v.last.value.start
    requires log == before + [v.look] + ([v.on.value] + v.wait) + [v.last.value]
    requires Timely([v.look], v.look.start, first, v.look.start + step)
    requires Timely([v.on.value] + v.wait, first, second, v.look.start + step)
    requires Timely([v.last.value], second, end, second + step)
    ensures v.Valid() && v.WaitedOut(step) && log == before + v.Events()
    ensures Timely(v.Events(), v.look.start, end, v.look.start + 2 * step)
  {
    var at := v.look.start + step;
    RecoveryLasts(before, v.look, [v.on.value] + v.wait, v.last.value, v.look.start, first, second, end, at, step);
    Recovered(v, step);
  }

  lemma TimeOfDisarm(first: Event)
    ensures [first][..1] == [first] && UnboundedTime([first]) ==
      if first.context.Background? then first.reply.duration
      else 0
  {
    assert [first][..0] == [];
  }

  lemma TimeOfDisarms(first: Event, second: Event)
    ensures [first] + [second] == [first, second]
    ensures [first, second][..1] == [first]
    ensures UnboundedTime([first, second]) == UnboundedTime([first]) + UnboundedTime([second])
  {
    assert [first, second][..1] == [first] && [first][..0] == [] && [second][..0] == [];
  }

  function RecoveredEvents(recovery: Option<Recovery>): seq<Event> {
    if recovery.Some? then recovery.value.Events() else []
  }

  lemma WonFits(t: Trace, r: Result, maxAttempts: int)
    requires Armed(t.setup) && r.oldIp == t.setup[1].Address() && AttemptsValid(t.attempts, r.oldIp)
    requires r.newIp == LatestIp(t.attempts) && r.attempts == |t.attempts| <= maxAttempts
    requires t.attempts != [] && NoneChanged(t.attempts[..|t.attempts| - 1]) && Won(t) && WonRun(t, r)
    requires forall e :: e in t.disarms ==> e.call.Disarm?
    ensures ArmedRun(t, r, maxAttempts)
  {
  }

  lemma WonJoins(t: Trace, before: seq<Event>, log: seq<Event>, end: seq<Event>)
    requires t.check.None? && t.recovery.None?
    requires log == before + (t.setup + AllEvents(t.attempts)) && end == log + t.disarms
    ensures end == before + t.Events()
  {
    Joined(before, t.setup + AllEvents(t.attempts), t.disarms);
    assert t.Events() == t.setup + AllEvents(t.attempts) + t.disarms;
  }

  lemma WonInTime(t: Trace, start: int, middle: int, at: int)
    requires t.check.None? && t.recovery.None? && t.disarms != []
    requires Timely(t.setup + AllEvents(t.attempts), start, middle, at)
    requires Timely(t.disarms[..1], middle, t.settled, at)
    ensures AllHonoured(t.Events()) ==> t.settled <= Max(start, at)
  {
    assert t.disarms == t.disarms[..1] + t.disarms[1..];
    Joined(t.setup + AllEvents(t.attempts), t.disarms[..1], t.disarms[1..]);
    assert t.Events() == t.setup + AllEvents(t.attempts) + t.disarms;
    SettledInTime(t, t.disarms[..1], t.disarms[1..], start, middle, at, 0);
  }

  /** A loop that ended without success at the time `now`. */
  ghost predicate Beaten(setup: seq<Event>, attempts: seq<Attempt>, count: nat, code: string, newIp: string, limit: int,
                         now: int, at: int, step: int)
  {
    && Armed(setup) && AttemptsValid(attempts, setup[1].Address()) && newIp == LatestIp(attempts)
    && BegunInTime(attempts, at, step)
    && (attempts != [] ==> NoneChanged(attempts[..|attempts| - 1]) && !attempts[|attempts| - 1].Changed())
    && 1 <= count <= limit && |attempts| <= count <= |attempts| + 1
    && code == (if count == |attempts| then Verdict(attempts[count - 1], setup[1].Address()) else "action_timeout")
    && OutOfTimeIfStuck(attempts, now, at)
    && if count == |attempts| then count == limit else at <= now
  }

  /** What follows such a loop: a look, a recovery unless it saw WARP on, and the disarms. */
  ghost predicate Closed(check: Event, recovery: Option<Recovery>, disarms: seq<Event>, step: int) {
    && (recovery.Some? ==> recovery.value.WaitedOut(step))
    && check.call.Status? && (recovery.None? <==> check.Saw(On)) && (recovery.Some? ==> recovery.value.Valid())
    && (forall e :: e in disarms ==> e.call.Disarm?) && 1 <= |disarms| <= 2
    && (|disarms| == 2 <==> !RecoveryFailed(recovery) && !disarms[0].Ok())
  }

  predicate RecoveryFailed(recovery: Option<Recovery>) {
    recovery.Some? && recovery.value.Failed()
  }

  function FinalState(check: Event, recovery: Option<Recovery>): WarpState {
    if recovery.Some? then recovery.value.State() else check.reply.state
  }

  lemma LostFits(t: Trace, r: Result, count: nat, code: string, limit: int, at: int, step: int)
    requires t.check.Some? && Closed(t.check.value, t.recovery, t.disarms, step)
    requires Beaten(t.setup, t.attempts, count, code, r.newIp, limit, t.check.value.start, at, step)
    requires r == Result(false, code, t.setup[1].Address(), r.newIp, count, FinalState(t.check.value, t.recovery),
                         RecoveryFailed(t.recovery), |t.disarms| == 2)
    ensures ArmedRun(t, r, limit) && Stopped(t, r, limit, at, step)
  {
    assert !Won(t);
    assert LostRun(t, r);
  }

  lemma LostEvents(t: Trace)
    requires t.check.Some?
    ensures t.Events() == t.setup + AllEvents(t.attempts) + ([t.check.value] + RecoveredEvents(t.recovery)) + t.disarms
  {
  }

  lemma LostJoins(t: Trace, before: seq<Event>, log: seq<Event>, looked: seq<Event>, end: seq<Event>)
    requires t.check.Some? && log == before + (t.setup + AllEvents(t.attempts))
    requires looked == log + ([t.check.value] + RecoveredEvents(t.recovery)) && end == looked + t.disarms
    ensures end == before + t.Events()
  {
    var first, rest := t.setup + AllEvents(t.attempts), [t.check.value] + RecoveredEvents(t.recovery);
    LostEvents(t);
    Joined(before, first, rest);
    Joined(before, first + rest, t.disarms);
  }

  lemma LostInTime(t: Trace, start: int, middle: int, at: int, extra: nat)
    requires t.check.Some? && Timely(t.setup + AllEvents(t.attempts), start, middle, at)
    requires Timely([t.check.value] + RecoveredEvents(t.recovery), middle, t.settled, Max(middle, at) + extra)
    ensures AllHonoured(t.Events()) ==> t.settled <= Max(start, at) + extra
  {
    LostEvents(t);
    SettledInTime(t, [t.check.value] + RecoveredEvents(t.recovery), t.disarms, start, middle, at, extra);
  }

  /** In the middle of a wait that began at `start`: nothing seen so far, and the next read is due at `now`. */
  ghost predicate Polling(wait: seq<Event>, want: WarpState, start: int, now: int, at: int, poll: int) {
    && Polled(wait, want) && !Reached(wait, want) && Paced(wait, poll) && Timely(wait, start, now, at)
    && if wait == [] then now == start
       else start < at && wait[0].start == start && now == wait[|wait| - 1].End() + poll
  }

  /**
   * After a wait: it looked at once unless the time was up, and then every poll interval until it saw or the
   * time was up.
   */
  ghost predicate Waited(wait: seq<Event>, want: WarpState, start: int, now: int, at: int, poll: int) {
    && Polled(wait, want) && Paced(wait, poll) && Timely(wait, start, now, at)
    && (wait == [] <==> at <= start) && (wait != [] ==> wait[0].start == start)
    && if Reached(wait, want) then now == wait[|wait| - 1].End() else at <= now
  }

  lemma OutOfTime(wait: seq<Event>, want: WarpState, start: int, now: int, at: int, poll: int)
    requires Polling(wait, want, start, now, at, poll) && at <= now
    ensures Waited(wait, want, start, now, at, poll) && !Reached(wait, want)
  {
  }

  lemma OneMoreRead(wait: seq<Event>, e: Event, want: WarpState, start: int, before: int, poll: int)
    requires Polled(wait, want) && !Reached(wait, want) && Paced(wait, poll) && e.call.Status? && e.start == before
    requires if wait == [] then before == start
             else wait[0].start == start && before == wait[|wait| - 1].End() + poll
    ensures Polled(wait + [e], want) && Paced(wait + [e], poll)
    ensures (wait + [e])[0].start == start && (wait + [e])[|wait + [e]| - 1] == e
  {
  }

  lemma PolledAgain(wait: seq<Event>, e: Event, want: WarpState, start: int, before: int, at: int, poll: int)
    requires Polling(wait, want, start, before, at, poll) && 0 < poll && before < at
    requires e.call.Status? && e.start == before && Timely([e], before, e.End(), at)
    ensures e.Saw(want) ==> Waited(wait + [e], want, start, e.End(), at, poll)
    ensures !e.Saw(want) && e.End() + poll <= at ==> Polling(wait + [e], want, start, e.End() + poll, at, poll)
    ensures !e.Saw(want) ==> Waited(wait + [e], want, start, Max(e.End(), at), at, poll)
    ensures Reached(wait + [e], want) <==> e.Saw(want)
  {
    TimelyChain(wait, [e], start, before, e.End(), at);
    OneMoreRead(wait, e, want, start, before, poll);
  }

  lemma RefusedFirst(look: Event, clock: int)
    requires look.call.Status? && !look.Saw(On) && !look.Saw(Degraded)
    ensures var code := if look.Ok() then "invalid_state" else CodeOf(look.reply.error, "precheck_failed");
      RefusedRun(Trace([look], [], None, None, [], clock),
                 Result(false, code, "", "", 0, if look.Ok() then look.reply.state else Unset, false, false))
  {
  }

  lemma RefusedSecond(look: Event, ip: Event, clock: int)
    requires look.call.Status? && (look.Saw(On) || look.Saw(Degraded)) && ip.call.GetIps? && !ip.GotAddress()
    ensures RefusedRun(Trace([look, ip], [], None, None, [], clock),
                       Result(false, CodeOf(ip.reply.error, "old_ip_unavailable"), "", "", 0, look.reply.state, false,
                              false))
  {
  }

  lemma RefusedThird(look: Event, ip: Event, arm: Event, clock: int)
    requires look.call.Status? && (look.Saw(On) || look.Saw(Degraded)) && ip.call.GetIps? && ip.GotAddress()
    requires arm.call.Arm? && !arm.Ok()
    ensures RefusedRun(Trace([look, ip, arm], [], None, None, [], clock),
                       Result(false, CodeOf(arm.reply.error, "precheck_failed"), ip.Address(), "", 0, look.reply.state,
                              false, false))
  {
  }

  lemma RefusedFits(t: Trace, r: Result, start: int, at: int)
    requires RefusedRun(t, r) && Timely(t.setup, start, t.settled, at)
    ensures t.Events() == t.setup && UnboundedTime(t.disarms) == 0
    ensures AllHonoured(t.Events()) ==> t.settled <= Max(start, at)
  {
    assert t.Events() == t.setup;
  }

  /** `rest` is what follows the loop, up to the disarms that no deadline bounds. */
  lemma SettledInTime(t: Trace, rest: seq<Event>, end: seq<Event>, start: int, middle: int, at: int, extra: nat)
    requires Timely(t.setup + AllEvents(t.attempts), start, middle, at)
    requires Timely(rest, middle, t.settled, Max(middle, at) + extra)
    requires t.Events() == t.setup + AllEvents(t.attempts) + rest + end
    ensures AllHonoured(t.Events()) ==> t.settled <= Max(start, at) + extra
  {
    if AllHonoured(t.Events()) {
      assert forall e :: e in t.setup + AllEvents(t.attempts) ==> e in t.Events();
      assert forall e :: e in rest ==> e in t.Events();
    }
  }

  class Machine {
    const pollInterval: int
    const stepTimeout: int
    const wired: bool
    const replies: nat -> Reply
    const ties: nat -> bool
    var clock: int
    var log: seq<Event>

    /**
     * `replies` is what the host answers to the first call, the second, and so on; `ties` settles what a wait
     * does when its timer and its context come due at the same instant; `wired` says both dependencies are set.
     */
    constructor (pollInterval: int, stepTimeout: int, wired: bool, replies: nat -> Reply, ties: nat -> bool, now: int)
      ensures Valid() && clock == now && log == []
      ensures this.pollInterval == pollInterval && this.stepTimeout == stepTimeout && this.wired == wired
      ensures this.replies == replies && this.ties == ties
    {
      this.pollInterval, this.stepTimeout, this.wired := pollInterval, stepTimeout, wired;
      this.replies, this.ties := replies, ties;
      clock, log := now, [];
    }

    /** What the log holds is what the host answered. */
    ghost predicate Valid()
      reads this
    {
      Faithful(log, clock, replies, Poll())
    }

    function Poll(): (p: int)
      ensures p > 0
    {
      if pollInterval > 0 then pollInterval else DEFAULT_POLL
    }

    function Step(): (s: int)
      ensures s > 0
    {
      if stepTimeout > 0 then stepTimeout else DEFAULT_STEP
    }

    /** A second between reads and twenty for a step, unless the machine was set up otherwise. */
    lemma Intervals()
      ensures Poll() == 1_000 || (pollInterval > 0 && Poll() == pollInterval)
      ensures Step() == 20_000 || (stepTimeout > 0 && Step() == stepTimeout)
      ensures (pollInterval > 0 ==> Poll() == pollInterval) && (stepTimeout > 0 ==> Step() == stepTimeout)
    {
    }

    method Perform(call: Call, context: Context) returns (e: Event)
      requires Valid()
      modifies this
      ensures Valid() && e == Event(call, context, old(clock), replies(|old(log)|))
      ensures log == old(log) + [e] && clock == e.End()
      ensures context.Until? ==> Timely([e], old(clock), clock, context.at)
    {
      e := Event(call, context, clock, replies(|log|));
      clock := e.End();
      log := log + [e];
      assert log[..|log| - 1] == old(log);
      assert e in [e];
    }

    /** A call under a step context: it ends with the surrounding context or after the step timeout. */
    method InStep(call: Call, context: Context) returns (e: Event)
      requires Valid()
      modifies this
      ensures Valid() && e.start == old(clock) && e.reply == replies(|old(log)|)
      ensures e.context == Within(context, old(clock) + Step())
      ensures e.call == call && e.context.Until? && e.context.at <= old(clock) + Step()
      ensures context.Until? ==> e.context.at <= context.at
      ensures log == old(log) + [e] && clock == e.End()
      ensures Timely([e], old(clock), clock, e.context.at)
    {
      e := Perform(call, Within(context, clock + Step()));
    }

    /**
     * After a status read, waits for the poll interval or until the context is done, whichever is first; when both
     * come at the same instant, either may win.
     */
    method Sleep(context: Context) returns (ok: bool)
      requires Valid() && context.Until? && log != [] && log[|log| - 1].call.Status? && clock == log[|log| - 1].End()
      modifies this`clock
      ensures Valid()
      ensures ok <==> old(clock) + Poll() < context.at || (old(clock) + Poll() == context.at && ties(|log|))
      ensures clock == if ok then old(clock) + Poll() else Max(old(clock), context.at)
    {
      if context.at <= clock {
        ok := false;
      } else if clock + Poll() < context.at || (clock + Poll() == context.at && ties(|log|)) {
        clock := clock + Poll();
        ok := true;
      } else {
        clock := context.at;
        ok := false;
      }
    }

    /**
     * waitFor: polls until the state is seen; ends because every poll that goes on has used up time. It looks at once
     * unless the time is up, then every poll interval, and gives up only when the time is up.
     */
    method WaitFor(context: Context, want: WarpState) returns (ok: bool, wait: seq<Event>)
      requires Valid() && context.Until? && want != Unset
      modifies this
      ensures Valid() && Waited(wait, want, old(clock), clock, context.at, Poll())
      ensures ok <==> Reached(wait, want)
      ensures log == old(log) + wait
    {
      wait := [];
      while true
        invariant Valid() && Polling(wait, want, old(clock), clock, context.at, Poll()) && log == old(log) + wait
        decreases Max(0, context.at - clock)
      {
        if Done(context, clock) {
          OutOfTime(wait, want, old(clock), clock, context.at, Poll());
          return false, wait;
        }
        var e, slept := PollOnce(context, want, wait, old(clock));
        Joined(old(log), wait, [e]);
        wait := wait + [e];
        if e.Saw(want) {
          return true, wait;
        }
        if !slept {
          return false, wait;
        }
      }
    }

    /** One turn of a wait that has read `wait`: a status read and, if it did not see the state, the sleep. */
    method PollOnce(context: Context, want: WarpState, ghost wait: seq<Event>, ghost start: int)
      returns (e: Event, slept: bool)
      requires Valid() && context.Until? && clock < context.at
      requires Polling(wait, want, start, clock, context.at, Poll())
      modifies this
      ensures Valid() && log == old(log) + [e] && (Reached(wait + [e], want) <==> e.Saw(want))
      ensures slept ==> Polling(wait + [e], want, start, clock, context.at, Poll()) && old(clock) < clock
      ensures !slept ==> Waited(wait + [e], want, start, clock, context.at, Poll())
      ensures slept ==> !e.Saw(want)
    {
      e := InStep(Status, context);
      PolledAgain(wait, e, want, start, old(clock), context.at, Poll());
      assert log[|log| - 1] == e;
      if e.Saw(want) {
        return e, false;
      }
      slept := Sleep(context);
    }

    /** Calls WarpOff or WarpOn and, if that went well, waits for its effect. */
    method Switch(call: Call, context: Context, want: WarpState) returns (e: Event, wait: seq<Event>)
      requires Valid() && context.Until? && want != Unset
      modifies this
      ensures Valid() && e.start == old(clock) && (e.Ok() && !Reached(wait, want) ==> context.at <= clock)
      ensures e.call == call && Timed(e, context.at, Step()) && Polled(wait, want) && (!e.Ok() ==> wait == [])
      ensures log == old(log) + ([e] + wait) && Timely([e] + wait, old(clock), clock, context.at)
    {
      e := InStep(call, context);
      wait := [];
      ghost var middle := clock;
      if e.Ok() {
        var _, polls := WaitFor(context, want);
        wait := polls;
      }
      TimelyChain([e], wait, old(clock), middle, clock, context.at);
    }

    /** Reads the address and, if it is a new one, looks at the state once more. */
    method Compare(context: Context, oldIp: string) returns (ip: Event, last: Option<Event>, failure: string)
      requires Valid() && context.Until?
      modifies this
      ensures Valid() && ip.call.GetIps? && (last.Some? <==> ip.GotAddress() && ip.Address() != oldIp)
      ensures last.Some? ==> last.value.call.Status?
      ensures failure == if !ip.GotAddress() then "ip_check_failed" else if last.None? then "ip_unchanged"
                         else if last.value.Saw(On) then "ok" else "network_not_recovered"
      ensures log == old(log) + ([ip] + ToSeq(last)) && Timely([ip] + ToSeq(last), old(clock), clock, context.at)
    {
      last := None;
      ip := InStep(GetIps, context);
      ghost var middle := clock;
      if !ip.GotAddress() {
        failure := "ip_check_failed";
      } else if ip.Address() == oldIp {
        failure := "ip_unchanged";
      } else {
        var look := InStep(Status, context);
        last := Some(look);
        failure := if look.Saw(On) then "ok" else "network_not_recovered";
      }
      TimelyChain([ip], ToSeq(last), old(clock), middle, clock, context.at);
    }

    /**
     * One pass of the loop: off, wait, on, wait, address, last look; `failure` is the code of the stage that
     * went wrong.
     */
    method Try(context: Context, oldIp: string) returns (a: Attempt, failure: string)
      requires Valid() && context.Until?
      modifies this
      ensures Valid() && a.Valid(oldIp)
      ensures a.off.start == old(clock) && (a.WaitFailed() ==> context.at <= clock)
      ensures Timed(a.off, context.at, Step()) && (a.on.Some? ==> Timed(a.on.value, context.at, Step()))
      ensures failure == Verdict(a, oldIp)
      ensures log == old(log) + a.Events() && Timely(a.Events(), old(clock), clock, context.at)
    {
      var off, offWait := Switch(TurnOff, context, Off);
      a := Attempt(off, offWait, None, [], None, None);
      if !Reached(offWait, Off) {
        StoppedEarly(a, oldIp);
        return a, "warp_stop_failed";
      }
      ghost var first := clock;
      var on, onWait := Switch(TurnOn, context, On);
      TimelyChain([off] + offWait, [on] + onWait, old(clock), first, clock, context.at);
      Joined(old(log), [off] + offWait, [on] + onWait);
      a := Attempt(off, offWait, Some(on), onWait, None, None);
      if !Reached(onWait, On) {
        StartedBadly(a, oldIp);
        return a, if on.Ok() then "network_not_recovered" else "warp_start_failed";
      }
      ghost var second := clock;
      var ip, last, verdict := Compare(context, oldIp);
      TimelyChain([off] + offWait + ([on] + onWait), [ip] + ToSeq(last), old(clock), second, clock, context.at);
      Joined(old(log), [off] + offWait + ([on] + onWait), [ip] + ToSeq(last));
      a, failure := Attempt(off, offWait, Some(on), onWait, Some(ip), last), verdict;
      Compared(a, oldIp);
    }

    /** recoverOn: under a context of its own, whatever became of the run. */
    method RecoverOn() returns (v: Recovery)
      requires Valid()
      modifies this
      ensures Valid() && v.Valid() && v.WaitedOut(Step()) && v.look.start == old(clock)
      ensures log == old(log) + v.Events() && Timely(v.Events(), old(clock), clock, old(clock) + 2 * Step())
    {
      var context := Until(clock + Step());
      var look := InStep(Status, context);
      v := Recovery(look, None, [], None);
      if look.Saw(On) {
        SeenAtOnce(v, Step());
        return;
      }
      v := BringBack(look, context, old(log), old(clock));
    }

    /** The rest of the recovery, after a look that did not see WARP on. */
    method BringBack(look: Event, context: Context, ghost before: seq<Event>, ghost start: int) returns (v: Recovery)
      requires Valid() && log == before + [look] && look.call.Status? && !look.Saw(On) && look.start == start
      requires context == Until(start + Step()) && Timely([look], start, clock, context.at)
      modifies this
      ensures Valid() && v.look == look && v.Valid() && v.WaitedOut(Step())
      ensures log == before + v.Events() && Timely(v.Events(), start, clock, start + 2 * Step())
    {
      ghost var first := clock;
      var on, wait := Restart(context);
      ghost var second := clock;
      var last := InStep(Status, Background);
      v := Recovery(look, Some(on), wait, Some(last));
      RecoveryFits(v, before, log, first, second, clock, Step());
    }

    /** WarpOn under the recovery's own context and, if that went well, the wait for its effect. */
    method Restart(context: Context) returns (on: Event, wait: seq<Event>)
      requires Valid() && context.Until?
      modifies this
      ensures Valid() && on.call == TurnOn && on.context == context && Polled(wait, On) && (!on.Ok() ==> wait == [])
      ensures on.Ok() && !Reached(wait, On) ==> context.at <= clock
      ensures log == old(log) + ([on] + wait) && Timely([on] + wait, old(clock), clock, context.at)
    {
      on := Perform(TurnOn, context);
      wait := [];
      ghost var middle := clock;
      if on.Ok() {
        var _, polls := WaitFor(context, On);
        wait := polls;
      }
      TimelyChain([on], wait, old(clock), middle, clock, context.at);
      Joined(old(log), [on], wait);
    }

    /** The two reads of the setup; a refusal carries the result to return. */
    method FirstLooks(context: Context) returns (setup: seq<Event>, refusal: Option<Result>)
      requires Valid() && context.Until?
      modifies this
      ensures Valid() && log == old(log) + setup && Timely(setup, old(clock), clock, context.at)
      ensures 1 <= |setup| <= 2 && setup[0].start == old(clock) && setup[0].call.Status?
      ensures refusal.Some? ==> RefusedRun(Trace(setup, [], None, None, [], clock), refusal.value)
      ensures refusal.None? ==> |setup| == 2 && setup[1].call.GetIps? && Good(setup, 2)
    {
      refusal := None;
      var refused := Result(false, "unknown", "", "", 0, Unset, false, false);
      var look := InStep(Status, context);
      setup := [look];
      if !look.Saw(On) && !look.Saw(Degraded) {
        RefusedFirst(look, clock);
      }
      if !look.Ok() {
        return setup, Some(refused.(code := CodeOf(look.reply.error, "precheck_failed")));
      }
      refused := refused.(finalState := look.reply.state);
      if look.reply.state != On && look.reply.state != Degraded {
        return setup, Some(refused.(code := "invalid_state"));
      }
      ghost var first := clock;
      var ip := InStep(GetIps, context);
      TimelyChain([look], [ip], old(clock), first, clock, context.at);
      Joined(old(log), [look], [ip]);
      setup := [look, ip];
      assert [look] + [ip] == setup;
      if !ip.GotAddress() {
        RefusedSecond(look, ip, clock);
        return setup, Some(refused.(code := CodeOf(ip.reply.error, "old_ip_unavailable")));
      }
    }

    /** Up to the point where the watchdog is armed; a refusal carries the result to return. */
    method Prepare(context: Context, deadline: int, attempts: int) returns (setup: seq<Event>, refusal: Option<Result>)
      requires Valid() && context.Until?
      modifies this
      ensures Valid() && log == old(log) + setup && Timely(setup, old(clock), clock, context.at)
      ensures setup != [] && setup[0].start == old(clock)
      ensures refusal.None? ==> Armed(setup)
      ensures refusal.Some? ==> RefusedRun(Trace(setup, [], None, None, [], clock), refusal.value)
      ensures |setup| == 3 ==> setup[2].call == Arm(deadline, attempts)
    {
      setup, refusal := FirstLooks(context);
      if refusal.Some? {
        return;
      }
      ghost var looks, first := setup, clock;
      var arm := Perform(Arm(deadline, attempts), context);
      TimelyChain(looks, [arm], old(clock), first, clock, context.at);
      Joined(old(log), looks, [arm]);
      setup := setup + [arm];
      if !arm.Ok() {
        RefusedThird(setup[0], setup[1], arm, clock);
        assert setup == [setup[0], setup[1], arm];
        var code := CodeOf(arm.reply.error, "precheck_failed");
        refusal := Some(Result(false, code, setup[1].Address(), "", 0, setup[0].reply.state, false, false));
      }
    }

    /** One turn of the retry loop, after the attempts so far. */
    method TryAgain(context: Context, oldIp: string, attempts: seq<Attempt>, newIp: string, ghost before: seq<Event>,
                    ghost start: int)
      returns (more: seq<Attempt>, code: string, latest: string)
      requires Valid() && context.Until?
      requires Fought(attempts, oldIp, newIp, before, log, start, clock, context.at, Step())
      requires NoneChanged(attempts) && OutOfTimeIfStuck(attempts, clock, context.at) && clock < context.at
      modifies this
      ensures Valid() && OutOfTimeIfStuck(more, clock, context.at)
      ensures Fought(more, oldIp, latest, before, log, start, clock, context.at, Step())
      ensures |more| == |attempts| + 1 && more[..|more| - 1] == attempts
      ensures code == Verdict(more[|more| - 1], oldIp)
      ensures code == "ok" <==> more[|more| - 1].Changed()
      ensures code != "ok" ==> NoneChanged(more)
    {
      ghost var middle := clock;
      var a, verdict := Try(context, oldIp);
      Continued(before, attempts, a, oldIp, start, middle, clock, context.at);
      BegunAgain(attempts, a, middle, context.at, Step());
      more, code, latest := attempts + [a], verdict, newIp;
      if a.ip.Some? && a.ip.value.GotAddress() {
        latest := a.ip.value.Address();
      }
    }

    /** The retry loop. */
    method Retry(context: Context, oldIp: string, limit: nat)
      returns (attempts: seq<Attempt>, count: nat, code: string, newIp: string)
      requires Valid() && context.Until? && 1 <= limit
      modifies this
      ensures Valid() && Fought(attempts, oldIp, newIp, old(log), log, old(clock), clock, context.at, Step())
      ensures code == "ok" || (if count == |attempts| then count == limit else context.at <= clock)
      ensures OutOfTimeIfStuck(attempts, clock, context.at)
      ensures attempts != [] ==> NoneChanged(attempts[..|attempts| - 1])
      ensures code == "ok" <==> attempts != [] && attempts[|attempts| - 1].Changed()
      ensures 1 <= count <= limit && |attempts| <= count <= |attempts| + 1
      ensures code == if count == |attempts| then Verdict(attempts[count - 1], oldIp) else "action_timeout"
    {
      attempts, count, code, newIp := [], 0, "", "";
      while count < limit
        invariant Valid() && Fought(attempts, oldIp, newIp, old(log), log, old(clock), clock, context.at, Step())
        invariant OutOfTimeIfStuck(attempts, clock, context.at)
        invariant NoneChanged(attempts) && count == |attempts| && count <= limit
        invariant code != "ok" && (count > 0 ==> code == Verdict(attempts[count - 1], oldIp))
      {
        count := count + 1;
        FirstOnes(attempts);
        if Done(context, clock) {
          code := "action_timeout";
          return;
        }
        attempts, code, newIp := TryAgain(context, oldIp, attempts, newIp, old(log), old(clock));
        if code == "ok" {
          return;
        }
      }
      FirstOnes(attempts);
    }

    /** After a changed address: disarm, and once more on the way out if that failed. */
    method Win(context: Context) returns (disarms: seq<Event>, ghost settled: int)
      requires Valid() && context.Until?
      modifies this
      ensures Valid() && 1 <= |disarms| <= 2 && (|disarms| == 2 <==> !disarms[0].Ok())
      ensures forall e :: e in disarms ==> e.call.Disarm?
      ensures log == old(log) + disarms && clock == settled + UnboundedTime(disarms)
      ensures Timely(disarms[..1], old(clock), settled, context.at)
    {
      var first := Perform(Disarm, context);
      disarms, settled := [first], clock;
      TimeOfDisarm(first);
      if !first.Ok() {
        var second := Perform(Disarm, Background);
        disarms := [first, second];
        TimeOfDisarm(second);
        TimeOfDisarms(first, second);
        Joined(old(log), [first], [second]);
      }
    }

    /**
     * After a failed loop: disarm unless recovery failed; the way out disarms whenever that did not happen or
     * failed.
     */
    method StandDown(recovered: bool) returns (disarms: seq<Event>)
      requires Valid()
      modifies this
      ensures Valid() && 1 <= |disarms| <= 2 && (|disarms| == 2 <==> recovered && !disarms[0].Ok())
      ensures forall e :: e in disarms ==> e.call.Disarm?
      ensures log == old(log) + disarms && clock == old(clock) + UnboundedTime(disarms)
    {
      var first := Perform(Disarm, Background);
      disarms := [first];
      TimeOfDisarm(first);
      if recovered && !first.Ok() {
        var second := Perform(Disarm, Background);
        disarms := [first, second];
        TimeOfDisarm(second);
        TimeOfDisarms(first, second);
        Joined(old(log), [first], [second]);
      }
    }

    /** After a failed loop: look, and recover if WARP is not on. */
    method Lose(context: Context) returns (check: Event, recovery: Option<Recovery>)
      requires Valid() && context.Until?
      modifies this
      ensures Valid() && check.start == old(clock)
      ensures check.call.Status? && (recovery.None? <==> check.Saw(On))
      ensures recovery.Some? ==> recovery.value.Valid() && recovery.value.WaitedOut(Step())
      ensures log == old(log) + ([check] + RecoveredEvents(recovery))
      ensures Timely([check] + RecoveredEvents(recovery), old(clock), clock, Max(old(clock), context.at) + 2 * Step())
    {
      check := InStep(Status, context);
      recovery := None;
      ghost var middle := clock;
      if !check.Saw(On) {
        var v := RecoverOn();
        recovery := Some(v);
        TimelyThen([check], v.Events(), old(clock), middle, clock, Max(old(clock), context.at), 2 * Step());
        Joined(old(log), [check], v.Events());
      }
    }

    /** The part of Run after the watchdog is armed: `before` is the log and `start` the time when the run began. */
    method Change(context: Context, setup: seq<Event>, limit: int, ghost before: seq<Event>, ghost start: int)
      returns (r: Result, ghost t: Trace)
      requires Valid() && context.Until? && Armed(setup) && 1 <= limit
      requires log == before + setup && Timely(setup, start, clock, context.at)
      modifies this
      ensures Valid() && t.setup == setup && log == before + t.Events()
      ensures ArmedRun(t, r, limit) && Stopped(t, r, limit, context.at, Step())
      ensures AllHonoured(t.Events()) ==> t.settled <= Max(start, context.at) + 2 * Step()
      ensures clock == t.settled + UnboundedTime(t.disarms)
    {
      var oldIp := setup[1].Address();
      ghost var armed := clock;
      var attempts, count, code, newIp := Retry(context, oldIp, limit);
      ghost var fought := clock;
      TimelyChain(setup, AllEvents(attempts), start, armed, fought, context.at);
      Joined(before, setup, AllEvents(attempts));
      if code == "ok" {
        r, t := Keep(context, setup, attempts, newIp, limit, before, start);
      } else {
        r, t := GiveUp(context, setup, attempts, count, code, newIp, limit, before, start);
      }
    }

    method Keep(context: Context, setup: seq<Event>, attempts: seq<Attempt>, newIp: string, limit: int,
                ghost before: seq<Event>, ghost start: int)
      returns (r: Result, ghost t: Trace)
      requires Valid() && context.Until? && Armed(setup) && AttemptsValid(attempts, setup[1].Address())
      requires newIp == LatestIp(attempts) && BegunInTime(attempts, context.at, Step())
      requires attempts != [] && NoneChanged(attempts[..|attempts| - 1]) && attempts[|attempts| - 1].Changed()
      requires |attempts| <= limit
      requires log == before + (setup + AllEvents(attempts))
      requires Timely(setup + AllEvents(attempts), start, clock, context.at)
      modifies this
      ensures Valid() && t.setup == setup && log == before + t.Events()
      ensures ArmedRun(t, r, limit) && Stopped(t, r, limit, context.at, Step())
      ensures AllHonoured(t.Events()) ==> t.settled <= Max(start, context.at)
      ensures clock == t.settled + UnboundedTime(t.disarms)
    {
      ghost var fought, log0 := clock, log;
      var disarms, settled := Win(context);
      var ok := disarms[0].Ok();
      r := Result(ok, if ok then "ok" else "watchdog_disarm_failed", setup[1].Address(), newIp, |attempts|, On, false,
                  !ok);
      t := Trace(setup, attempts, None, None, disarms, settled);
      WonFits(t, r, limit);
      WonJoins(t, before, log0, log);
      WonInTime(t, start, fought, context.at);
    }

    method GiveUp(context: Context, setup: seq<Event>, attempts: seq<Attempt>, count: nat, code: string, newIp: string,
                  limit: int,
                  ghost before: seq<Event>, ghost start: int)
      returns (r: Result, ghost t: Trace)
      requires Valid() && context.Until?
      requires Beaten(setup, attempts, count, code, newIp, limit, clock, context.at, Step())
      requires log == before + (setup + AllEvents(attempts))
      requires Timely(setup + AllEvents(attempts), start, clock, context.at)
      modifies this
      ensures Valid() && t.setup == setup && log == before + t.Events()
      ensures ArmedRun(t, r, limit) && Stopped(t, r, limit, context.at, Step())
      ensures AllHonoured(t.Events()) ==> t.settled <= Max(start, context.at) + 2 * Step()
      ensures clock == t.settled + UnboundedTime(t.disarms)
    {
      ghost var fought, log0 := clock, log;
      var check, recovery, disarms, settled, looked := Close(context);
      r := Result(false, code, setup[1].Address(), newIp, count, FinalState(check, recovery), RecoveryFailed(recovery),
                  |disarms| == 2);
      t := Trace(setup, attempts, Some(check), recovery, disarms, settled);
      LostFits(t, r, count, code, limit, context.at, Step());
      LostJoins(t, before, log0, looked, log);
      LostInTime(t, start, fought, context.at, 2 * Step());
    }

    /** What follows a failed loop: the look, the recovery and the disarms. */
    method Close(context: Context)
      returns (check: Event, recovery: Option<Recovery>, disarms: seq<Event>, ghost settled: int,
               ghost looked: seq<Event>)
      requires Valid() && context.Until?
      modifies this
      ensures Valid() && Closed(check, recovery, disarms, Step()) && check.start == old(clock)
      ensures looked == old(log) + ([check] + RecoveredEvents(recovery)) && log == looked + disarms
      ensures Timely([check] + RecoveredEvents(recovery), old(clock), settled,
                     Max(old(clock), context.at) + 2 * Step())
      ensures clock == settled + UnboundedTime(disarms)
    {
      check, recovery := Lose(context);
      settled, looked := clock, log;
      disarms := StandDown(!RecoveryFailed(recovery));
    }

    /** Run, once its options are known to be in range. */
    method Start(parent: Context, options: Options) returns (r: Result, ghost t: Trace)
      requires Valid() && wired && InRange(options)
      modifies this
      ensures Valid() && log == old(log) + t.Events() && IsRun(t, r, wired, options, parent, old(clock), Step())
      ensures AllHonoured(t.Events()) ==> t.settled <= old(clock) + Timeout(options) + 2 * Step()
      ensures clock == t.settled + UnboundedTime(t.disarms)
    {
      var deadline := clock + Timeout(options);
      var context := Within(parent, deadline);
      var setup, refusal := Prepare(context, deadline, Attempts(options));
      if refusal.Some? {
        r, t := refusal.value, Trace(setup, [], None, None, [], clock);
        RefusedFits(t, r, old(clock), context.at);
        return;
      }
      assert context.at == RunEnd(parent, options, old(clock));
      r, t := Change(context, setup, Attempts(options), old(log), old(clock));
    }

    /**
     * Run. `t` arranges the calls it made by stages; they are all that was added to the log, and the log holds what
     * the host answered. If the host's operations honour their contexts, what is left after the deadline and two step
     * timeouts are disarms under the background context.
     */
    method Run(parent: Context, options: Options) returns (r: Result, ghost t: Trace)
      requires Valid()
      modifies this
      ensures Valid() && log == old(log) + t.Events()
      ensures IsRun(t, r, wired, options, parent, old(clock), Step())
      ensures wired && InRange(options) && AllHonoured(t.Events()) ==>
        t.settled <= old(clock) + Timeout(options) + 2 * Step()
      ensures clock == t.settled + UnboundedTime(t.disarms)
    {
      t := Trace([], [], None, None, [], clock);
      assert t.Events() == [];
      if !wired {
        return Result(false, "helper_failed", "", "", 0, Unset, false, false), t;
      }
      if !InRange(options) {
        return Result(false, "invalid_parameters", "", "", 0, Unset, false, false), t;
      }
      r, t := Start(parent, options);
    }
  }
}
