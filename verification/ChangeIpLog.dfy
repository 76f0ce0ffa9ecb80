/**
 * What the log of every run shows (agent/internal/warpchange/state.go): the order and the number of the calls, what
 * success means, and how a run may end. `IsRun` is what Machine.Run guarantees.
 */
module ChangeIpLog {
  import opened Basics
  import opened ChangeIp

  lemma RunIsOk(t: Trace, r: Result, wired: bool, o: Options, parent: Context, start: int, step: int)
    requires IsRun(t, r, wired, o, parent, start, step)
    ensures RunOk(t, r, Attempts(o))
    ensures Armed(t.setup) ==>
      ArmedRun(t, r, Attempts(o)) && wired && InRange(o) && t.setup[2].call == Arm(start + Timeout(o), Attempts(o))
    ensures !Armed(t.setup) ==> t.Events() == t.setup && |t.setup| <= 3
  {
    if !Armed(t.setup) {
      RefusedMovesNothing(t, r);
    }
  }

  /** The log says whether the watchdog was armed. */
  predicate WasArmed(log: seq<Event>) {
    |log| >= 3 && Armed(log[..3])
  }

  lemma ArmedOnLog(t: Trace, r: Result, wired: bool, o: Options, parent: Context, start: int, step: int)
    requires IsRun(t, r, wired, o, parent, start, step)
    ensures WasArmed(t.Events()) <==> Armed(t.setup)
  {
    RunIsOk(t, r, wired, o, parent, start, step);
    SetupComesFirst(t);
  }

  // Order and number of the calls.

  /**
   * Nothing turns WARP off before it was seen on or degraded, its address was known, and the watchdog was
   * armed for this run.
   */
  lemma OffOnlyAfterArming(t: Trace, r: Result, wired: bool, o: Options, parent: Context, start: int, step: int, k: nat)
    requires IsRun(t, r, wired, o, parent, start, step) && k < |t.Events()| && t.Events()[k].call.TurnOff?
    ensures k >= 3 && WasArmed(t.Events()) && t.Events()[2].call == Arm(start + Timeout(o), Attempts(o))
  {
    RunIsOk(t, r, wired, o, parent, start, step);
    SetupIsReads(t, r, Attempts(o));
    SetupComesFirst(t);
    if !Armed(t.setup) {
      RefusedMovesNothing(t, r);
    }
  }

  /**
   * WarpOff is called once per attempt begun, WarpOn at most once more than WarpOff, and attempts stay within
   * the limit.
   */
  lemma CallsAreBounded(t: Trace, r: Result, wired: bool, o: Options, parent: Context, start: int, step: int)
    requires IsRun(t, r, wired, o, parent, start, step)
    ensures Count(t.Events(), TurnOff) <= r.attempts <= Count(t.Events(), TurnOff) + 1
    ensures r.attempts > 0 ==> r.attempts <= Attempts(o) <= DEFAULT_ATTEMPTS
    ensures Count(t.Events(), TurnOn) <= Count(t.Events(), TurnOff) + 1
    ensures r.success ==> Count(t.Events(), TurnOn) <= Count(t.Events(), TurnOff) == r.attempts
    ensures WasArmed(t.Events()) ==> 1 <= Count(t.Events(), Disarm) <= 2 && r.attempts >= 1
    ensures !WasArmed(t.Events()) ==>
      Count(t.Events(), TurnOff) == Count(t.Events(), TurnOn) == Count(t.Events(), Disarm) == r.attempts == 0
  {
    RunIsOk(t, r, wired, o, parent, start, step);
    ArmedOnLog(t, r, wired, o, parent, start, step);
    CallCounts(t, r, Attempts(o));
    if Armed(t.setup) {
      MovingCalls(t, r, Attempts(o), TurnOff);
      AttemptsCounts(t.attempts, r.oldIp);
      RecoveryPartCounts(t, r, Attempts(o));
    }
  }

  lemma Appended(first: seq<Event>, e: seq<Event>, last: seq<Event>, after: seq<Event>)
    ensures first + e + last + after == first + e + (last + after)
  {
  }

  /** The attempt an entry of the loop belongs to, and what comes before and after it. */
  lemma {:induction false} InAttempt(attempts: seq<Attempt>, k: nat)
    returns (i: nat, first: seq<Event>, last: seq<Event>)
    requires k < |AllEvents(attempts)|
    ensures i < |attempts| && |first| <= k < |first| + |attempts[i].Events()|
    ensures AllEvents(attempts) == first + attempts[i].Events() + last
  {
    var front, a := attempts[..|attempts| - 1], attempts[|attempts| - 1];
    if k < |AllEvents(front)| {
      var rest;
      i, first, rest := InAttempt(front, k);
      last := rest + a.Events();
      Appended(first, attempts[i].Events(), rest, a.Events());
    } else {
      i, first, last := |attempts| - 1, AllEvents(front), [];
    }
  }

  /**
   * WarpOn in the loop: right after a read that saw WARP off, with nothing but reads since a WarpOff that
   * succeeded.
   */
  predicate OnAfterOff(log: seq<Event>, k: nat)
    requires k < |log|
  {
    k >= 1 && log[k - 1].Saw(Off) &&
    exists j :: 0 <= j < k - 1 && log[j].call.TurnOff? && log[j].Ok() && forall i :: j < i < k ==> log[i].call.Status?
  }

  /** WarpOn in the recovery: after a read that did not see WARP on, and nothing moves WARP after it. */
  predicate OnToRecover(log: seq<Event>, k: nat)
    requires k < |log|
  {
    k >= 1 && log[k - 1].call.Status? && !log[k - 1].Saw(On) &&
    forall i :: k < i < |log| ==> !log[i].call.TurnOff? && !log[i].call.TurnOn?
  }

  lemma OnInAttempt(log: seq<Event>, first: seq<Event>, a: Attempt, last: seq<Event>, oldIp: string, k: nat)
    requires log == first + a.Events() + last && a.Valid(oldIp)
    requires |first| <= k < |first| + |a.Events()| && log[k].call.TurnOn?
    ensures OnAfterOff(log, k)
  {
    var j, e := |first|, a.Events();
    AtMiddle(first, e, last, k);
    OnFollowsSeenOff(a, oldIp, k - j);
    AtMiddle(first, e, last, j);
    AtMiddle(first, e, last, k - 1);
    forall n | j < n < k ensures log[n].call.Status? {
      AtMiddle(first, e, last, n);
    }
  }

  lemma Regroup(before: seq<Event>, first: seq<Event>, e: seq<Event>, last: seq<Event>, after: seq<Event>)
    ensures before + (first + e + last) + after == (before + first) + e + (last + after)
  {
  }

  lemma OnInLoop(log: seq<Event>, before: seq<Event>, attempts: seq<Attempt>, after: seq<Event>, oldIp: string, k: nat)
    requires log == before + AllEvents(attempts) + after && AttemptsValid(attempts, oldIp)
    requires |before| <= k < |before| + |AllEvents(attempts)| && log[k].call.TurnOn?
    ensures OnAfterOff(log, k)
  {
    var i, first, last := InAttempt(attempts, k - |before|);
    Regroup(before, first, attempts[i].Events(), last, after);
    OnInAttempt(log, before + first, attempts[i], last + after, oldIp, k);
  }

  /** In a recovery only the second call is WarpOn, and the first is a read that did not see WARP on. */
  lemma RecoveryCalls(v: Recovery, k: nat)
    requires v.Valid() && k < |v.Events()|
    ensures !v.Events()[k].call.TurnOff? && (v.Events()[k].call.TurnOn? ==> k == 1)
    ensures v.Events()[0].call.Status? && (v.on.Some? ==> !v.Events()[0].Saw(On))
    ensures v.Events()[k].call.TurnOn? ==> v.on.Some?
  {
    var rest := v.wait + ToSeq(v.last);
    assert v.Events() == [v.look] + ToSeq(v.on) + rest;
    forall i | 0 <= i < |rest| ensures rest[i].call.Status? {
    }
  }

  lemma OnInRecovery(log: seq<Event>, before: seq<Event>, v: Recovery, disarms: seq<Event>, k: nat)
    requires log == before + v.Events() + disarms && v.Valid()
    requires forall i :: 0 <= i < |disarms| ==> disarms[i].call.Disarm?
    requires |before| <= k < |before| + |v.Events()| && log[k].call.TurnOn?
    ensures OnToRecover(log, k)
  {
    RecoveryCalls(v, k - |before|);
    forall i | k < i < |log| ensures !log[i].call.TurnOff? && !log[i].call.TurnOn? {
      if i < |before| + |v.Events()| {
        RecoveryCalls(v, i - |before|);
      } else {
        assert log[i] == disarms[i - |before| - |v.Events()|];
      }
    }
    assert log[k - 1] == v.Events()[0];
  }

  /** Every WarpOn follows a WarpOff that took effect, or is the recovery's. */
  lemma OnOnlyAfterSeenOff(t: Trace, r: Result, wired: bool, o: Options, parent: Context, start: int, step: int, k: nat)
    requires IsRun(t, r, wired, o, parent, start, step) && k < |t.Events()| && t.Events()[k].call.TurnOn?
    ensures OnAfterOff(t.Events(), k) || OnToRecover(t.Events(), k)
  {
    RunIsOk(t, r, wired, o, parent, start, step);
    SetupIsReads(t, r, Attempts(o));
    SetupComesFirst(t);
    if !Armed(t.setup) {
      RefusedMovesNothing(t, r);
    } else {
      OnInArmedRun(t, r, Attempts(o), k);
    }
  }

  lemma OnInArmedRun(t: Trace, r: Result, limit: int, k: nat)
    requires ArmedRun(t, r, limit) && k < |t.Events()| && t.Events()[k].call.TurnOn?
    ensures OnAfterOff(t.Events(), k) || OnToRecover(t.Events(), k)
  {
    ArmedParts(t, r, limit);
    Parts(t);
    if t.recovery.Some? {
      assert RecoveryEvents(t) == t.recovery.value.Events();
      OnInParts(t.setup, t.attempts, ToSeq(t.check), t.recovery.value, t.disarms, r.oldIp, t.Events(), k);
    } else {
      NoRecoveryParts(t);
      OnWithoutRecovery(t.setup, t.attempts, ToSeq(t.check), t.disarms, r.oldIp, t.Events(), k);
    }
  }

  lemma ArmedParts(t: Trace, r: Result, limit: int)
    requires ArmedRun(t, r, limit)
    ensures AttemptsValid(t.attempts, r.oldIp) && (t.recovery.Some? ==> t.recovery.value.Valid())
    ensures forall e :: e in t.setup || e in ToSeq(t.check) || e in t.disarms ==> !e.call.TurnOn? && !e.call.TurnOff?
    ensures forall i :: 0 <= i < |t.disarms| ==> t.disarms[i].call.Disarm?
  {
    ArmedSetup(t.setup);
    ArmedEnd(t, r, limit);
  }

  lemma ArmedSetup(setup: seq<Event>)
    requires Armed(setup)
    ensures forall e :: e in setup ==> !e.call.TurnOn? && !e.call.TurnOff?
  {
  }

  lemma ArmedEnd(t: Trace, r: Result, limit: int)
    requires ArmedRun(t, r, limit)
    ensures Armed(t.setup) && AttemptsValid(t.attempts, r.oldIp)
    ensures t.recovery.Some? ==> t.recovery.value.Valid()
    ensures t.check.Some? ==> t.check.value.call.Status?
    ensures forall e :: e in t.disarms ==> e.call.Disarm?
  {
  }

  lemma OnInParts(setup: seq<Event>, attempts: seq<Attempt>, c: seq<Event>, v: Recovery, disarms: seq<Event>,
                  oldIp: string,
                  log: seq<Event>, k: nat)
    requires AttemptsValid(attempts, oldIp) && v.Valid()
    requires forall e :: e in setup || e in c || e in disarms ==> !e.call.TurnOn?
    requires forall i :: 0 <= i < |disarms| ==> disarms[i].call.Disarm?
    requires log == setup + AllEvents(attempts) + c + v.Events() + disarms && k < |log| && log[k].call.TurnOn?
    ensures OnAfterOff(log, k) || OnToRecover(log, k)
  {
    var a, e := AllEvents(attempts), v.Events();
    if |setup| <= k < |setup| + |a| {
      LoopThenRest(setup, a, c, e, disarms);
      OnInLoop(log, setup, attempts, c + e + disarms, oldIp, k);
    } else if |setup + a + c| <= k < |setup + a + c| + |e| {
      OnInRecovery(log, setup + a + c, v, disarms, k);
    } else {
      NotInTheRest(log, setup, a, c, e, disarms, k);
    }
  }

  lemma OnWithoutRecovery(setup: seq<Event>, attempts: seq<Attempt>, c: seq<Event>, disarms: seq<Event>, oldIp: string,
                          log: seq<Event>, k: nat)
    requires AttemptsValid(attempts, oldIp)
    requires forall e :: e in setup || e in c || e in disarms ==> !e.call.TurnOn?
    requires log == setup + AllEvents(attempts) + c + disarms && k < |log| && log[k].call.TurnOn?
    ensures OnAfterOff(log, k)
  {
    var a := AllEvents(attempts);
    assert setup + a + c + [] + disarms == log;
    if |setup| <= k < |setup| + |a| {
      Joined(setup + a, c, disarms);
      OnInLoop(log, setup, attempts, c + disarms, oldIp, k);
    } else {
      NotInTheRest(log, setup, a, c, [], disarms, k);
    }
  }

  lemma AtMiddle(first: seq<Event>, middle: seq<Event>, last: seq<Event>, k: nat)
    requires |first| <= k < |first| + |middle|
    ensures (first + middle + last)[k] == middle[k - |first|]
  {
  }

  lemma NoRecoveryParts(t: Trace)
    requires t.recovery.None?
    ensures t.Events() == t.setup + AllEvents(t.attempts) + ToSeq(t.check) + t.disarms
  {
  }

  lemma Parts(t: Trace)
    ensures t.Events() == t.setup + AllEvents(t.attempts) + ToSeq(t.check) + RecoveryEvents(t) + t.disarms
  {
  }

  lemma LoopThenRest(setup: seq<Event>, a: seq<Event>, c: seq<Event>, e: seq<Event>, disarms: seq<Event>)
    ensures setup + a + c + e + disarms == setup + a + (c + e + disarms)
  {
  }

  lemma NotInTheRest(log: seq<Event>, setup: seq<Event>, a: seq<Event>, c: seq<Event>, v: seq<Event>,
                     disarms: seq<Event>, k: nat)
    requires log == setup + a + c + v + disarms
    requires forall e :: e in setup || e in c || e in disarms ==> !e.call.TurnOn?
    requires k < |log| && !(|setup| <= k < |setup| + |a|)
    requires !(|setup + a + c| <= k < |setup + a + c| + |v|)
    ensures !log[k].call.TurnOn?
  {
    if k < |setup| {
      assert log[k] == setup[k];
    } else if k < |setup + a + c| {
      assert log[k] == c[k - |setup| - |a|];
    } else {
      assert log[k] == disarms[k - |setup + a + c + v|];
    }
  }

  // How a run ends.

  /** Everything before the disarms. */
  function Body(t: Trace): seq<Event> {
    t.setup + AllEvents(t.attempts) + ToSeq(t.check) + RecoveryEvents(t)
  }

  predicate NewAddress(e: Event, oldIp: string) {
    e.call.GetIps? && e.GotAddress() && e.Address() != oldIp
  }

  lemma {:induction false} NoneCounted(events: seq<Event>, c: Call, i: nat)
    requires Count(events, c) == 0 && i < |events|
    ensures events[i].call != c
  {
    if i < |events| - 1 {
      NoneCounted(events[..|events| - 1], c, i);
    }
  }

  lemma DisarmCount(t: Trace, r: Result, limit: int)
    requires ArmedRun(t, r, limit)
    ensures Count(t.Events(), Disarm) == |t.disarms|
  {
    MovingCalls(t, r, limit, Disarm);
    AttemptsCounts(t.attempts, r.oldIp);
    RecoveryPartCounts(t, r, limit);
  }

  lemma NoneBefore(body: seq<Event>, disarms: seq<Event>, i: nat)
    requires Count(body + disarms, Disarm) == |disarms| && i < |body|
    requires forall k :: 0 <= k < |disarms| ==> disarms[k].call.Disarm?
    ensures !body[i].call.Disarm?
  {
    CountAll(disarms, Disarm);
    CountAppend(body, disarms, Disarm);
    NoneCounted(body, Disarm, i);
  }

  /** The disarms are the end of the log, and nothing before them is one. */
  lemma DisarmsLast(t: Trace, r: Result, limit: int)
    requires ArmedRun(t, r, limit)
    ensures t.Events() == Body(t) + t.disarms && Count(t.Events(), Disarm) == |t.disarms|
    ensures forall i :: 0 <= i < |Body(t)| ==> !Body(t)[i].call.Disarm?
  {
    DisarmCount(t, r, limit);
    Parts(t);
    EndIsCheckAndDisarms(t, r, limit);
    forall i | 0 <= i < |Body(t)| ensures !Body(t)[i].call.Disarm? {
      NoneBefore(Body(t), t.disarms, i);
    }
  }

  /** The last two calls of an attempt that changed the address. */
  lemma ChangedEnds(a: Attempt, oldIp: string)
    requires a.Valid(oldIp) && a.Changed()
    ensures |a.Events()| >= 2 && a.Events()[|a.Events()| - 1].Saw(On) && NewAddress(a.Events()[|a.Events()| - 2], oldIp)
    ensures a.Events()[|a.Events()| - 2] == a.ip.value
  {
    assert a.Events() == [a.off] + a.offWait + ToSeq(a.on) + a.onWait + ([a.ip.value] + [a.last.value]);
  }

  /** The last call of any other attempt is not a read of a new address. */
  lemma UnchangedEnds(a: Attempt, oldIp: string)
    requires a.Valid(oldIp) && !a.Changed()
    ensures a.Events() != [] && !NewAddress(a.Events()[|a.Events()| - 1], oldIp)
  {
    if a.last.Some? {
      assert a.Events()[|a.Events()| - 1] == a.last.value;
    } else if a.ip.Some? {
      assert a.Events()[|a.Events()| - 1] == a.ip.value;
    } else {
      NoAddressEarly(a, oldIp);
    }
  }

  lemma NoAddressEarly(a: Attempt, oldIp: string)
    requires a.Valid(oldIp) && a.ip.None? && a.last.None?
    ensures forall i :: 0 <= i < |a.Events()| ==> !a.Events()[i].call.GetIps?
  {
    assert a.Events() == [a.off] + a.offWait + ToSeq(a.on) + a.onWait;
  }

  lemma WonEnds(t: Trace, r: Result, limit: int)
    requires ArmedRun(t, r, limit) && Won(t)
    ensures var b := Body(t);
      |b| >= 5 && b[|b| - 1].Saw(On) && NewAddress(b[|b| - 2], r.oldIp) && r.newIp == b[|b| - 2].Address()
  {
    var a := t.attempts[|t.attempts| - 1];
    ChangedEnds(a, r.oldIp);
    Joined(t.setup, AllEvents(t.attempts[..|t.attempts| - 1]), a.Events());
  }

  lemma LoopEnds(setup: seq<Event>, attempts: seq<Attempt>, oldIp: string)
    requires Armed(setup) && AttemptsValid(attempts, oldIp)
    requires attempts != [] ==> !attempts[|attempts| - 1].Changed()
    ensures var before := setup + AllEvents(attempts); |before| >= 3 && !NewAddress(before[|before| - 1], oldIp)
  {
    if attempts != [] {
      var a := attempts[|attempts| - 1];
      UnchangedEnds(a, oldIp);
      Joined(setup, AllEvents(attempts[..|attempts| - 1]), a.Events());
    }
  }

  /** A lost run ends with its check, after something that is not a read of a new address ... */
  lemma LostEnds(t: Trace, r: Result, limit: int)
    requires ArmedRun(t, r, limit) && !Won(t) && t.recovery.None?
    ensures var b := Body(t); |b| >= 4 && b[|b| - 1] == t.check.value && !NewAddress(b[|b| - 2], r.oldIp)
  {
    LoopEnds(t.setup, t.attempts, r.oldIp);
    assert Body(t) == t.setup + AllEvents(t.attempts) + [t.check.value];
  }

  /** ... or with the last look of its recovery, which comes right after the read that saw WARP on if one did. */
  lemma RecoveredEnds(before: seq<Event>, v: Recovery)
    requires v.Valid() && before != [] && before[|before| - 1].call.Status? && !before[|before| - 1].Saw(On)
    ensures var b := before + v.Events();
      && |b| >= 2 && b[|b| - 1].call.Status? && b[|b| - 1].reply.state == v.State() && !b[|b| - 2].call.GetIps?
      && (b[|b| - 1].Ok() && b[|b| - 1].reply.state != On && b[|b| - 2].Saw(On) <==> v.State() != On && !v.Failed())
  {
    var b := before + v.Events();
    if v.on.None? {
      assert v.Events() == [v.look] && b[|b| - 2] == before[|before| - 1];
    } else if v.wait == [] {
      assert v.Events() == [v.look, v.on.value, v.last.value];
      assert b[|b| - 2] == v.on.value && b[|b| - 1] == v.last.value;
    } else {
      assert v.Events() == [v.look, v.on.value] + v.wait + [v.last.value];
      assert b[|b| - 2] == v.wait[|v.wait| - 1] && b[|b| - 1] == v.last.value;
    }
  }

  lemma RecoveryEnds(t: Trace, r: Result, limit: int)
    requires ArmedRun(t, r, limit) && !Won(t) && t.recovery.Some?
    ensures var b := Body(t);
      && |b| >= 5 && b[|b| - 1].call.Status? && b[|b| - 1].reply.state == r.finalState && !b[|b| - 2].call.GetIps?
      && (b[|b| - 1].Ok() && r.finalState != On && b[|b| - 2].Saw(On) <==> r.finalState != On && !r.recoveryFailed)
  {
    var before := t.setup + AllEvents(t.attempts) + [t.check.value];
    assert before[|before| - 1] == t.check.value && Body(t) == before + t.recovery.value.Events();
    RecoveredEnds(before, t.recovery.value);
  }

  /**
   * After Arm, Disarm is called at the very end of the run, once or twice: twice exactly if the first call failed and
   * no recovery error was recorded.
   */
  lemma SecondDisarmIff(t: Trace, r: Result, wired: bool, o: Options, parent: Context, start: int, step: int)
    requires IsRun(t, r, wired, o, parent, start, step) && WasArmed(t.Events())
    ensures var log, d := t.Events(), Count(t.Events(), Disarm);
      && 1 <= d <= 2 && d <= |log| && (forall i :: 0 <= i < |log| ==> (log[i].call.Disarm? <==> |log| - d <= i))
      && (d == 2 <==> !log[|log| - d].Ok() && !r.recoveryFailed)
  {
    ArmedOnLog(t, r, wired, o, parent, start, step);
    RunIsOk(t, r, wired, o, parent, start, step);
    DisarmsLast(t, r, Attempts(o));
    DisarmRule(t, r, Attempts(o));
  }

  lemma DisarmRule(t: Trace, r: Result, limit: int)
    requires ArmedRun(t, r, limit)
    ensures 1 <= |t.disarms| <= 2 && (|t.disarms| == 2 <==> !t.disarms[0].Ok() && !r.recoveryFailed)
    ensures forall i :: 0 <= i < |t.disarms| ==> t.disarms[i].call.Disarm?
    ensures r.watchdogFailed <==> !t.disarms[0].Ok() && !r.recoveryFailed
  {
  }

  /**
   * The watchdog is left armed exactly if the last call failed, and that goes unreported exactly after a
   * failed recovery.
   */
  lemma WatchdogLeftArmed(t: Trace, r: Result, wired: bool, o: Options, parent: Context, start: int, step: int)
    requires IsRun(t, r, wired, o, parent, start, step) && WasArmed(t.Events())
    ensures var log := t.Events();
      && (NeverDisarmed(log) <==> !log[|log| - 1].Ok())
      && (NeverDisarmed(log) && !r.watchdogFailed <==> !log[|log| - 1].Ok() && r.recoveryFailed)
  {
    ArmedOnLog(t, r, wired, o, parent, start, step);
    RunIsOk(t, r, wired, o, parent, start, step);
    WatchdogOfArmed(t, r, Attempts(o), t.Events());
  }

  /** Every Disarm in the log failed. */
  predicate NeverDisarmed(log: seq<Event>) {
    forall i :: 0 <= i < |log| && log[i].call.Disarm? ==> !log[i].Ok()
  }

  lemma WatchdogOfArmed(t: Trace, r: Result, limit: int, log: seq<Event>)
    requires ArmedRun(t, r, limit) && log == t.Events()
    ensures log != [] && (NeverDisarmed(log) <==> !log[|log| - 1].Ok())
    ensures NeverDisarmed(log) && !r.watchdogFailed <==> !log[|log| - 1].Ok() && r.recoveryFailed
  {
    DisarmsLast(t, r, limit);
    DisarmRule(t, r, limit);
    var body := Body(t);
    assert log == body + t.disarms;
    FailedDisarms(log, body, t.disarms, r.watchdogFailed, r.recoveryFailed);
  }

  lemma FailedDisarms(log: seq<Event>, body: seq<Event>, disarms: seq<Event>, reported: bool, recoveryFailed: bool)
    requires log == body + disarms && forall i :: 0 <= i < |body| ==> !body[i].call.Disarm?
    requires 1 <= |disarms| <= 2 && (|disarms| == 2 <==> !disarms[0].Ok() && !recoveryFailed)
    requires forall i :: 0 <= i < |disarms| ==> disarms[i].call.Disarm?
    requires reported <==> !disarms[0].Ok() && !recoveryFailed
    ensures log != [] && (NeverDisarmed(log) <==> !log[|log| - 1].Ok())
    ensures NeverDisarmed(log) && !reported <==> !log[|log| - 1].Ok() && recoveryFailed
  {
    assert log[|log| - 1] == disarms[|disarms| - 1] && log[|body|] == disarms[0];
    assert forall i :: 0 <= i < |body| ==> log[i] == body[i];
    assert forall i :: |body| <= i < |log| ==> log[i] == disarms[i - |body|];
  }

  /**
   * A run is a success exactly if its log ends with a read of a new address, a status read that saw WARP on, and a
   * Disarm that succeeded; the result then names that address.
   */
  lemma SuccessMeans(t: Trace, r: Result, wired: bool, o: Options, parent: Context, start: int, step: int)
    requires IsRun(t, r, wired, o, parent, start, step)
    ensures var log := t.Events(); var n := |log|;
      && (r.success <==> WasArmed(log) && EndsWell(log, log[1].Address()))
      && (r.success ==> r.oldIp == log[1].Address() && r.newIp == log[n - 3].Address() && r.newIp != "" && r.oldIp != ""
                        && r.finalState == On && r.code == "ok" && Count(log, Disarm) == 1)
  {
    ArmedOnLog(t, r, wired, o, parent, start, step);
    RunIsOk(t, r, wired, o, parent, start, step);
    if Armed(t.setup) {
      SetupComesFirst(t);
      assert t.Events()[1] == t.Events()[..3][1];
      SuccessOfArmed(t, r, Attempts(o));
    }
  }

  /** A log that ends as that of a successful run does. */
  predicate EndsWell(log: seq<Event>, oldIp: string) {
    var n := |log|;
    && n >= 6 && NewAddress(log[n - 3], oldIp) && log[n - 2].Saw(On)
    && log[n - 1].call.Disarm? && log[n - 1].Ok()
  }

  lemma EndsWellIff(body: seq<Event>, disarms: seq<Event>, oldIp: string)
    requires |body| >= 4 && 1 <= |disarms| <= 2 && forall i :: 0 <= i < |disarms| ==> disarms[i].call.Disarm?
    ensures var b := |body|;
      EndsWell(body + disarms, oldIp) <==>
        |disarms| == 1 && b >= 5 && NewAddress(body[b - 2], oldIp) && body[b - 1].Saw(On) && disarms[0].Ok()
    ensures |disarms| == 1 ==> (body + disarms)[|body| - 2] == body[|body| - 2]
  {
    var log := body + disarms;
    if |disarms| == 1 {
      assert log[|log| - 1] == disarms[0] && log[|log| - 2] == body[|body| - 1] && log[|log| - 3] == body[|body| - 2];
    } else {
      assert log[|log| - 2] == disarms[0];
    }
  }

  lemma SuccessOfArmed(t: Trace, r: Result, limit: int)
    requires ArmedRun(t, r, limit)
    ensures |t.Events()| >= 5 && (r.success <==> EndsWell(t.Events(), r.oldIp))
    ensures var log := t.Events();
      r.success ==> |log| >= 6 && r.newIp == log[|log| - 3].Address() && r.newIp != "" && r.oldIp != ""
                    && r.finalState == On && r.code == "ok" && Count(log, Disarm) == 1
  {
    if Won(t) { SuccessOfWon(t, r, limit); } else { SuccessOfLost(t, r, limit); }
  }

  lemma SuccessOfWon(t: Trace, r: Result, limit: int)
    requires ArmedRun(t, r, limit) && Won(t)
    ensures |t.Events()| >= 5 && (r.success <==> EndsWell(t.Events(), r.oldIp))
    ensures var log := t.Events();
      r.success ==> |log| >= 6 && r.newIp == log[|log| - 3].Address() && r.newIp != "" && r.oldIp != ""
                    && r.finalState == On && r.code == "ok" && Count(log, Disarm) == 1
  {
    DisarmsLast(t, r, limit);
    DisarmRule(t, r, limit);
    WonBody(t, r, limit);
    EndsWellIff(Body(t), t.disarms, r.oldIp);
  }

  lemma SuccessOfLost(t: Trace, r: Result, limit: int)
    requires ArmedRun(t, r, limit) && !Won(t)
    ensures |t.Events()| >= 5 && !r.success && !EndsWell(t.Events(), r.oldIp)
  {
    DisarmsLast(t, r, limit);
    DisarmRule(t, r, limit);
    LostBody(t, r, limit);
    EndsWellIff(Body(t), t.disarms, r.oldIp);
  }

  lemma WonBody(t: Trace, r: Result, limit: int)
    requires ArmedRun(t, r, limit) && Won(t)
    ensures var b := Body(t);
      && |b| >= 5 && b[|b| - 1].Saw(On) && NewAddress(b[|b| - 2], r.oldIp) && r.newIp == b[|b| - 2].Address()
      && r.success == t.disarms[0].Ok() && r.finalState == On && !r.recoveryFailed && r.oldIp != "" && r.newIp != ""
      && (r.success ==> r.code == "ok")
  {
    WonEnds(t, r, limit);
    WonResult(t, r, limit);
  }

  lemma LostBody(t: Trace, r: Result, limit: int)
    requires ArmedRun(t, r, limit) && !Won(t)
    ensures !r.success && |Body(t)| >= 4 && !NewAddress(Body(t)[|Body(t)| - 2], r.oldIp)
  {
    LostResult(t, r, limit);
    if t.recovery.None? { LostEnds(t, r, limit); } else { RecoveryEnds(t, r, limit); }
  }

  lemma WonResult(t: Trace, r: Result, limit: int)
    requires ArmedRun(t, r, limit) && Won(t)
    ensures r.success == t.disarms[0].Ok() && r.finalState == On && !r.recoveryFailed && r.oldIp != ""
    ensures r.success ==> r.code == "ok"
  {
  }

  lemma LostResult(t: Trace, r: Result, limit: int)
    requires ArmedRun(t, r, limit) && !Won(t)
    ensures !r.success && t.check.Some? && t.check.value.call.Status?
    ensures t.recovery.None? ==> t.check.value.Saw(On) && r.finalState == On && !r.recoveryFailed
  {
  }

  /**
   * A run that armed the watchdog ends neither with WARP on nor with a recovery error exactly if the last two calls
   * before the disarms are status reads of which the first saw WARP on and the second, though it succeeded, did not.
   */
  lemma LeftOffUnreportedIff(t: Trace, r: Result, wired: bool, o: Options, parent: Context, start: int, step: int)
    requires IsRun(t, r, wired, o, parent, start, step) && WasArmed(t.Events())
    ensures var log := t.Events(); var k := |log| - Count(log, Disarm) - 1;
      && 1 <= k < |log|
      && (r.finalState != On && !r.recoveryFailed <==>
            log[k - 1].Saw(On) && log[k].call.Status? && log[k].Ok() && log[k].reply.state != On)
  {
    ArmedOnLog(t, r, wired, o, parent, start, step);
    RunIsOk(t, r, wired, o, parent, start, step);
    DisarmsLast(t, r, Attempts(o));
    DisarmRule(t, r, Attempts(o));
    LeftOffOfArmed(t, r, Attempts(o));
    var log, b := t.Events(), Body(t);
    assert log[|b| - 1] == b[|b| - 1] && log[|b| - 2] == b[|b| - 2];
  }

  lemma LeftOffOfArmed(t: Trace, r: Result, limit: int)
    requires ArmedRun(t, r, limit)
    ensures var b := Body(t); var k := |b| - 1;
      && 1 <= k
      && (r.finalState != On && !r.recoveryFailed <==>
            b[k - 1].Saw(On) && b[k].call.Status? && b[k].Ok() && b[k].reply.state != On)
  {
    if Won(t) {
      WonEnds(t, r, limit);
      WonResult(t, r, limit);
    } else {
      LostResult(t, r, limit);
      if t.recovery.None? { LostEnds(t, r, limit); } else { RecoveryEnds(t, r, limit); }
    }
  }

  /**
   * On a host where WARP stays on until it is turned off, every armed run leaves it on or reports that it
   * could not.
   */
  lemma EndsOnOrReports(t: Trace, r: Result, wired: bool, o: Options, parent: Context, start: int, step: int)
    requires IsRun(t, r, wired, o, parent, start, step) && WasArmed(t.Events()) && StaysOn(t.Events())
    ensures r.finalState == On || r.recoveryFailed
  {
    LeftOffUnreportedIff(t, r, wired, o, parent, start, step);
    var k := |t.Events()| - Count(t.Events(), Disarm) - 1;
    var before, look := t.Events()[k - 1], t.Events()[k];
    assert before.Saw(On) && look.call.Status? && look.Ok() ==> look.reply.state == On;
  }
}
