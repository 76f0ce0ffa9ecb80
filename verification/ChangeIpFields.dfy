/**
 * What the log of a run shows on the fields of calls and replies (agent/internal/warpchange/state.go): which addresses
 * it compares and reports, which code a refusal has, and how much time WarpOff and WarpOn get.
 */
module ChangeIpFields {
  import opened Basics
  import opened ChangeIp
  import opened ChangeIpLog

  /** A read that succeeded and found `ip`: the version 6 address if there is one, otherwise the version 4 address. */
  predicate Got(e: Event, ip: string) {
    && e.call == GetIps && e.reply.error == None && ip != ""
    && ip == if e.reply.ip6 != "" then e.reply.ip6 else e.reply.ip4
  }

  lemma GotIs(e: Event)
    ensures forall ip :: Got(e, ip) <==> e.call.GetIps? && e.GotAddress() && ip == e.Address()
  {
  }

  lemma ArmedOnFields(log: seq<Event>)
    ensures WasArmed(log) <==>
      && |log| >= 3 && log[0].call == Status && log[0].reply.error == None
      && (log[0].reply.state == On || log[0].reply.state == Degraded)
      && (exists ip :: Got(log[1], ip)) && log[2].call.Arm? && log[2].reply.error == None
  {
    if |log| >= 3 {
      GotIs(log[1]);
      assert log[..3][0] == log[0] && log[..3][1] == log[1] && log[..3][2] == log[2];
      assert WasArmed(log) ==> Got(log[1], log[1].Address());
    }
  }

  /** No address was read from entry `from` on. */
  ghost predicate NoneGot(log: seq<Event>, from: nat) {
    forall k, ip :: from <= k < |log| ==> !Got(log[k], ip)
  }

  /** `ip` is what the last successful read from entry `from` on found, or empty if there was none. */
  ghost predicate LastGot(log: seq<Event>, from: nat, ip: string) {
    if ip == "" then NoneGot(log, from)
    else exists k :: from <= k < |log| && Got(log[k], ip) && NoneGot(log, k + 1)
  }

  lemma NoneGotAppend(a: seq<Event>, b: seq<Event>, from: nat)
    requires from <= |a| && NoneGot(b, 0)
    ensures NoneGot(a, from) ==> NoneGot(a + b, from)
  {
    if NoneGot(a, from) {
      forall k, ip | from <= k < |a + b| ensures !Got((a + b)[k], ip) {
        assert k >= |a| ==> (a + b)[k] == b[k - |a|];
      }
    }
  }

  lemma LastGotBefore(a: seq<Event>, b: seq<Event>, from: nat, ip: string)
    requires from <= |a| && LastGot(a, from, ip) && NoneGot(b, 0)
    ensures LastGot(a + b, from, ip)
  {
    if ip == "" {
      NoneGotAppend(a, b, from);
    } else {
      var k :| from <= k < |a| && Got(a[k], ip) && NoneGot(a, k + 1);
      NoneGotAppend(a, b, k + 1);
      assert (a + b)[k] == a[k];
    }
  }

  lemma LastGotHere(a: seq<Event>, b: seq<Event>, from: nat, ip: string)
    requires from <= |a| && ip != "" && LastGot(b, 0, ip)
    ensures LastGot(a + b, from, ip)
  {
    var k :| 0 <= k < |b| && Got(b[k], ip) && NoneGot(b, k + 1);
    var i := |a| + k;
    assert (a + b)[i] == b[k];
    forall j, other | i + 1 <= j < |a + b| ensures !Got((a + b)[j], other) {
      assert (a + b)[j] == b[j - |a|];
    }
  }

  /** An attempt reads the address at most once. */
  lemma AttemptGot(a: Attempt, oldIp: string)
    requires a.Valid(oldIp)
    ensures LastGot(a.Events(), 0, if a.ip.Some? && a.ip.value.GotAddress() then a.ip.value.Address() else "")
  {
    var head, tail := [a.off] + a.offWait + ToSeq(a.on) + a.onWait, ToSeq(a.ip) + ToSeq(a.last);
    Joined(head, ToSeq(a.ip), ToSeq(a.last));
    HeadGetsNone(a, oldIp, head);
    if a.ip.Some? {
      GotIs(a.ip.value);
      assert tail[0] == a.ip.value;
      assert NoneGot(tail, 1);
      if a.ip.value.GotAddress() {
        LastGotHere(head, tail, 0, a.ip.value.Address());
      } else {
        NoneGotAppend(head, tail, 0);
      }
    } else {
      NoneGotAppend(head, tail, 0);
    }
  }

  lemma HeadGetsNone(a: Attempt, oldIp: string, head: seq<Event>)
    requires a.Valid(oldIp) && head == [a.off] + a.offWait + ToSeq(a.on) + a.onWait
    ensures forall e :: e in head ==> !e.call.GetIps?
    ensures NoneGot(head, 0)
  {
    assert forall k, ip :: 0 <= k < |head| ==> head[k] in head && !Got(head[k], ip);
  }

  lemma {:induction false} LoopGot(attempts: seq<Attempt>, oldIp: string)
    requires AttemptsValid(attempts, oldIp)
    ensures LastGot(AllEvents(attempts), 0, LatestIp(attempts))
  {
    if attempts != [] {
      var front, a := attempts[..|attempts| - 1], attempts[|attempts| - 1];
      LoopGot(front, oldIp);
      AttemptGot(a, oldIp);
      if a.ip.Some? && a.ip.value.GotAddress() {
        LastGotHere(AllEvents(front), a.Events(), 0, a.ip.value.Address());
      } else {
        LastGotBefore(AllEvents(front), a.Events(), 0, LatestIp(front));
      }
    }
  }

  /** What follows the loop. */
  function Rest(t: Trace): seq<Event> {
    ToSeq(t.check) + RecoveryEvents(t) + t.disarms
  }

  lemma RecoveryReadsNone(v: Recovery)
    requires v.Valid()
    ensures forall e :: e in v.Events() ==> !e.call.GetIps? && !e.call.TurnOff?
  {
    assert forall e :: e in v.Events() ==> e == v.look || e in ToSeq(v.on) || e in v.wait || e in ToSeq(v.last);
  }

  lemma RestGetsNone(t: Trace, r: Result, limit: int)
    requires ArmedRun(t, r, limit)
    ensures forall e :: e in Rest(t) ==> !e.call.GetIps? && !e.call.TurnOff?
    ensures NoneGot(Rest(t), 0)
    ensures t.Events() == t.setup + AllEvents(t.attempts) + Rest(t)
  {
    ArmedEnd(t, r, limit);
    if t.recovery.Some? {
      RecoveryReadsNone(t.recovery.value);
    }
    forall k, ip | 0 <= k < |Rest(t)| ensures !Got(Rest(t)[k], ip) {
      assert Rest(t)[k] in Rest(t);
    }
    LoopThenRest(t.setup, AllEvents(t.attempts), ToSeq(t.check), RecoveryEvents(t), t.disarms);
  }

  /**
   * The old address of a run that armed the watchdog is the one that its second call found, and the new one is the last
   * that a later call found.
   */
  lemma AddressesAreRead(t: Trace, r: Result, wired: bool, o: Options, parent: Context, start: int, step: int)
    requires IsRun(t, r, wired, o, parent, start, step) && WasArmed(t.Events())
    ensures Got(t.Events()[1], r.oldIp) && LastGot(t.Events(), 3, r.newIp)
  {
    ArmedOnLog(t, r, wired, o, parent, start, step);
    RunIsOk(t, r, wired, o, parent, start, step);
    SetupComesFirst(t);
    assert t.Events()[1] == t.Events()[..3][1];
    GotIs(t.setup[1]);
    LoopGot(t.attempts, r.oldIp);
    RestGetsNone(t, r, Attempts(o));
    LastGotBefore(AllEvents(t.attempts), Rest(t), 0, r.newIp);
    Joined(t.setup, AllEvents(t.attempts), Rest(t));
    Shifted(t.setup, AllEvents(t.attempts) + Rest(t), r.newIp);
  }

  lemma Shifted(a: seq<Event>, b: seq<Event>, ip: string)
    requires LastGot(b, 0, ip)
    ensures LastGot(a + b, |a|, ip)
  {
    if ip == "" {
      forall k, other | |a| <= k < |a + b| ensures !Got((a + b)[k], other) {
        assert (a + b)[k] == b[k - |a|];
      }
    } else {
      LastGotHere(a, b, |a|, ip);
    }
  }

  /**
   * A run is a success exactly if it armed the watchdog and its log ends with a successful read of an address other
   * than the old one, a status read that saw WARP on, and a Disarm that succeeded; it then reports those two addresses.
   */
  lemma SuccessOnFields(t: Trace, r: Result, wired: bool, o: Options, parent: Context, start: int, step: int)
    requires IsRun(t, r, wired, o, parent, start, step)
    ensures var log := t.Events(); var n := |log|;
      && (r.success <==>
            && n >= 6 && log[2].call == Arm(start + Timeout(o), Attempts(o)) && log[2].reply.error == None
            && (exists ip :: Got(log[n - 3], ip) && !Got(log[1], ip))
            && log[n - 2].call == Status && log[n - 2].reply.error == None && log[n - 2].reply.state == On
            && log[n - 1].call == Disarm && log[n - 1].reply.error == None)
      && (r.success ==> Got(log[1], r.oldIp) && Got(log[n - 3], r.newIp) && r.oldIp != r.newIp)
  {
    var log := t.Events();
    SuccessMeans(t, r, wired, o, parent, start, step);
    ArmedOnLog(t, r, wired, o, parent, start, step);
    RunIsOk(t, r, wired, o, parent, start, step);
    SetupComesFirst(t);
    if WasArmed(log) {
      assert log[1] == log[..3][1] && log[2] == log[..3][2];
      EndsOnFields(log);
    }
  }

  lemma EndsOnFields(log: seq<Event>)
    requires |log| >= 2 && log[1].call.GetIps? && log[1].GotAddress()
    ensures var n := |log|;
      EndsWell(log, log[1].Address()) <==>
        && n >= 6 && (exists ip :: Got(log[n - 3], ip) && !Got(log[1], ip))
        && log[n - 2].call == Status && log[n - 2].reply.error == None && log[n - 2].reply.state == On
        && log[n - 1].call == Disarm && log[n - 1].reply.error == None
    ensures Got(log[1], log[1].Address())
    ensures EndsWell(log, log[1].Address()) ==> Got(log[|log| - 3], log[|log| - 3].Address())
  {
    GotIs(log[1]);
    if |log| >= 6 {
      var e := log[|log| - 3];
      GotIs(e);
      if EndsWell(log, log[1].Address()) {
        assert Got(e, e.Address()) && !Got(log[1], e.Address());
      }
    }
  }

  /**
   * A run that armed the watchdog ends with ip_unchanged exactly if its last attempt, the last it was to make, read the
   * address and found the old one.
   */
  lemma UnchangedOnFields(t: Trace, r: Result, wired: bool, o: Options, parent: Context, start: int, step: int)
    requires IsRun(t, r, wired, o, parent, start, step) && WasArmed(t.Events())
    ensures var log := t.Events();
      r.code == "ip_unchanged" <==>
        r.attempts == Count(log, TurnOff) &&
        exists k :: 3 <= k < |log| && Got(log[k], r.oldIp) && forall i :: k < i < |log| ==> log[i].call != TurnOff
  {
    ArmedOnLog(t, r, wired, o, parent, start, step);
    RunIsOk(t, r, wired, o, parent, start, step);
    AttemptsAreOffs(t, r, Attempts(o));
    UnchangedOfArmed(t, r, Attempts(o));
    FoundOnLog(t, r, Attempts(o));
  }

  lemma AttemptsAreOffs(t: Trace, r: Result, limit: int)
    requires ArmedRun(t, r, limit)
    ensures Count(t.Events(), TurnOff) == |t.attempts|
  {
    MovingCalls(t, r, limit, TurnOff);
    AttemptsCounts(t.attempts, r.oldIp);
    RecoveryPartCounts(t, r, limit);
  }

  lemma FoundOnLog(t: Trace, r: Result, limit: int)
    requires ArmedRun(t, r, limit)
    ensures var log := t.Events();
      (exists k :: 3 <= k < |log| && Got(log[k], r.oldIp) && forall i :: k < i < |log| ==> log[i].call != TurnOff) <==>
        && t.attempts != []
        && var a := t.attempts[|t.attempts| - 1];
        a.ip.Some? && a.ip.value.GotAddress() && a.ip.value.Address() == r.oldIp
  {
    var log := t.Events();
    RestGetsNone(t, r, limit);
    if t.attempts == [] {
      forall k | 3 <= k < |log| ensures !Got(log[k], r.oldIp) {
        assert log[k] == Rest(t)[k - 3];
      }
    } else {
      var before := t.setup + AllEvents(t.attempts[..|t.attempts| - 1]);
      var a := t.attempts[|t.attempts| - 1];
      Joined(t.setup, AllEvents(t.attempts[..|t.attempts| - 1]), a.Events());
      FoundInLast(log, before, a, Rest(t), r.oldIp);
    }
  }

  /** The code of an armed run, by its last attempt. */
  lemma UnchangedOfArmed(t: Trace, r: Result, limit: int)
    requires ArmedRun(t, r, limit)
    ensures r.code == "ip_unchanged" <==>
      && r.attempts == |t.attempts| && t.attempts != []
      && var a := t.attempts[|t.attempts| - 1];
      a.ip.Some? && a.ip.value.GotAddress() && a.ip.value.Address() == r.oldIp
  {
    if t.attempts != [] && r.attempts == |t.attempts| && !Won(t) {
      VerdictIsUnchanged(t.attempts[|t.attempts| - 1], r.oldIp);
    }
  }

  lemma VerdictIsUnchanged(a: Attempt, oldIp: string)
    requires a.Valid(oldIp)
    ensures Verdict(a, oldIp) == "ip_unchanged" <==>
      a.ip.Some? && a.ip.value.GotAddress() && a.ip.value.Address() == oldIp
  {
  }

  /** Behind the last WarpOff only the last attempt's own read can have found the old address. */
  lemma FoundInLast(log: seq<Event>, before: seq<Event>, a: Attempt, rest: seq<Event>, oldIp: string)
    requires log == before + a.Events() + rest && a.Valid(oldIp) && |before| >= 3
    requires forall e :: e in rest ==> !e.call.GetIps? && !e.call.TurnOff?
    ensures
      (exists k :: 3 <= k < |log| && Got(log[k], oldIp) && forall i :: k < i < |log| ==> log[i].call != TurnOff) <==>
      a.ip.Some? && a.ip.value.GotAddress() && a.ip.value.Address() == oldIp
  {
    if k :| 3 <= k < |log| && Got(log[k], oldIp) && forall i :: k < i < |log| ==> log[i].call != TurnOff {
      LastRead(log, before, a, rest, oldIp, k);
    }
    if a.ip.Some? && a.ip.value.GotAddress() && a.ip.value.Address() == oldIp {
      var k := ReadIsLast(log, before, a, rest, oldIp);
    }
  }

  /** Where the calls of the attempt stand, and that those before its read are no reads. */
  lemma ReadAt(log: seq<Event>, before: seq<Event>, a: Attempt, rest: seq<Event>, oldIp: string) returns (k: nat)
    requires log == before + a.Events() + rest && a.Valid(oldIp)
    ensures |before| < k <= |before| + |a.Events()| <= |log| && log[|before|] == a.off
    ensures forall i :: |before| <= i < k ==> !log[i].call.GetIps?
    ensures forall i :: |before| + |a.Events()| <= i < |log| ==> log[i] in rest
    ensures |a.Events()| == k - |before| + |ToSeq(a.ip)| + |ToSeq(a.last)|
    ensures forall i :: k <= i < |before| + |a.Events()| ==>
      log[i] == (ToSeq(a.ip) + ToSeq(a.last))[i - k] && !log[i].call.TurnOff?
  {
    var head, tail := [a.off] + a.offWait + ToSeq(a.on) + a.onWait, ToSeq(a.ip) + ToSeq(a.last);
    HeadGetsNone(a, oldIp, head);
    Joined(head, ToSeq(a.ip), ToSeq(a.last));
    k := |before| + |head|;
    Placed(log, before, head, tail, rest);
  }

  lemma Placed(log: seq<Event>, before: seq<Event>, head: seq<Event>, tail: seq<Event>, rest: seq<Event>)
    requires log == before + (head + tail) + rest
    ensures var k, n := |before| + |head|, |before| + |head| + |tail|;
      && (forall i :: |before| <= i < k ==> log[i] == head[i - |before|] && log[i] in head)
      && (forall i :: k <= i < n ==> log[i] == tail[i - k])
      && (forall i :: n <= i < |log| ==> log[i] == rest[i - n] && log[i] in rest)
  {
  }

  lemma LastRead(log: seq<Event>, before: seq<Event>, a: Attempt, rest: seq<Event>, oldIp: string, k: nat)
    requires log == before + a.Events() + rest && a.Valid(oldIp)
    requires forall e :: e in rest ==> !e.call.GetIps? && !e.call.TurnOff?
    requires k < |log| && Got(log[k], oldIp) && forall i :: k < i < |log| ==> log[i].call != TurnOff
    ensures a.ip.Some? && a.ip.value.GotAddress() && a.ip.value.Address() == oldIp
  {
    var from := ReadAt(log, before, a, rest, oldIp);
    assert |before| <= k;
    assert from <= k < |before| + |a.Events()|;
    assert a.ip.Some? && log[k] == a.ip.value;
    GotIs(log[k]);
  }

  lemma ReadIsLast(log: seq<Event>, before: seq<Event>, a: Attempt, rest: seq<Event>, oldIp: string) returns (k: nat)
    requires log == before + a.Events() + rest && a.Valid(oldIp) && |before| >= 3
    requires forall e :: e in rest ==> !e.call.GetIps? && !e.call.TurnOff?
    requires a.ip.Some? && a.ip.value.GotAddress() && a.ip.value.Address() == oldIp
    ensures 3 <= k < |log| && Got(log[k], oldIp) && forall i :: k < i < |log| ==> log[i].call != TurnOff
  {
    k := ReadAt(log, before, a, rest, oldIp);
    GotIs(a.ip.value);
    assert log[k] == a.ip.value;
    forall i | k < i < |log| ensures log[i].call != TurnOff {
      assert i >= |before| + |a.Events()| ==> log[i] in rest;
    }
  }

  /**
   * A run makes no call exactly if a dependency is missing or an option is out of range: one to three attempts and half
   * a minute to three minutes, zero standing for the most.
   */
  lemma IdleOnNumbers(t: Trace, r: Result, wired: bool, o: Options, parent: Context, start: int, step: int)
    requires IsRun(t, r, wired, o, parent, start, step)
    ensures t.Events() != [] <==>
      wired && 0 <= o.maxAttempts <= 3 && (o.timeout == 0 || 30_000 <= o.timeout <= 180_000)
    ensures |t.Events()| >= 3 ==>
      t.Events()[2].call == Arm(start + (if o.timeout == 0 then 180_000 else o.timeout),
                                if o.maxAttempts == 0 then 3 else o.maxAttempts)
  {
    RunIsOk(t, r, wired, o, parent, start, step);
    SetupComesFirst(t);
    if |t.Events()| >= 3 && |t.setup| == 3 {
      assert t.Events()[2] == t.Events()[..3][2];
    }
  }

  /** The code that comes with an error, or this one if the error has none. */
  predicate CodeIs(code: string, e: Event, fallback: string) {
    code == if e.reply.error != None && e.reply.error.value.code != "" then e.reply.error.value.code else fallback
  }

  /** A run that did not arm the watchdog says which of the first three calls did not go well. */
  lemma RefusalOnFields(t: Trace, r: Result, wired: bool, o: Options, parent: Context, start: int, step: int)
    requires IsRun(t, r, wired, o, parent, start, step) && !WasArmed(t.Events())
    ensures var log := t.Events();
      && |log| <= 3 && !r.success && r.newIp == "" && r.attempts == 0 && !r.recoveryFailed && !r.watchdogFailed
      && (log == [] ==> r.code == if wired then "invalid_parameters" else "helper_failed")
      && (|log| == 1 ==>
            && log[0].call == Status
            && (log[0].reply.error == None ==> r.code == "invalid_state" && r.finalState == log[0].reply.state)
            && (log[0].reply.error != None ==> CodeIs(r.code, log[0], "precheck_failed")))
      && (|log| == 2 ==> log[1].call == GetIps && CodeIs(r.code, log[1], "old_ip_unavailable"))
      && (|log| == 3 ==> log[2].call.Arm? && CodeIs(r.code, log[2], "precheck_failed") && Got(log[1], r.oldIp))
  {
    ArmedOnLog(t, r, wired, o, parent, start, step);
    RunIsOk(t, r, wired, o, parent, start, step);
    if |t.setup| >= 2 { GotIs(t.setup[1]); }
  }

  /** Every WarpOff, and every WarpOn of an attempt, has a step timeout, or what is left of the run if that is less. */
  lemma StepTimeouts(t: Trace, r: Result, wired: bool, o: Options, parent: Context, start: int, step: int, i: nat)
    requires IsRun(t, r, wired, o, parent, start, step) && i < |t.attempts|
    ensures var off, on := t.attempts[i].off, t.attempts[i].on;
      && HasTime(off, off.start + step, start + Timeout(o), parent)
      && (on.Some? ==> HasTime(on.value, on.value.start + step, start + Timeout(o), parent))
    ensures t.recovery.Some? && t.recovery.value.on.Some? ==>
      t.recovery.value.on.value.context == Until(t.recovery.value.look.start + step)
  {
  }

  /** The context of the call is done at the first of these instants. */
  predicate HasTime(e: Event, a: int, b: int, parent: Context) {
    && e.context.Until? && e.context.at <= a && e.context.at <= b && (parent.Until? ==> e.context.at <= parent.at)
    && (e.context.at == a || e.context.at == b || e.context == parent)
  }
}
