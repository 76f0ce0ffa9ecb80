/**
 * Two hosts on which a change of address ends badly, one with two addresses on which it goes well, and the runs of the
 * machine on them (agent/internal/warpchange/state.go). Every call takes no time, and one attempt is asked for.
 */
module ChangeIpHosts {
  import opened Basics
  import opened ChangeIp
  import opened ChangeIpMachine
  import ChangeIpLog

  const ONCE := Options(1, LEAST_TIMEOUT)

  function Answer(ok: bool, state: WarpState): Reply {
    Reply(0, if ok then None else Some(Failure("")), state, "192.0.2.1", "")
  }

  /**
   * WARP is on, has an address, and the watchdog is armed; WarpOff fails and WARP is seen off. `back` is whether
   * WarpOn succeeds in the recovery: then WARP is seen on, and off again at the last look.
   */
  function ReplyTo(n: nat, back: bool): Reply {
    if n == 0 then Answer(true, On)
    else if n < 3 then Answer(true, Unset)
    else if n == 3 then Answer(false, Unset)
    else if n < 6 then Answer(true, Off)
    else if !back then Answer(n == 7, Off)
    else if n < 8 then Answer(true, On) else Answer(true, Off)
  }

  function Replies(back: bool): nat -> Reply {
    (n: nat) => ReplyTo(n, back)
  }

  /** A log of this host. */
  ghost predicate Answered(log: seq<Event>, back: bool) {
    forall i :: 0 <= i < |log| ==>
      log[i].reply == ReplyTo(i, back) && (i + 1 < |log| ==> Follows(log[i], log[i + 1].start, DEFAULT_POLL))
  }

  ghost predicate RunOn(t: Trace, r: Result, back: bool) {
    IsRun(t, r, true, ONCE, Background, 0, DEFAULT_STEP) && Answered(t.Events(), back)
  }

  lemma SetupAt(t: Trace, i: nat)
    requires i < |t.setup|
    ensures i < |t.Events()| && t.Events()[i] == t.setup[i]
  {
  }

  lemma Arms(t: Trace, r: Result, back: bool)
    requires RunOn(t, r, back)
    ensures ArmedRun(t, r, 1) && Stopped(t, r, 1, LEAST_TIMEOUT, DEFAULT_STEP) && t.setup[0].start == 0
  {
    SetupAt(t, 0);
    if |t.setup| >= 2 { SetupAt(t, 1); }
    if |t.setup| >= 3 { SetupAt(t, 2); }
    assert t.Events()[0].reply == ReplyTo(0, back);
    assert |t.setup| >= 2 ==> t.Events()[1].reply == ReplyTo(1, back);
    assert |t.setup| >= 3 ==> t.Events()[2].reply == ReplyTo(2, back);
    assert RefusedRun(t, r) ==> Good(t.setup, |t.setup|);
  }

  /** Nothing has waited long when the fourth call is made. */
  lemma FourthCallIsEarly(log: seq<Event>, back: bool)
    requires Answered(log, back) && |log| >= 4 && log[0].start == 0 && !log[1].call.Status? && !log[2].call.Status?
    ensures log[3].start <= DEFAULT_POLL
  {
    assert log[0].reply == ReplyTo(0, back) && log[1].reply == ReplyTo(1, back) && log[2].reply == ReplyTo(2, back);
    assert Follows(log[0], log[1].start, DEFAULT_POLL) && Follows(log[1], log[2].start, DEFAULT_POLL);
    assert Follows(log[2], log[3].start, DEFAULT_POLL);
  }

  lemma NoAttemptEvents(t: Trace)
    requires t.attempts == [] && |t.setup| == 3 && t.check.Some?
    ensures |t.Events()| >= 4 && t.Events()[3] == t.check.value
  {
  }

  lemma FirstCall(t: Trace)
    requires |t.attempts| == 1 && |t.setup| == 3
    ensures |t.Events()| >= 4 && t.Events()[3] == t.attempts[0].off
  {
    assert AllEvents(t.attempts[..0]) == [];
    assert AllEvents(t.attempts) == t.attempts[0].Events();
  }

  /** There is one attempt, and it ends with its WarpOff. */
  lemma OneAttempt(t: Trace, r: Result, back: bool)
    requires RunOn(t, r, back) && ArmedRun(t, r, 1) && Stopped(t, r, 1, LEAST_TIMEOUT, DEFAULT_STEP)
    requires t.setup[0].start == 0
    ensures |t.attempts| == 1 && t.attempts[0] == Attempt(t.attempts[0].off, [], None, [], None, None)
    ensures t.check.Some? && LostRun(t, r) && r.code == "warp_stop_failed"
  {
    SetupAt(t, 1);
    SetupAt(t, 2);
    SetupAt(t, 0);
    if t.attempts == [] {
      NoAttemptEvents(t);
      FourthCallIsEarly(t.Events(), back);
    }
    FirstCall(t);
    assert t.Events()[3].reply == ReplyTo(3, back);
    assert !t.attempts[0].off.Ok();
  }

  lemma Layout(t: Trace)
    requires |t.setup| == 3 && |t.attempts| == 1
    requires t.attempts[0] == Attempt(t.attempts[0].off, [], None, [], None, None)
    requires t.check.Some? && t.recovery.Some? && t.recovery.value.on.Some? && t.recovery.value.last.Some?
    ensures var v := t.recovery.value;
      t.Events() == t.setup + [t.attempts[0].off, t.check.value, v.look,
                               v.on.value] + v.wait + [v.last.value] + t.disarms
  {
    assert AllEvents(t.attempts[..0]) == [];
    assert AllEvents(t.attempts) == [t.attempts[0].off];
    assert t.recovery.value.Events() == [t.recovery.value.look,
        t.recovery.value.on.value] + t.recovery.value.wait + [t.recovery.value.last.value];
  }

  lemma CheckAt(t: Trace)
    requires |t.setup| == 3 && |t.attempts| == 1
    requires t.attempts[0] == Attempt(t.attempts[0].off, [], None, [], None, None)
    requires t.check.Some?
    ensures |t.Events()| >= 5 && t.Events()[4] == t.check.value
    ensures t.recovery.Some? ==> |t.Events()| >= 6 && t.Events()[5] == t.recovery.value.look
  {
    assert AllEvents(t.attempts[..0]) == [];
    assert AllEvents(t.attempts) == [t.attempts[0].off];
  }

  /** The check and the first look of the recovery see WARP off, so WarpOn is called. */
  lemma Recovers(t: Trace, r: Result, back: bool)
    requires RunOn(t, r, back)
    ensures ArmedRun(t, r, 1) && LostRun(t, r) && Stopped(t, r, 1, LEAST_TIMEOUT, DEFAULT_STEP)
    ensures |t.attempts| == 1 && t.attempts[0] == Attempt(t.attempts[0].off, [], None, [], None, None)
    ensures t.recovery.Some? && t.recovery.value.Valid() && t.recovery.value.on.Some? && t.recovery.value.last.Some?
  {
    Arms(t, r, back);
    OneAttempt(t, r, back);
    CheckAt(t);
    assert t.Events()[4].reply == ReplyTo(4, back) && !t.check.value.Saw(On);
    assert t.Events()[5].reply == ReplyTo(5, back) && !t.recovery.value.look.Saw(On);
  }

  // The first host.

  /** WarpOn fails in the recovery and so does the only Disarm; the result names the recovery, not the watchdog. */
  lemma EndsUndisarmed(t: Trace, r: Result)
    requires RunOn(t, r, false)
    ensures var log := t.Events();
      && r.recoveryFailed && !r.watchdogFailed && r.code == "warp_stop_failed" && |log| == 9 && |t.disarms| == 1
      && log[8].call.Disarm? && !log[8].Ok() && forall i :: 0 <= i < 8 ==> !log[i].call.Disarm?
  {
    Recovers(t, r, false);
    Arms(t, r, false);
    OneAttempt(t, r, false);
    Layout(t);
    var log, v := t.Events(), t.recovery.value;
    assert log[6].reply == ReplyTo(6, false);
    assert log[6] == v.on.value && !v.on.value.Ok() && v.wait == [];
    assert log[8] == t.disarms[0] && log[8].reply == ReplyTo(8, false);
    Recorded(t, r);
    assert log == t.setup + [t.attempts[0].off, t.check.value, v.look, v.on.value] + [v.last.value] + t.disarms;
    assert log[7] == v.last.value;
  }

  lemma Recorded(t: Trace, r: Result)
    requires AttemptsValid(t.attempts, r.oldIp) && LostRun(t, r) && t.recovery.Some? && t.recovery.value.on.Some?
    requires !t.recovery.value.on.value.Ok()
    ensures r.recoveryFailed && |t.disarms| == 1 && !r.watchdogFailed
  {
  }

  /** The machine on this host: a failed Disarm that is neither repeated nor reported. */
  method FailedDisarmMayBeTheOnlyOne() returns (r: Result, log: seq<Event>)
    ensures |log| == 9 && log[8].call.Disarm? && !log[8].Ok() && forall i :: 0 <= i < 8 ==> !log[i].call.Disarm?
    ensures r.recoveryFailed && !r.watchdogFailed && r.code == "warp_stop_failed"
  {
    var m := new Machine(DEFAULT_POLL, DEFAULT_STEP, true, Replies(false), (n: nat) => false, 0);
    ghost var t;
    r, t := m.Run(Background, ONCE);
    log := m.log;
    LogIsAnswered(log, m.clock, false);
    assert log == t.Events();
    EndsUndisarmed(t, r);
  }

  lemma LogIsAnswered(log: seq<Event>, now: int, back: bool)
    requires Faithful(log, now, Replies(back), DEFAULT_POLL)
    ensures Answered(log, back)
  {
    forall i | 0 <= i < |log|
      ensures log[i].reply == ReplyTo(i, back) && (i + 1 < |log| ==> Follows(log[i], log[i + 1].start, DEFAULT_POLL))
    {
      FaithfulAt(log, now, Replies(back), DEFAULT_POLL, i);
    }
  }

  // The second host.

  /** The recovery's wait sees WARP on at its first read. */
  lemma SeesItOn(t: Trace, r: Result)
    requires RunOn(t, r, true)
    ensures t.recovery.Some? && t.recovery.value.Valid() && |t.recovery.value.wait| == 1
    ensures t.recovery.value.wait[0].Saw(On)
    ensures t.recovery.value.on.Some? && t.recovery.value.on.value.Ok() && t.recovery.value.last.Some?
  {
    Recovers(t, r, true);
    Arms(t, r, true);
    OneAttempt(t, r, true);
    Layout(t);
    var log, v := t.Events(), t.recovery.value;
    assert log[5].reply == ReplyTo(5, true) && log[6].reply == ReplyTo(6, true) && log[7].reply == ReplyTo(7, true);
    assert log[5] == v.look && log[6] == v.on.value && v.on.value.Ok();
    assert Follows(log[5], log[6].start, DEFAULT_POLL) && Follows(log[6], log[7].start, DEFAULT_POLL);
    var next := (v.wait + [v.last.value])[0];
    assert log[7] == next && next.start < v.look.start + DEFAULT_STEP;
    assert v.wait != [];
    assert log[7] == v.wait[0] && v.wait[0].Saw(On);
  }

  /** The last look sees WARP off; no recovery error is recorded and the watchdog is disarmed. */
  lemma EndsOff(t: Trace, r: Result)
    requires RunOn(t, r, true)
    ensures var log := t.Events();
      && r.finalState == Off && !r.recoveryFailed && !r.watchdogFailed && |log| == 10
      && log[7].Saw(On) && log[8].Saw(Off) && log[9].call.Disarm? && log[9].Ok()
  {
    Recovers(t, r, true);
    Arms(t, r, true);
    OneAttempt(t, r, true);
    SeesItOn(t, r);
    Layout(t);
    var log, v := t.Events(), t.recovery.value;
    assert v.wait == [v.wait[0]];
    assert log == t.setup + [t.attempts[0].off, t.check.value, v.look,
                             v.on.value] + [v.wait[0]] + [v.last.value] + t.disarms;
    assert log[8].reply == ReplyTo(8, true) && log[9].reply == ReplyTo(9, true);
    assert log[7] == v.wait[0] && log[8] == v.last.value;
    assert log[9] == t.disarms[0];
  }

  /** The machine on this host: a recovery that is reported as done, with WARP off at the end. */
  method RecoveryMayEndOff() returns (r: Result, log: seq<Event>)
    ensures r.finalState == Off && !r.recoveryFailed && !r.watchdogFailed
    ensures |log| == 10 && log[7].Saw(On) && log[8].Saw(Off) && log[9].call.Disarm? && log[9].Ok()
  {
    var m := new Machine(DEFAULT_POLL, DEFAULT_STEP, true, Replies(true), (n: nat) => false, 0);
    ghost var t;
    r, t := m.Run(Background, ONCE);
    log := m.log;
    LogIsAnswered(log, m.clock, true);
    assert log == t.Events();
    EndsOff(t, r);
  }

  // The third host.

  /** WARP does as it is told; the version 4 address stays the same, and the version 6 address changes. */
  function DualReplyTo(n: nat): Reply {
    Reply(0, None, if n == 4 then Off else On, "192.0.2.1", if n < 4 then "2001:db8::1" else "2001:db8::2")
  }

  ghost predicate DualAnswered(log: seq<Event>) {
    forall i :: 0 <= i < |log| ==>
      log[i].reply == DualReplyTo(i) && (i + 1 < |log| ==> Follows(log[i], log[i + 1].start, DEFAULT_POLL))
  }

  ghost predicate DualRun(t: Trace, r: Result) {
    IsRun(t, r, true, ONCE, Background, 0, DEFAULT_STEP) && DualAnswered(t.Events())
  }

  /** Only waits take time. */
  lemma {:induction false} EarlyCalls(log: seq<Event>, i: nat)
    requires DualAnswered(log) && i < |log| && log[0].start == 0
    ensures log[i].start <= i * DEFAULT_POLL
  {
    if i > 0 {
      EarlyCalls(log, i - 1);
      assert Follows(log[i - 1], log[i].start, DEFAULT_POLL) && log[i - 1].reply == DualReplyTo(i - 1);
    }
  }

  lemma DualArms(t: Trace, r: Result)
    requires DualRun(t, r)
    ensures ArmedRun(t, r, 1) && Stopped(t, r, 1, LEAST_TIMEOUT, DEFAULT_STEP) && t.setup[0].start == 0
    ensures r.oldIp == "2001:db8::1"
  {
    var log := t.Events();
    SetupAt(t, 0);
    assert log[0].reply == DualReplyTo(0);
    if |t.setup| >= 2 {
      SetupAt(t, 1);
      assert log[1].reply == DualReplyTo(1);
    }
    if |t.setup| >= 3 {
      SetupAt(t, 2);
      assert log[2].reply == DualReplyTo(2);
    }
    assert RefusedRun(t, r) ==> Good(t.setup, |t.setup|);
  }

  /** Where the calls of the only attempt stand in the log, and what comes after them. */
  lemma OnlyAttemptAt(t: Trace)
    requires |t.setup| == 3 && |t.attempts| == 1
    ensures var log, e := t.Events(), t.attempts[0].Events();
      && 3 + |e| <= |log| && (forall j :: 0 <= j < |e| ==> log[3 + j] == e[j])
      && (t.check.Some? ==> 3 + |e| < |log| && log[3 + |e|] == t.check.value)
      && (t.check.None? && t.recovery.None? && t.disarms != [] ==> 3 + |e| < |log| && log[3 + |e|] == t.disarms[0])
  {
    var e := t.attempts[0].Events();
    assert AllEvents(t.attempts[..0]) == [];
    assert AllEvents(t.attempts) == e;
    var rest := ToSeq(t.check) + RecoveryEvents(t) + t.disarms;
    ChangeIpLog.LoopThenRest(t.setup, e, ToSeq(t.check), RecoveryEvents(t), t.disarms);
    InTheMiddle(t.setup, e, rest);
  }

  lemma InTheMiddle(setup: seq<Event>, e: seq<Event>, rest: seq<Event>)
    ensures var all, n := setup + e + rest, |setup|;
      && (forall j :: 0 <= j < |e| ==> all[n + j] == e[j])
      && (rest != [] ==> all[n + |e|] == rest[0])
  {
  }

  /** No wait of this run is in vain, because time has hardly passed. */
  lemma DualWaits(t: Trace, r: Result)
    requires DualRun(t, r) && ArmedRun(t, r, 1) && Stopped(t, r, 1, LEAST_TIMEOUT, DEFAULT_STEP)
    requires t.setup[0].start == 0
    ensures |t.attempts| == 1
    ensures var a := t.attempts[0]; !(|a.Events()| <= 3 && t.check.Some? && a.WaitFailed())
  {
    SetupAt(t, 0);
    var log := t.Events();
    if t.attempts == [] {
      NoAttemptEvents(t);
      EarlyCalls(log, 3);
    } else {
      OnlyAttemptAt(t);
      var k := 3 + |t.attempts[0].Events()|;
      if k <= 6 && t.check.Some? { EarlyCalls(log, k); }
    }
  }

  /** The calls of the attempt are these entries of the log. */
  ghost predicate AtThree(log: seq<Event>, a: Attempt) {
    3 + |a.Events()| <= |log| && forall j :: 0 <= j < |a.Events()| ==> log[3 + j] == a.Events()[j]
  }

  /** WARP is seen off at the first look, if there is one. */
  lemma SeenOff(log: seq<Event>, a: Attempt, oldIp: string)
    requires DualAnswered(log) && a.Valid(oldIp) && AtThree(log, a)
    ensures a.offWait == [] ==> |a.Events()| == 1 && a.WaitFailed()
    ensures a.offWait != [] ==> |a.offWait| == 1 && a.on.Some?
  {
    var e := a.Events();
    assert e[0] == a.off && log[3] == e[0] && log[3].reply == DualReplyTo(3);
    if a.offWait != [] {
      assert e[1] == a.offWait[0] && log[4] == e[1] && log[4].reply == DualReplyTo(4);
    }
  }

  /** And then on. */
  lemma SeenOn(log: seq<Event>, a: Attempt, oldIp: string)
    requires DualAnswered(log) && a.Valid(oldIp) && AtThree(log, a) && |a.offWait| == 1 && a.on.Some?
    ensures a.onWait == [] ==> |a.Events()| == 3 && a.WaitFailed()
    ensures a.onWait != [] ==> |a.onWait| == 1 && a.ip.Some?
  {
    var e := a.Events();
    assert e[2] == a.on.value && log[5] == e[2] && log[5].reply == DualReplyTo(5);
    if a.onWait != [] {
      assert e[3] == a.onWait[0] && log[6] == e[3] && log[6].reply == DualReplyTo(6);
    }
  }

  lemma FailedWaitLoses(t: Trace, r: Result)
    requires ArmedRun(t, r, 1) && |t.attempts| == 1 && t.attempts[0].WaitFailed()
    ensures t.check.Some?
  {
  }

  /** The stages of the attempt up to the read of the address. */
  lemma DualSwitches(t: Trace, r: Result)
    requires DualRun(t, r)
    ensures ArmedRun(t, r, 1) && |t.attempts| == 1
    ensures var a := t.attempts[0]; |a.offWait| == 1 && a.on.Some? && |a.onWait| == 1 && a.ip.Some?
  {
    DualArms(t, r);
    DualWaits(t, r);
    OnlyAttemptAt(t);
    var a := t.attempts[0];
    if a.WaitFailed() { FailedWaitLoses(t, r); }
    SeenOff(t.Events(), a, r.oldIp);
    SeenOn(t.Events(), a, r.oldIp);
  }

  /** The address that was read is the new one, so the run is a success. */
  lemma DualSucceeds(t: Trace, r: Result)
    requires DualRun(t, r)
    ensures r.success && r.oldIp == "2001:db8::1" && r.newIp == "2001:db8::2"
  {
    DualArms(t, r);
    DualSwitches(t, r);
    OnlyAttemptAt(t);
    var log, a := t.Events(), t.attempts[0];
    var e := a.Events();
    assert e[4] == a.ip.value && log[7] == e[4] && log[7].reply == DualReplyTo(7);
    OtherAddress();
    assert a.ip.value.GotAddress() && a.ip.value.Address() == "2001:db8::2" && a.last.Some?;
    assert e[5] == a.last.value && log[8] == e[5] && log[8].reply == DualReplyTo(8) && a.Changed();
    assert |e| == 6 && t.check.None? && t.recovery.None?;
    assert log[9] == t.disarms[0] && log[9].reply == DualReplyTo(9);
    assert t.attempts[..0] == [];
  }

  lemma OtherAddress()
    ensures "2001:db8::1" != "2001:db8::2"
  {
    assert "2001:db8::1"[10] != "2001:db8::2"[10];
  }

  /** The machine on this host: only the version 6 address changes, and that is a success. */
  method VersionSixDecides() returns (r: Result)
    ensures r.success && r.oldIp == "2001:db8::1" && r.newIp == "2001:db8::2"
  {
    var m := new Machine(DEFAULT_POLL, DEFAULT_STEP, true, (n: nat) => DualReplyTo(n), (n: nat) => false, 0);
    ghost var t;
    r, t := m.Run(Background, ONCE);
    forall i | 0 <= i < |m.log|
      ensures m.log[i].reply == DualReplyTo(i)
      ensures i + 1 < |m.log| ==> Follows(m.log[i], m.log[i + 1].start, DEFAULT_POLL)
    {
      FaithfulAt(m.log, m.clock, m.replies, DEFAULT_POLL, i);
    }
    assert m.log == t.Events();
    DualSucceeds(t, r);
  }
}
