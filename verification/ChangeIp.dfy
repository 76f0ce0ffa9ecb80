/**
 * Changing the WARP exit address under a watchdog (agent/internal/warpchange/state.go).
 * `Trace` is the record of one run, stage by stage; the machine itself is in module ChangeIpMachine.
 */
module ChangeIp {
  import opened Basics

  // Instants and durations are counted in milliseconds.

  const DEFAULT_TIMEOUT := 180_000
  const LEAST_TIMEOUT := 30_000
  const DEFAULT_ATTEMPTS := 3
  const DEFAULT_POLL := 1_000
  const DEFAULT_STEP := 20_000

  datatype WarpState = Unset | On | Off | Degraded | Unknown

  /** When a context is done: never, for the background context, or from an instant on. */
  datatype Context = Background | Until(at: int)

  function Within(c: Context, at: int): Context {
    if c.Until? && c.at <= at then c else Until(at)
  }

  predicate Done(c: Context, now: int) {
    c.Until? && c.at <= now
  }

  datatype Options = Options(maxAttempts: int, timeout: int)

  /** Zero stands for the default. */
  function Attempts(o: Options): int {
    if o.maxAttempts == 0 then DEFAULT_ATTEMPTS else o.maxAttempts
  }

  function Timeout(o: Options): int {
    if o.timeout == 0 then DEFAULT_TIMEOUT else o.timeout
  }

  predicate InRange(o: Options) {
    1 <= Attempts(o) <= DEFAULT_ATTEMPTS && LEAST_TIMEOUT <= Timeout(o) <= DEFAULT_TIMEOUT
  }

  /** When the context of a run is done. */
  function RunEnd(parent: Context, o: Options, start: int): int {
    if parent.Until? && parent.at <= start + Timeout(o) then parent.at else start + Timeout(o)
  }

  datatype Call = Status | TurnOn | TurnOff | GetIps | Arm(deadline: int, attempts: int) | Disarm

  /** An error with the code it carries; the empty text stands for none. */
  datatype Failure = Failure(code: string)

  /** What the host does in answer to a call. Fields a call does not return are ignored. */
  datatype Reply = Reply(duration: nat, error: Option<Failure>, state: WarpState, ip4: string, ip6: string)

  datatype Event = Event(call: Call, context: Context, start: int, reply: Reply) {
    function End(): int {
      start + reply.duration
    }
    predicate Ok() {
      reply.error.None?
    }
    predicate Saw(state: WarpState) {
      Ok() && call.Status? && reply.state == state
    }
    /** The exit address: version 6 if there is one. */
    function Address(): string {
      if reply.ip6 != "" then reply.ip6 else reply.ip4
    }
    predicate GotAddress() {
      Ok() && Address() != ""
    }
    /** The operation ended by the time its context was done, or at once. */
    predicate Honoured() {
      context.Until? ==> End() <= start || End() <= context.at
    }
  }

  datatype Result = Result(
    success: bool, code: string, oldIp: string, newIp: string, attempts: nat,
    finalState: WarpState, recoveryFailed: bool, watchdogFailed: bool)

  function CodeOf(error: Option<Failure>, fallback: string): string {
    if error.Some? && error.value.code != "" then error.value.code else fallback
  }

  function ToSeq<T>(o: Option<T>): seq<T> {
    if o.Some? then [o.value] else []
  }

  // The host.

  /**
   * The log holds what the host answered, call by call, and no time passes between calls except after a status read,
   * where a wait of at most `poll` may follow; `now` is the time after the last entry.
   */
  ghost predicate Faithful(log: seq<Event>, now: int, replies: nat -> Reply, poll: int) {
    log == [] ||
    var front, last := log[..|log| - 1], log[|log| - 1];
    && Faithful(front, last.start, replies, poll) && last.reply == replies(|front|)
    && Follows(last, now, poll)
  }

  predicate Follows(e: Event, next: int, poll: int) {
    next == e.End() || (e.call.Status? && e.End() < next <= e.End() + poll)
  }

  /** Entry by entry: its reply, and when the next one starts. */
  lemma {:induction false} FaithfulAt(log: seq<Event>, now: int, replies: nat -> Reply, poll: int, i: nat)
    requires Faithful(log, now, replies, poll) && i < |log|
    ensures log[i].reply == replies(i) && Follows(log[i], if i + 1 < |log| then log[i + 1].start else now, poll)
  {
    var front, last := log[..|log| - 1], log[|log| - 1];
    if i < |front| {
      FaithfulAt(front, last.start, replies, poll, i);
    }
  }

  // Polling.

  /** Status reads until the wanted state is seen, or for as long as it is not. */
  predicate Polled(wait: seq<Event>, want: WarpState) {
    && (forall i :: 0 <= i < |wait| ==> wait[i].call.Status?)
    && (forall i :: 0 <= i < |wait| - 1 ==> !wait[i].Saw(want))
  }

  /** Every read but the first comes one poll interval after the one before it. */
  predicate Paced(wait: seq<Event>, poll: int) {
    forall i :: 0 <= i < |wait| - 1 ==> wait[i + 1].start == wait[i].End() + poll
  }

  predicate Reached(wait: seq<Event>, want: WarpState) {
    wait != [] && wait[|wait| - 1].Saw(want)
  }

  // One attempt.

  datatype Attempt = Attempt(
    off: Event, offWait: seq<Event>, on: Option<Event>, onWait: seq<Event>, ip: Option<Event>, last: Option<Event>)
  {
    function Events(): seq<Event> {
      [off] + offWait + ToSeq(on) + onWait + ToSeq(ip) + ToSeq(last)
    }

    /** Every stage is entered exactly when the one before it went well. */
    predicate Valid(oldIp: string) {
      && off.call.TurnOff? && Polled(offWait, Off) && (!off.Ok() ==> offWait == [])
      && (on.Some? <==> Reached(offWait, Off)) && (on.Some? ==> on.value.call.TurnOn?)
      && Polled(onWait, On) && (onWait != [] ==> on.Some? && on.value.Ok())
      && (ip.Some? <==> Reached(onWait, On)) && (ip.Some? ==> ip.value.call.GetIps?)
      && (last.Some? <==> ip.Some? && ip.value.GotAddress() && ip.value.Address() != oldIp)
      && (last.Some? ==> last.value.call.Status?)
    }

    predicate Changed() {
      last.Some? && last.value.Saw(On)
    }

    /** The state that was waited for did not come. */
    predicate WaitFailed() {
      if on.None? then off.Ok() else on.value.Ok() && ip.None?
    }
  }

  /** The code of the stage an attempt failed at. */
  function Verdict(a: Attempt, oldIp: string): (code: string)
    requires a.Valid(oldIp)
    ensures code != "unknown" && (code == "ok" <==> a.Changed())
  {
    if !Reached(a.offWait, Off) then "warp_stop_failed"
    else if !a.on.value.Ok() then "warp_start_failed"
    else if !Reached(a.onWait, On) then "network_not_recovered"
    else if !a.ip.value.GotAddress() then "ip_check_failed"
    else if a.ip.value.Address() == oldIp then "ip_unchanged"
    else if a.last.value.Saw(On) then "ok" else "network_not_recovered"
  }

  /** The address of the latest attempt that got one. */
  function LatestIp(attempts: seq<Attempt>): string {
    if attempts == [] then ""
    else if attempts[|attempts| - 1].ip.Some? && attempts[|attempts| - 1].ip.value.GotAddress()
    then attempts[|attempts| - 1].ip.value.Address()
    else LatestIp(attempts[..|attempts| - 1])
  }

  // Recovery.

  datatype Recovery = Recovery(look: Event, on: Option<Event>, wait: seq<Event>, last: Option<Event>) {
    function Events(): seq<Event> {
      [look] + ToSeq(on) + wait + ToSeq(last)
    }

    predicate Valid() {
      && look.call.Status?
      && (on.None? <==> look.Saw(On)) && (on.Some? ==> on.value.call.TurnOn?)
      && Polled(wait, On) && (wait != [] ==> on.Some? && on.value.Ok())
      && (last.Some? <==> on.Some?) && (last.Some? ==> last.value.call.Status?)
    }

    predicate Failed() {
      on.Some? && (!on.value.Ok() || !Reached(wait, On) || (last.Some? && !last.value.Ok()))
    }

    /** The recovery has a step timeout for itself: WarpOn is given what is left of it, and so is a wait in vain. */
    predicate WaitedOut(step: int) {
      && (on.Some? ==> on.value.context == Until(look.start + step))
      && (on.Some? && last.Some? && on.value.Ok() && !Reached(wait, On) ==> look.start + step <= last.value.start)
    }

    function State(): WarpState {
      if last.Some? then last.value.reply.state else look.reply.state
    }
  }

  // A run.

  /** `check` and `recovery` follow a failed loop; `settled` is the time at which only background disarms were left. */
  datatype Trace = Trace(
    setup: seq<Event>, attempts: seq<Attempt>, check: Option<Event>, recovery: Option<Recovery>,
    disarms: seq<Event>, settled: int)
  {
    function Events(): seq<Event> {
      setup + AllEvents(attempts) + ToSeq(check) + (if recovery.Some? then recovery.value.Events() else []) + disarms
    }
  }

  function AllEvents(attempts: seq<Attempt>): seq<Event> {
    if attempts == [] then []
    else AllEvents(attempts[..|attempts| - 1]) + attempts[|attempts| - 1].Events()
  }

  /** A precheck that saw WARP on or degraded, an old address, and a watchdog that was armed. */
  predicate Armed(setup: seq<Event>) {
    && |setup| == 3
    && (setup[0].Saw(On) || setup[0].Saw(Degraded))
    && setup[1].call.GetIps? && setup[1].GotAddress()
    && setup[2].call.Arm? && setup[2].Ok()
  }

  predicate AttemptsValid(attempts: seq<Attempt>, oldIp: string) {
    forall i :: 0 <= i < |attempts| ==> attempts[i].Valid(oldIp)
  }

  predicate NoneChanged(attempts: seq<Attempt>) {
    forall i :: 0 <= i < |attempts| ==> !attempts[i].Changed()
  }

  predicate Won(t: Trace) {
    t.attempts != [] && t.attempts[|t.attempts| - 1].Changed()
  }

  /** How a run that armed the watchdog is put together, and what it returns. */
  predicate ArmedRun(t: Trace, r: Result, maxAttempts: int) {
    && Armed(t.setup) && r.oldIp == t.setup[1].Address()
    && AttemptsValid(t.attempts, r.oldIp) && r.newIp == LatestIp(t.attempts)
    && |t.attempts| <= r.attempts <= |t.attempts| + 1 && r.attempts <= maxAttempts
    && (t.attempts != [] ==> NoneChanged(t.attempts[..|t.attempts| - 1]))
    && (forall i :: 0 <= i < |t.disarms| ==> t.disarms[i].call.Disarm?)
    && (if Won(t) then WonRun(t, r) else LostRun(t, r))
  }

  predicate WonRun(t: Trace, r: Result)
    requires Won(t)
  {
    && t.check.None? && t.recovery.None? && !r.recoveryFailed
    && r.attempts == |t.attempts| && r.finalState == On
    && 1 <= |t.disarms| <= 2 && (|t.disarms| == 2 <==> !t.disarms[0].Ok())
    && r.success == t.disarms[0].Ok() && r.watchdogFailed == !r.success
    && r.code == (if r.success then "ok" else "watchdog_disarm_failed")
  }

  predicate LostRun(t: Trace, r: Result)
    requires AttemptsValid(t.attempts, r.oldIp)
  {
    && !r.success && 1 <= r.attempts
    && r.code == (if r.attempts == |t.attempts| then Verdict(t.attempts[r.attempts - 1], r.oldIp) else "action_timeout")
    && t.check.Some? && t.check.value.call.Status?
    && (t.recovery.None? <==> t.check.value.Saw(On))
    && (t.recovery.Some? ==> t.recovery.value.Valid())
    && r.recoveryFailed == (t.recovery.Some? && t.recovery.value.Failed())
    && r.finalState == (if t.recovery.Some? then t.recovery.value.State() else t.check.value.reply.state)
    && 1 <= |t.disarms| <= 2 && (|t.disarms| == 2 <==> !r.recoveryFailed && !t.disarms[0].Ok())
    && r.watchdogFailed == (|t.disarms| == 2)
  }

  /** The first `k` calls of the setup went well. */
  predicate Good(setup: seq<Event>, k: int)
    requires k <= |setup| <= 3
  {
    && (k >= 1 ==> setup[0].Saw(On) || setup[0].Saw(Degraded))
    && (k >= 2 ==> setup[1].GotAddress())
    && (k >= 3 ==> setup[2].Ok())
  }

  /** What a run returns that gave up at the last of these calls. */
  function RefusedResult(setup: seq<Event>): Result
    requires setup != []
  {
    var n, last := |setup|, setup[|setup| - 1];
    Result(false,
           if n == 1 && last.Ok() then "invalid_state"
           else CodeOf(last.reply.error, if n == 2 then "old_ip_unavailable" else "precheck_failed"),
           if n >= 3 then setup[1].Address() else "", "", 0,
           if setup[0].Ok() then setup[0].reply.state else Unset, false, false)
  }

  /** A run that gave up before the watchdog was armed: at the first of status, address and Arm that did not go well. */
  predicate RefusedRun(t: Trace, r: Result) {
    && 1 <= |t.setup| <= 3 && t.attempts == [] && t.check.None? && t.recovery.None? && t.disarms == []
    && t.setup[0].call.Status? && (|t.setup| >= 2 ==> t.setup[1].call.GetIps?)
    && (|t.setup| == 3 ==> t.setup[2].call.Arm?)
    && Good(t.setup, |t.setup| - 1) && !Good(t.setup, |t.setup|)
    && r == RefusedResult(t.setup)
  }

  /** A run that made no call. */
  predicate IdleRun(t: Trace, r: Result, code: string) {
    && t.setup == [] && t.attempts == [] && t.check.None? && t.recovery.None? && t.disarms == []
    && r == Result(false, code, "", "", 0, Unset, false, false)
  }

  predicate RunOk(t: Trace, r: Result, maxAttempts: int) {
    ArmedRun(t, r, maxAttempts) || RefusedRun(t, r) || IdleRun(t, r, r.code)
  }

  /** A call is given a step timeout, or what is left until `end` if that is less. */
  predicate Timed(e: Event, end: int, step: int) {
    e.context == Until(if end <= e.start + step then end else e.start + step)
  }

  /**
   * Every attempt began in time, and after one that waited in vain there was none, because that took all the time;
   * WarpOff and WarpOn had a step timeout.
   */
  predicate BegunInTime(attempts: seq<Attempt>, end: int, step: int) {
    forall i :: 0 <= i < |attempts| ==>
      && attempts[i].off.start < end && (i < |attempts| - 1 ==> !attempts[i].WaitFailed())
      && Timed(attempts[i].off, end, step) && (attempts[i].on.Some? ==> Timed(attempts[i].on.value, end, step))
  }

  /**
   * The loop went on until an attempt succeeded, the limit was reached, or the time was up when the next one was due;
   * and a wait was given up only when the time was up.
   */
  predicate Stopped(t: Trace, r: Result, maxAttempts: int, end: int, step: int) {
    && BegunInTime(t.attempts, end, step)
    && (t.recovery.Some? ==> t.recovery.value.WaitedOut(step))
    && (!Won(t) ==>
          && t.check.Some?
          && (t.attempts != [] && t.attempts[|t.attempts| - 1].WaitFailed() ==> end <= t.check.value.start)
          && if r.attempts == |t.attempts| then r.attempts == maxAttempts else end <= t.check.value.start)
  }

  /**
   * `t` and `r` are the record and the result of a run that began at `start`: idle if its dependencies are missing or
   * its options out of range, refused if the setup did not go well, and otherwise a run that armed the watchdog.
   */
  predicate IsRun(t: Trace, r: Result, wired: bool, o: Options, parent: Context, start: int, step: int) {
    if !wired then IdleRun(t, r, "helper_failed")
    else if !InRange(o) then IdleRun(t, r, "invalid_parameters")
    else
      && t.setup != [] && t.setup[0].start == start
      && (|t.setup| == 3 ==> t.setup[2].call == Arm(start + Timeout(o), Attempts(o)))
      && (RefusedRun(t, r) || (ArmedRun(t, r, Attempts(o)) && Stopped(t, r, Attempts(o), RunEnd(parent, o, start),
                                                                      step)))
  }

  // What every run shares.

  function Count(events: seq<Event>, call: Call): nat {
    if events == [] then 0
    else Count(events[..|events| - 1], call) + (if events[|events| - 1].call == call then 1 else 0)
  }

  lemma {:induction false} CountAppend(a: seq<Event>, b: seq<Event>, call: Call)
    ensures Count(a + b, call) == Count(a, call) + Count(b, call)
  {
    if b == [] {
      assert a + b == a;
    } else {
      assert (a + b)[..|a + b| - 1] == a + b[..|b| - 1];
      CountAppend(a, b[..|b| - 1], call);
    }
  }

  lemma {:induction false} CountNone(events: seq<Event>, call: Call)
    requires forall i :: 0 <= i < |events| ==> events[i].call != call
    ensures Count(events, call) == 0
  {
    if events != [] {
      CountNone(events[..|events| - 1], call);
    }
  }

  lemma CountMaybe(o: Option<Event>, call: Call)
    ensures Count(ToSeq(o), call) == if o.Some? && o.value.call == call then 1 else 0
  {
    if o.Some? {
      assert ToSeq(o)[..0] == [];
    }
  }

  predicate Moves(c: Call) {
    c == TurnOff || c == TurnOn || c == Disarm
  }

  lemma CountHead(off: Event, wait: seq<Event>, c: Call)
    requires off.call.TurnOff? && Moves(c) && forall i :: 0 <= i < |wait| ==> wait[i].call.Status?
    ensures Count([off] + wait, c) == if c == TurnOff then 1 else 0
  {
    CountAppend([off], wait, c);
    CountNone(wait, c);
    CountMaybe(Some(off), c);
  }

  lemma CountTail(wait: seq<Event>, ip: Option<Event>, last: Option<Event>, c: Call)
    requires Moves(c) && forall i :: 0 <= i < |wait| ==> wait[i].call.Status?
    requires (ip.Some? ==> ip.value.call.GetIps?) && (last.Some? ==> last.value.call.Status?)
    ensures Count(wait + ToSeq(ip) + ToSeq(last), c) == 0
  {
    CountAppend(wait + ToSeq(ip), ToSeq(last), c);
    CountAppend(wait, ToSeq(ip), c);
    CountNone(wait, c);
    CountMaybe(ip, c);
    CountMaybe(last, c);
  }

  lemma AttemptCount(a: Attempt, oldIp: string, c: Call)
    requires a.Valid(oldIp) && Moves(c)
    ensures Count(a.Events(), c) == (if c == TurnOff then 1 else 0) + Count(ToSeq(a.on), c)
  {
    CountHead(a.off, a.offWait, c);
    CountTail(a.onWait, a.ip, a.last, c);
    CountAround([a.off] + a.offWait, ToSeq(a.on), a.onWait + ToSeq(a.ip) + ToSeq(a.last), c);
    assert a.Events() == ([a.off] + a.offWait) + ToSeq(a.on) + (a.onWait + ToSeq(a.ip) + ToSeq(a.last));
  }

  lemma CountAround(first: seq<Event>, middle: seq<Event>, last: seq<Event>, c: Call)
    ensures Count(first + middle + last, c) == Count(first, c) + Count(middle, c) + Count(last, c)
  {
    CountAppend(first + middle, last, c);
    CountAppend(first, middle, c);
  }

  /** An attempt calls WarpOff once and WarpOn at most once. */
  lemma AttemptCounts(a: Attempt, oldIp: string)
    requires a.Valid(oldIp)
    ensures Count(a.Events(), TurnOff) == 1
    ensures Count(a.Events(), TurnOn) == if a.on.Some? then 1 else 0
    ensures Count(a.Events(), Disarm) == 0
  {
    AttemptCount(a, oldIp, TurnOff);
    AttemptCount(a, oldIp, TurnOn);
    AttemptCount(a, oldIp, Disarm);
    CountMaybe(a.on, TurnOn);
    CountMaybe(a.on, TurnOff);
    CountMaybe(a.on, Disarm);
  }

  lemma {:induction false} AttemptsCounts(attempts: seq<Attempt>, oldIp: string)
    requires AttemptsValid(attempts, oldIp)
    ensures Count(AllEvents(attempts), TurnOff) == |attempts|
    ensures Count(AllEvents(attempts), TurnOn) <= |attempts|
    ensures Count(AllEvents(attempts), Disarm) == 0
  {
    if attempts != [] {
      var front, a := attempts[..|attempts| - 1], attempts[|attempts| - 1];
      AttemptsCounts(front, oldIp);
      AttemptCounts(a, oldIp);
      CountAppend(AllEvents(front), a.Events(), TurnOff);
      CountAppend(AllEvents(front), a.Events(), TurnOn);
      CountAppend(AllEvents(front), a.Events(), Disarm);
    }
  }

  lemma CountReads(wait: seq<Event>, last: Option<Event>, c: Call)
    requires Moves(c) && forall i :: 0 <= i < |wait| ==> wait[i].call.Status?
    requires last.Some? ==> last.value.call.Status?
    ensures Count(wait + ToSeq(last), c) == 0
  {
    CountAppend(wait, ToSeq(last), c);
    CountNone(wait, c);
    CountMaybe(last, c);
  }

  lemma RecoveryCount(r: Recovery, c: Call)
    requires r.Valid() && Moves(c)
    ensures Count(r.Events(), c) == Count(ToSeq(r.on), c)
  {
    CountMaybe(Some(r.look), c);
    CountReads(r.wait, r.last, c);
    CountAround([r.look], ToSeq(r.on), r.wait + ToSeq(r.last), c);
    Joined([r.look] + ToSeq(r.on), r.wait, ToSeq(r.last));
  }

  lemma RecoveryCounts(r: Recovery)
    requires r.Valid()
    ensures Count(r.Events(), TurnOff) == 0 && Count(r.Events(), TurnOn) <= 1 && Count(r.Events(), Disarm) == 0
  {
    RecoveryCount(r, TurnOff);
    RecoveryCount(r, TurnOn);
    RecoveryCount(r, Disarm);
    CountMaybe(r.on, TurnOn);
    CountMaybe(r.on, TurnOff);
    CountMaybe(r.on, Disarm);
  }

  function RecoveryEvents(t: Trace): seq<Event> {
    if t.recovery.Some? then t.recovery.value.Events() else []
  }

  lemma CountParts(t: Trace, c: Call)
    ensures Count(t.Events(), c) == Count(t.setup, c) + Count(AllEvents(t.attempts), c) + Count(ToSeq(t.check), c)
                                    + Count(RecoveryEvents(t), c) + Count(t.disarms, c)
  {
    CountAppend(t.setup + AllEvents(t.attempts) + ToSeq(t.check) + RecoveryEvents(t), t.disarms, c);
    CountAppend(t.setup + AllEvents(t.attempts) + ToSeq(t.check), RecoveryEvents(t), c);
    CountAppend(t.setup + AllEvents(t.attempts), ToSeq(t.check), c);
    CountAppend(t.setup, AllEvents(t.attempts), c);
  }

  lemma {:induction false} CountAll(events: seq<Event>, call: Call)
    requires forall i :: 0 <= i < |events| ==> events[i].call == call
    ensures Count(events, call) == |events|
  {
    if events != [] {
      CountAll(events[..|events| - 1], call);
    }
  }

  lemma CallCounts(t: Trace, r: Result, maxAttempts: int)
    requires RunOk(t, r, maxAttempts)
    ensures Count(t.Events(), TurnOff) <= r.attempts && (1 <= maxAttempts ==> r.attempts <= maxAttempts)
    ensures Count(t.Events(), TurnOn) <= Count(t.Events(), TurnOff) + 1
    ensures r.success ==> Count(t.Events(), TurnOn) <= Count(t.Events(), TurnOff)
    ensures Armed(t.setup) ==> 1 <= Count(t.Events(), Disarm) <= 2
    ensures !Armed(t.setup) ==>
      Count(t.Events(), TurnOff) == Count(t.Events(), TurnOn) == Count(t.Events(), Disarm) == 0
  {
    MovingCalls(t, r, maxAttempts, TurnOff);
    MovingCalls(t, r, maxAttempts, TurnOn);
    MovingCalls(t, r, maxAttempts, Disarm);
    if ArmedRun(t, r, maxAttempts) {
      AttemptsCounts(t.attempts, r.oldIp);
      RecoveryPartCounts(t, r, maxAttempts);
    }
  }

  lemma RecoveryPartCounts(t: Trace, r: Result, maxAttempts: int)
    requires ArmedRun(t, r, maxAttempts)
    ensures Count(RecoveryEvents(t), TurnOff) == 0 && Count(RecoveryEvents(t), TurnOn) <= 1
    ensures Count(RecoveryEvents(t), Disarm) == 0 && (Won(t) ==> Count(RecoveryEvents(t), TurnOn) == 0)
  {
    if t.recovery.Some? {
      RecoveryCounts(t.recovery.value);
    }
  }

  /** Setup and the check after the loop change nothing; only the disarms at the end call Disarm. */
  lemma MovingCalls(t: Trace, r: Result, maxAttempts: int, c: Call)
    requires RunOk(t, r, maxAttempts) && (c == TurnOff || c == TurnOn || c == Disarm)
    ensures Count(t.Events(), c) == Count(AllEvents(t.attempts), c) + Count(RecoveryEvents(t), c)
                                    + (if c == Disarm then |t.disarms| else 0)
  {
    SetupIsReads(t, r, maxAttempts);
    EndIsCheckAndDisarms(t, r, maxAttempts);
    PartsThatMove(t, c);
  }

  lemma EndIsCheckAndDisarms(t: Trace, r: Result, maxAttempts: int)
    requires RunOk(t, r, maxAttempts)
    ensures t.check.Some? ==> t.check.value.call.Status?
    ensures forall i :: 0 <= i < |t.disarms| ==> t.disarms[i].call.Disarm?
  {
  }

  lemma PartsThatMove(t: Trace, c: Call)
    requires c == TurnOff || c == TurnOn || c == Disarm
    requires forall i :: 0 <= i < |t.setup| ==>
      !t.setup[i].call.TurnOff? && !t.setup[i].call.TurnOn? && !t.setup[i].call.Disarm?
    requires t.check.Some? ==> t.check.value.call.Status?
    requires forall i :: 0 <= i < |t.disarms| ==> t.disarms[i].call.Disarm?
    ensures Count(t.Events(), c) == Count(AllEvents(t.attempts), c) + Count(RecoveryEvents(t), c)
                                    + (if c == Disarm then |t.disarms| else 0)
  {
    CountParts(t, c);
    CountNone(t.setup, c);
    CountNone(ToSeq(t.check), c);
    if c == Disarm {
      CountAll(t.disarms, Disarm);
    } else {
      CountNone(t.disarms, c);
    }
  }

  /** Once seen on, WARP is seen on until WarpOff is called. */
  ghost predicate StaysOn(events: seq<Event>) {
    forall i, j | 0 <= i < j < |events| && events[i].Saw(On) && events[j].call.Status? && events[j].Ok()
                  && (forall k :: i < k < j ==> !events[k].call.TurnOff?) ::
      events[j].reply.state == On
  }

  // Order of the calls.

  /** Where the only WarpOn of a stretch is. */
  lemma OnlyOn(head: seq<Event>, on: Option<Event>, tail: seq<Event>, k: nat)
    requires forall e :: e in head || e in tail ==> !e.call.TurnOn?
    requires k < |head + ToSeq(on) + tail| && (head + ToSeq(on) + tail)[k].call.TurnOn?
    ensures k == |head| && on.Some?
  {
    var e := (head + ToSeq(on) + tail)[k];
    assert k < |head| ==> e in head;
    assert k >= |head| + |ToSeq(on)| ==> e in tail;
  }

  lemma AttemptParts(a: Attempt, oldIp: string)
    requires a.Valid(oldIp)
    ensures a.Events() == ([a.off] + a.offWait) + ToSeq(a.on) + (a.onWait + ToSeq(a.ip) + ToSeq(a.last))
    ensures forall e :: e in [a.off] + a.offWait || e in a.onWait + ToSeq(a.ip) + ToSeq(a.last) ==> !e.call.TurnOn?
    ensures a.on.Some? ==> a.off.Ok() && Reached(a.offWait, Off)
  {
  }

  /** In an attempt, WarpOn comes right after a status read that saw WARP off, and that after WarpOff. */
  lemma OnFollowsSeenOff(a: Attempt, oldIp: string, k: nat)
    requires a.Valid(oldIp) && k < |a.Events()| && a.Events()[k].call.TurnOn?
    ensures k >= 2 && a.Events()[k - 1].Saw(Off) && a.Events()[0].call.TurnOff? && a.Events()[0].Ok()
    ensures forall i :: 1 <= i < k ==> a.Events()[i].call.Status?
  {
    AttemptParts(a, oldIp);
    OnlyOn([a.off] + a.offWait, a.on, a.onWait + ToSeq(a.ip) + ToSeq(a.last), k);
    HeadOfAttempt(a, oldIp);
  }

  lemma HeadOfAttempt(a: Attempt, oldIp: string)
    requires a.Valid(oldIp)
    ensures |a.Events()| >= 1 + |a.offWait| && a.Events()[0] == a.off
    ensures forall i :: 1 <= i <= |a.offWait| ==> a.Events()[i] == a.offWait[i - 1] && a.Events()[i].call.Status?
  {
    AttemptParts(a, oldIp);
  }

  lemma SetupComesFirst(t: Trace)
    ensures |t.setup| <= |t.Events()| && t.Events()[..|t.setup|] == t.setup
  {
  }

  lemma SetupIsReads(t: Trace, r: Result, maxAttempts: int)
    requires RunOk(t, r, maxAttempts)
    ensures |t.setup| <= 3
    ensures forall i :: 0 <= i < |t.setup| ==>
      !t.setup[i].call.TurnOff? && !t.setup[i].call.TurnOn? && !t.setup[i].call.Disarm?
  {
  }

  lemma RefusedMovesNothing(t: Trace, r: Result)
    requires RefusedRun(t, r) || IdleRun(t, r, r.code)
    ensures t.Events() == t.setup && forall e :: e in t.Events() ==>
      !e.call.TurnOff? && !e.call.TurnOn? && !e.call.Disarm?
  {
    assert t.Events() == t.setup;
  }
}
