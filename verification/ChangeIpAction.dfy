/** The change_ip branch of the executor, and what it reports (agent/internal/action/executor.go). */
module ChangeIpAction {
  import opened Basics
  import opened ChangeIp
  import opened ChangeIpMachine
  import opened ChangeIpHosts

  /** The parameters of the command as they are decoded; both may be absent. */
  datatype Parameters = Parameters(maxAttempts: Option<int>, timeoutSeconds: Option<int>)

  /** DecodeChangeIPParameters; None is an object that does not decode. */
  function Decode(raw: Option<Parameters>): Option<Parameters> {
    if raw.None? then None
    else if raw.value.maxAttempts.Some? && !(1 <= raw.value.maxAttempts.value <= 3) then None
    else if raw.value.timeoutSeconds.Some? && !(30 <= raw.value.timeoutSeconds.value <= 180) then None
    else raw
  }

  function OptionsOf(p: Parameters): Options {
    Options(p.maxAttempts.GetOr(0), if p.timeoutSeconds.Some? then p.timeoutSeconds.value * 1000 else 0)
  }

  /** What decodes is in the machine's range, so the machine never refuses for its options. */
  lemma DecodedIsInRange(raw: Option<Parameters>)
    requires Decode(raw).Some?
    ensures InRange(OptionsOf(Decode(raw).value))
  {
  }

  /** What decodes and what it asks for, an absent parameter standing for three attempts or three minutes. */
  lemma ParametersOnNumbers(raw: Option<Parameters>)
    ensures Decode(raw).Some? <==>
      && raw.Some? && (raw.value.maxAttempts.Some? ==> 1 <= raw.value.maxAttempts.value <= 3)
      && (raw.value.timeoutSeconds.Some? ==> 30 <= raw.value.timeoutSeconds.value <= 180)
    ensures Decode(raw).Some? ==>
      var o := OptionsOf(Decode(raw).value);
      && Attempts(o) == (if raw.value.maxAttempts.Some? then raw.value.maxAttempts.value else 3)
      && Timeout(o) == (if raw.value.timeoutSeconds.Some? then raw.value.timeoutSeconds.value * 1000 else 180_000)
  {
  }

  datatype Report = Report(state: string, code: string, payload: Option<Result>)

  /**
   * The part of execute that handles change_ip. A change that did not succeed sets the code and falls through to the
   * end, where only the decoding error counts.
   */
  method ExecuteChangeIp(machine: Machine, raw: Option<Parameters>, context: Context)
    returns (report: Report, ghost t: Trace)
    requires machine.Valid()
    modifies machine
    ensures machine.Valid()
    ensures report.payload.Some? <==> Decode(raw).Some?
    ensures report.payload.Some? ==>
      && IsRun(t, report.payload.value, machine.wired, OptionsOf(Decode(raw).value), context, old(machine.clock),
               machine.Step())
      && machine.log == old(machine.log) + t.Events()
    ensures report.payload.None? ==> machine.log == old(machine.log)
    ensures report.state == "succeeded" <==> Decode(raw).Some?
    ensures report.code == if Decode(raw).Some? then "ok" else "invalid_parameters"
    ensures report.payload.Some? && !report.payload.value.success ==> report.state == "succeeded"
  {
    t := Trace([], [], None, None, [], machine.clock);
    report := Report("failed", "helper_failed", None);
    var error: Option<Failure> := None;
    var parameters := Decode(raw);
    if parameters.None? {
      error := Some(Failure("invalid_parameters"));
    } else {
      var change;
      change, t := machine.Run(context, OptionsOf(parameters.value));
      report := report.(payload := Some(change));
      if change.success {
        return report.(state := "succeeded", code := "ok"), t;
      }
      report := report.(code := change.code);
    }
    if error.Some? {
      report := report.(code := CodeOf(error, report.code));
      return;
    }
    report := report.(state := "succeeded", code := "ok");
  }

  /** On the host where the change fails and even its recovery does, the action is reported as succeeded. */
  method FailureIsReportedAsSuccess() returns (report: Report)
    ensures report.state == "succeeded" && report.code == "ok"
    ensures report.payload.Some? && !report.payload.value.success && report.payload.value.recoveryFailed
  {
    var m := new Machine(DEFAULT_POLL, DEFAULT_STEP, true, Replies(false), (n: nat) => false, 0);
    ghost var t;
    report, t := ExecuteChangeIp(m, Some(Parameters(Some(1), Some(30))), Background);
    LogIsAnswered(m.log, m.clock, false);
    assert m.log == t.Events();
    EndsUndisarmed(t, report.payload.value);
    FailedRun(t, report.payload.value);
  }

  lemma FailedRun(t: Trace, r: Result)
    requires RunOn(t, r, false)
    ensures !r.success
  {
    Recovers(t, r, false);
  }
}
