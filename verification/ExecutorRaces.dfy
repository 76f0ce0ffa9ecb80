/**
 * A run in which a read-only request runs a second time although its first run is on record: its thread looks
 * the journal up once, before it claims the id, and the first run may come to an end in between.
 */
module ExecutorRaces {
  import opened Basics
  import opened Journals
  import opened Executors
  import ExecutorProofs

  function Read(a: Action): Command {
    Command("r", a)
  }

  const OUTCOME := Result("succeeded", "ok", "action completed", "{}", 0)
  const QUICK := Choice(None, OUTCOME, Installed)

  /** A journal with room for this one entry. */
  predicate Roomy(cfg: Config, a: Action) {
    var one := [EntryOf(Read(a), OUTCOME)];
    1 <= cfg.maxEntries && cfg.compact(one) <= cfg.maxBytes && cfg.indented(one) <= cfg.maxBytes
  }

  predicate ReadOnly(a: Action) {
    Supported(a) && !StateChanging(a)
  }

  function Two(a: Action, one: Pc, two: Pc): map<nat, Thread> {
    map[1 := Thread(Read(a), one), 2 := Thread(Read(a), two)]
  }

  lemma OneMore(cfg: Config, events: seq<Event>, s: State, e: Event) returns (more: seq<Event>)
    requires Run(cfg, events) == s
    ensures Run(cfg, more) == Next(cfg, s, e)
  {
    more := events + [e];
    assert more[..|more| - 1] == events;
  }

  /** Thread 1 takes a step. */
  lemma First(cfg: Config, events: seq<Event>, s: State, next: State) returns (more: seq<Event>)
    requires Run(cfg, events) == s && 1 in s.threads && Step(cfg, s, 1, QUICK) == next
    ensures Run(cfg, more) == next
  {
    more := OneMore(cfg, events, s, Advance(1, QUICK));
  }

  lemma BothCome(cfg: Config, a: Action) returns (events: seq<Event>)
    ensures Run(cfg, events) == IDLE.(threads := Two(a, Looking, Looking))
  {
    var s0 := IDLE;
    events := OneMore(cfg, [], s0, Spawn(1, Read(a)));
    var s1 := IDLE.(threads := map[1 := Thread(Read(a), Looking)]);
    events := OneMore(cfg, events, s1, Spawn(2, Read(a)));
    var s2 := IDLE.(threads := Two(a, Looking, Looking));
    assert Next(cfg, s1, Spawn(2, Read(a))) == s2;
  }

  lemma BothLook(cfg: Config, a: Action) returns (events: seq<Event>)
    requires ReadOnly(a)
    ensures Run(cfg, events) == IDLE.(threads := Two(a, Claiming, Claiming))
  {
    events := BothCome(cfg, a);
    var s2 := IDLE.(threads := Two(a, Looking, Looking));
    events := OneMore(cfg, events, s2, Advance(2, QUICK));
    var s3 := IDLE.(threads := Two(a, Looking, Validating));
    assert Step(cfg, s2, 2, QUICK).threads == Two(a, Looking, Validating);
    events := OneMore(cfg, events, s3, Advance(2, QUICK));
    var s4 := IDLE.(threads := Two(a, Looking, Claiming));
    assert Step(cfg, s3, 2, QUICK).threads == Two(a, Looking, Claiming);
    var s5 := IDLE.(threads := Two(a, Validating, Claiming));
    assert Step(cfg, s4, 1, QUICK).threads == Two(a, Validating, Claiming);
    events := First(cfg, events, s4, s5);
    assert Step(cfg, s5, 1, QUICK).threads == Two(a, Claiming, Claiming);
    events := First(cfg, events, s5, IDLE.(threads := Two(a, Claiming, Claiming)));
  }

  /** The state when the first run is over and on record. */
  function Recorded(a: Action): State {
    State(Two(a, Done(OUTCOME), Claiming), {}, None, [EntryOf(Read(a), OUTCOME)], {"r"}, [Start(1, "r")])
  }

  lemma RecordStep(cfg: Config, a: Action, s: State)
    requires ReadOnly(a) && Roomy(cfg, a)
    requires s == State(Two(a, Recording(OUTCOME), Claiming), {"r"}, None, [], {}, [Start(1, "r")])
    ensures Step(cfg, s, 1, QUICK) == State(Two(a, Releasing(OUTCOME), Claiming), {"r"}, None,
                                            [EntryOf(Read(a), OUTCOME)], {"r"}, [Start(1, "r")])
  {
    var one := [EntryOf(Read(a), OUTCOME)];
    assert [] + one == one && Trim(cfg, one) == one;
    assert RecordOutcome(cfg, [], one[0], Installed).Recorded?;
    assert Step(cfg, s, 1, QUICK).threads == Two(a, Releasing(OUTCOME), Claiming);
  }

  lemma FirstStarts(cfg: Config, a: Action) returns (events: seq<Event>)
    requires ReadOnly(a)
    ensures Run(cfg, events) == State(Two(a, Running, Claiming), {"r"}, None, [], {}, [Start(1, "r")])
  {
    events := BothLook(cfg, a);
    var s0 := IDLE.(threads := Two(a, Claiming, Claiming));
    var s1 := State(Two(a, Starting, Claiming), {"r"}, None, [], {}, []);
    assert Step(cfg, s0, 1, QUICK).threads == s1.threads;
    events := First(cfg, events, s0, s1);
    var s2 := State(Two(a, Running, Claiming), {"r"}, None, [], {}, [Start(1, "r")]);
    assert Step(cfg, s1, 1, QUICK).threads == s2.threads;
    events := First(cfg, events, s1, s2);
  }

  lemma FirstRuns(cfg: Config, a: Action) returns (events: seq<Event>)
    requires ReadOnly(a) && Roomy(cfg, a)
    ensures Run(cfg, events) == Recorded(a)
  {
    events := FirstStarts(cfg, a);
    var s2 := State(Two(a, Running, Claiming), {"r"}, None, [], {}, [Start(1, "r")]);
    var s3 := State(Two(a, Recording(OUTCOME), Claiming), {"r"}, None, [], {}, [Start(1, "r")]);
    assert Step(cfg, s2, 1, QUICK).threads == s3.threads;
    events := First(cfg, events, s2, s3);
    RecordStep(cfg, a, s3);
    var s4 := State(Two(a, Releasing(OUTCOME), Claiming), {"r"}, None, [EntryOf(Read(a), OUTCOME)], {"r"},
                    [Start(1, "r")]);
    events := First(cfg, events, s3, s4);
    assert Step(cfg, s4, 1, QUICK).threads == Recorded(a).threads;
    events := First(cfg, events, s4, Recorded(a));
  }

  /** Thread `t` is about to start the action `a` although the journal retains what a run of its id recorded. */
  predicate StartsAgain(cfg: Config, events: seq<Event>, t: nat, a: Action) {
    var s := Run(cfg, events);
    && t in s.threads && s.threads[t].cmd.action == a && RetainedRun(s, s.threads[t].cmd.request)
    && Run(cfg, events + [Advance(t, QUICK)]).starts == s.starts + [Start(t, s.threads[t].cmd.request)]
  }

  /** A read-only request may run again while the journal retains the record of its first run. */
  lemma ReadOnlyMayRunTwice(cfg: Config, a: Action) returns (events: seq<Event>)
    requires ReadOnly(a) && Roomy(cfg, a)
    ensures StartsAgain(cfg, events, 2, a) && Run(cfg, events).starts == [Start(1, "r")]
  {
    var recorded := FirstRuns(cfg, a);
    var s1 := Step(cfg, Recorded(a), 2, QUICK);
    events := OneMore(cfg, recorded, Recorded(a), Advance(2, QUICK));
    assert s1.threads == Two(a, Done(OUTCOME), Starting);
    assert Run(cfg, events).journal[0].request == "r";
    assert (events + [Advance(2, QUICK)])[..|events|] == events;
  }

  // Which actions can do that.

  /** Past validation there are only actions of the catalogue. */
  ghost predicate OnlySupported(s: State) {
    forall t :: t in s.threads && Claimed(s.threads[t].pc) ==> Supported(s.threads[t].cmd.action)
  }

  ghost predicate ClaimingSupported(s: State) {
    forall t :: t in s.threads && s.threads[t].pc.Claiming? ==> Supported(s.threads[t].cmd.action)
  }

  lemma ClaimsComeFromTheCatalogue(cfg: Config, s: State, t: nat, ch: Choice)
    requires t in s.threads
    ensures var before, n := s.threads[t].pc, Step(cfg, s, t, ch);
      && t in n.threads
      && (Claimed(n.threads[t].pc) ==> Claimed(before) || before.Claiming?)
      && (n.threads[t].pc.Claiming? ==> Supported(s.threads[t].cmd.action))
  {
  }

  lemma NextKeepsSupported(cfg: Config, s: State, ev: Event)
    requires LockOk(s) && OnlySupported(s) && ClaimingSupported(s)
    ensures OnlySupported(Next(cfg, s, ev)) && ClaimingSupported(Next(cfg, s, ev))
  {
    if ev.Advance? && ev.thread in s.threads {
      ClaimsComeFromTheCatalogue(cfg, s, ev.thread, ev.choice);
      ExecutorProofs.StepMoves(cfg, s, ev.thread, ev.choice);
    }
  }

  lemma {:induction false} ReachableSupported(cfg: Config, events: seq<Event>)
    ensures OnlySupported(Run(cfg, events)) && ClaimingSupported(Run(cfg, events))
  {
    if events != [] {
      ReachableSupported(cfg, events[..|events| - 1]);
      ExecutorProofs.ReachableInv(cfg, events[..|events| - 1]);
      NextKeepsSupported(cfg, Run(cfg, events[..|events| - 1]), events[|events| - 1]);
    }
  }

  /**
   * For which actions a request can run again while its run is on record: exactly for the read-only ones.
   * State-changing actions look the journal up again under the mutex, all others are refused.
   */
  lemma RunsAgainIff(cfg: Config, a: Action)
    requires Roomy(cfg, a)
    ensures (exists events, t :: StartsAgain(cfg, events, t, a)) <==> a == GetStatus || a == GetIp
  {
    if ReadOnly(a) {
      var events := ReadOnlyMayRunTwice(cfg, a);
      assert StartsAgain(cfg, events, 2, a);
    } else {
      forall events, t ensures !StartsAgain(cfg, events, t, a) {
        OthersNeverStartAgain(cfg, events, t, a);
      }
    }
  }

  lemma OthersNeverStartAgain(cfg: Config, events: seq<Event>, t: nat, a: Action)
    requires !ReadOnly(a)
    ensures !StartsAgain(cfg, events, t, a)
  {
    var s := Run(cfg, events);
    assert (events + [Advance(t, QUICK)])[..|events|] == events;
    if t in s.threads && s.threads[t].cmd.action == a && Run(cfg, events + [Advance(t, QUICK)]).starts != s.starts {
      ReachableSupported(cfg, events);
      assert s.threads[t].pc.Starting?;
      ExecutorProofs.RecordedRunIsNotRepeated(cfg, events, t, QUICK);
    }
  }
}
