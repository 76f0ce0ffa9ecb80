/** What every interleaving of Execute calls keeps. */
module ExecutorProofs {
  import opened Basics
  import opened Journals
  import opened Executors

  /** A step moves one thread, and changes the claims and the mutex only together with it. */
  predicate Moves(s: State, n: State, t: nat)
    requires t in s.threads
  {
    && t in n.threads && n.threads == s.threads[t := n.threads[t]] && n.threads[t].cmd == s.threads[t].cmd
    && var id, before, after := s.threads[t].cmd.request, s.threads[t].pc, n.threads[t].pc;
    && (if Claimed(before) == Claimed(after) then n.active == s.active
        else if Claimed(after) then id !in s.active && n.active == s.active + {id}
        else n.active == s.active - {id})
    && (if InLock(s.threads[t]) == InLock(n.threads[t]) then n.holder == s.holder
        else if InLock(n.threads[t]) then s.holder == None && n.holder == Some(t)
        else n.holder == None)
    && NeedsLock(after, s.threads[t].cmd.action)
  }

  lemma StepMoves(cfg: Config, s: State, t: nat, ch: Choice)
    requires t in s.threads && NeedsLock(s.threads[t].pc, s.threads[t].cmd.action)
    ensures Moves(s, Step(cfg, s, t, ch), t)
  {
    if Claimed(s.threads[t].pc) {
      ClaimedMoves(cfg, s, t, ch);
    } else {
      UnclaimedMoves(cfg, s, t, ch);
    }
  }

  lemma ClaimedMoves(cfg: Config, s: State, t: nat, ch: Choice)
    requires t in s.threads && NeedsLock(s.threads[t].pc, s.threads[t].cmd.action) && Claimed(s.threads[t].pc)
    ensures Moves(s, Step(cfg, s, t, ch), t)
  {
  }

  lemma UnclaimedMoves(cfg: Config, s: State, t: nat, ch: Choice)
    requires t in s.threads && !Claimed(s.threads[t].pc)
    ensures Moves(s, Step(cfg, s, t, ch), t)
  {
  }

  lemma MoveKeepsClaims(s: State, n: State, t: nat)
    requires ClaimsOk(s) && t in s.threads && Moves(s, n, t)
    ensures ClaimsOk(n)
  {
    var me := s.threads[t].cmd.request;
    forall u | u in n.threads && u != t && Claimed(n.threads[u].pc)
      ensures n.threads[u].cmd.request in n.active
      ensures Claimed(n.threads[t].pc) ==> n.threads[u].cmd.request != me
    {
      assert s.threads[u].cmd.request in s.active;
    }
    forall id | id in n.active ensures exists u :: Owns(n, u, id) {
      if id in s.active {
        var u :| Owns(s, u, id);
        assert Owns(n, u, id);
      } else {
        assert Owns(n, t, id);
      }
    }
  }

  lemma MoveKeepsLock(s: State, n: State, t: nat)
    requires LockOk(s) && t in s.threads && Moves(s, n, t)
    ensures LockOk(n)
  {
  }

  /** Recording under one id neither brings back nor relabels another id. */
  lemma PersistKeepsRetained(cfg: Config, s: State, c: Command, r: Result, ran: bool, write: Write, id: string)
    requires EntriesOk(cfg, s.journal)
    requires id != c.request || !ran
    ensures EntriesOk(cfg, Persist(cfg, s, c, r, ran, write).journal)
    ensures RetainedRun(Persist(cfg, s, c, r, ran, write), id) ==> RetainedRun(s, id)
  {
    var e := EntryOf(c, r);
    RecordKeepsEntriesOk(cfg, s.journal, e, write);
    var n := Persist(cfg, s, c, r, ran, write);
    if RecordOutcome(cfg, s.journal, e, write).Recorded? && RetainedRun(n, id) {
      var k := RecordedIsSuffixPlusEntry(cfg, s.journal, e, write);
      var i := Find(n.journal, id);
      assert id != c.request;
      assert n.journal[i] == s.journal[k + i];
    }
  }

  /** Recording a result neither starts a thread nor brings back what a starting thread did not find. */
  lemma PersistKeepsStarts(cfg: Config, s: State, t: nat, r: Result, ran: bool, write: Write, pc: Pc)
    requires Inv(cfg, s) && t in s.threads && !pc.Starting? && (ran ==> Claimed(s.threads[t].pc))
    ensures var n := At(Persist(cfg, s, s.threads[t].cmd, r, ran, write), t, pc);
      StartsOk(n) && EntriesOk(cfg, n.journal)
  {
    var c := s.threads[t].cmd;
    var n := At(Persist(cfg, s, c, r, ran, write), t, pc);
    RecordKeepsEntriesOk(cfg, s.journal, EntryOf(c, r), write);
    forall u | u in n.threads && n.threads[u].pc.Starting? && StateChanging(n.threads[u].cmd.action)
      ensures !RetainedRun(n, n.threads[u].cmd.request)
    {
      var id := n.threads[u].cmd.request;
      assert u != t && Owns(s, u, id);
      if ran {
        assert Owns(s, t, c.request);
      }
      PersistKeepsRetained(cfg, s, c, r, ran, write, id);
    }
  }

  lemma StepKeepsStarts(cfg: Config, s: State, t: nat, ch: Choice)
    requires Inv(cfg, s) && t in s.threads
    ensures StartsOk(Step(cfg, s, t, ch)) && EntriesOk(cfg, Step(cfg, s, t, ch).journal)
  {
    var pc := s.threads[t].pc;
    if pc.Refusing? {
      PersistKeepsStarts(cfg, s, t, pc.refused, false, ch.write,
                         Done(Persisted(cfg, s, s.threads[t].cmd, pc.refused, false, ch.write)));
    } else if pc.Recording? {
      PersistKeepsStarts(cfg, s, t, pc.finished, true, ch.write, Step(cfg, s, t, ch).threads[t].pc);
    } else {
      QuietStepKeepsStarts(cfg, s, t, ch);
    }
  }

  /** A step that records nothing: a state-changing thread comes to its start only from a lookup that found nothing. */
  lemma QuietStep(cfg: Config, s: State, t: nat, ch: Choice)
    requires t in s.threads && !s.threads[t].pc.Refusing? && !s.threads[t].pc.Recording?
    ensures var n := Step(cfg, s, t, ch);
      && n.journal == s.journal && n.byRun == s.byRun && t in n.threads && n.threads == s.threads[t := n.threads[t]]
      && n.threads[t].cmd == s.threads[t].cmd
      && (n.threads[t].pc.Starting? && StateChanging(s.threads[t].cmd.action) ==> !Holds(s.journal,
                                                                                         s.threads[t].cmd.request))
  {
  }

  lemma QuietStepKeepsStarts(cfg: Config, s: State, t: nat, ch: Choice)
    requires Inv(cfg, s) && t in s.threads && !s.threads[t].pc.Refusing? && !s.threads[t].pc.Recording?
    ensures StartsOk(Step(cfg, s, t, ch)) && EntriesOk(cfg, Step(cfg, s, t, ch).journal)
  {
    QuietStep(cfg, s, t, ch);
    var n := Step(cfg, s, t, ch);
    forall u | u in n.threads && n.threads[u].pc.Starting? && StateChanging(n.threads[u].cmd.action)
      ensures !RetainedRun(n, n.threads[u].cmd.request)
    {
      if u != t { assert n.threads[u] == s.threads[u]; }
    }
  }

  /** Threads that claim nothing come and go without touching the claims. */
  lemma IdleThreadKeepsClaims(s: State, n: State, t: nat)
    requires t !in s.threads && t in n.threads && !Claimed(n.threads[t].pc)
    requires n.threads == s.threads[t := n.threads[t]] && n.active == s.active
    ensures ClaimsOk(s) <==> ClaimsOk(n)
  {
    forall id | id in s.active ensures (exists u :: Owns(s, u, id)) <==> (exists u :: Owns(n, u, id)) {
      assert forall u :: Owns(s, u, id) <==> Owns(n, u, id);
    }
    assert forall u :: u in s.threads ==> n.threads[u] == s.threads[u];
  }

  lemma NextKeepsInv(cfg: Config, s: State, ev: Event)
    requires Inv(cfg, s)
    ensures Inv(cfg, Next(cfg, s, ev))
  {
    var n := Next(cfg, s, ev);
    match ev
    case Advance(t, ch) =>
      if t in s.threads {
        StepMoves(cfg, s, t, ch);
        MoveKeepsClaims(s, n, t);
        MoveKeepsLock(s, n, t);
        StepKeepsStarts(cfg, s, t, ch);
      }
    case Restart(_) =>
    case Spawn(t, c) => if t !in s.threads { IdleThreadKeepsClaims(s, n, t); }
    case Retire(t) => if t in s.threads && s.threads[t].pc.Done? { IdleThreadKeepsClaims(n, s, t); }
  }

  lemma {:induction false} ReachableInv(cfg: Config, events: seq<Event>)
    ensures Inv(cfg, Run(cfg, events))
  {
    if events != [] {
      ReachableInv(cfg, events[..|events| - 1]);
      NextKeepsInv(cfg, Run(cfg, events[..|events| - 1]), events[|events| - 1]);
    }
  }

  /** In every interleaving at most one state-changing action is running. */
  lemma OneStateChangeAtATime(cfg: Config, events: seq<Event>, t: nat, u: nat)
    requires var s := Run(cfg, events);
      && t in s.threads && s.threads[t].pc.Running? && s.threads[t].cmd.action !in {GetStatus, GetIp}
      && u in s.threads && s.threads[u].pc.Running? && s.threads[u].cmd.action !in {GetStatus, GetIp}
      && !s.threads[t].cmd.action.Other? && !s.threads[u].cmd.action.Other?
    ensures t == u
  {
    ReachableInv(cfg, events);
  }

  predicate OnRecord(es: seq<Entry>, c: Command) {
    exists i :: 0 <= i < |es| && es[i].request == c.request && es[i].action == c.action
  }

  /**
   * The result of a call stands if it is recorded or the same request and action are on record already, and becomes
   * journal_failed otherwise.
   */
  lemma PersistedOnFields(cfg: Config, s: State, c: Command, r: Result, ran: bool, write: Write)
    requires Unique(s.journal)
    ensures var p, e := Persisted(cfg, s, c, r, ran, write), EntryOf(c, r);
      && (RecordOutcome(cfg, s.journal, e, write) == Recorded ==> p == r)
      && (Complete(e) && OnRecord(s.journal, c) ==> p == r)
      && (p != r ==> p.code == "journal_failed" && (ran ==> p.state == "failed"))
  {
    OutcomeOnFields(cfg, s.journal, EntryOf(c, r), write);
  }

  /** No request id is running twice, whatever its action. */
  lemma NoRequestRunsTwiceAtOnce(cfg: Config, events: seq<Event>, t: nat, u: nat)
    requires var s := Run(cfg, events);
      && t in s.threads && s.threads[t].pc.Running?
      && u in s.threads && s.threads[u].pc.Running?
      && s.threads[t].cmd.request == s.threads[u].cmd.request
    ensures t == u
  {
    ReachableInv(cfg, events);
    var s := Run(cfg, events);
    assert Owns(s, t, s.threads[t].cmd.request) && Owns(s, u, s.threads[t].cmd.request);
  }

  /** A state-changing action never starts while the journal retains what an earlier run of its id recorded. */
  lemma RecordedRunIsNotRepeated(cfg: Config, events: seq<Event>, t: nat, ch: Choice)
    requires var s := Run(cfg, events);
      && t in s.threads && StateChanging(s.threads[t].cmd.action)
      && Run(cfg, events + [Advance(t, ch)]).starts != s.starts
    ensures !RetainedRun(Run(cfg, events), Run(cfg, events).threads[t].cmd.request)
  {
    ReachableInv(cfg, events);
    assert (events + [Advance(t, ch)])[..|events|] == events;
  }

  /** Claims and the mutex are never leaked: when every thread has returned, both are free. */
  lemma NothingLeaks(cfg: Config, events: seq<Event>)
    requires forall t :: t in Run(cfg, events).threads ==> Run(cfg, events).threads[t].pc.Done?
    ensures Run(cfg, events).active == {} && Run(cfg, events).holder == None
  {
    ReachableInv(cfg, events);
    var s := Run(cfg, events);
    assert forall id :: id in s.active ==> exists t :: Owns(s, t, id);
  }
}
