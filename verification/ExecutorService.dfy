/**
 * Executor as an object: one call of Execute from start to end with nothing in between, proved
 * to be exactly what the thread of module Executors does when it runs alone.
 */
module ExecutorService {
  import opened Basics
  import opened Journals
  import opened Executors

  datatype Solo = Solo(result: Result, ran: bool, entries: seq<Entry>)

  function Kept(cfg: Config, es: seq<Entry>, c: Command, r: Result, ran: bool, write: Write): Solo {
    var e := EntryOf(c, r);
    Solo(if PersistOk(RecordOutcome(cfg, es, e, write)) then r else Unrecorded(r, ran), ran,
         RecordEntries(cfg, es, e, write))
  }

  /** What a call returns, whether the action ran, and the journal it leaves. */
  function Alone(cfg: Config, es: seq<Entry>, active: set<string>, c: Command, ch: Choice): Solo {
    if Holds(es, c.request) then
      var e := es[Find(es, c.request)];
      Solo(if e.action != c.action then Conflicting(ch.outcome.finishedAt) else ResultOf(e), false, es)
    else if Refusal(c, ch).Some? then Kept(cfg, es, c, Refusal(c, ch).value, false, ch.write)
    else if c.request in active then Solo(InProgress(ch.outcome.finishedAt), false, es)
    else Kept(cfg, es, c, ch.outcome, true, ch.write)
  }

  /**
   * A call in its cases: the id is on record, the command is refused, the id is claimed, or the action runs. A result
   * that cannot be recorded is reported as journal_failed.
   */
  lemma AloneOnFields(cfg: Config, es: seq<Entry>, active: set<string>, c: Command, ch: Choice)
    requires Unique(es)
    ensures var solo, id := Alone(cfg, es, active, c, ch), c.request;
      var refused := ch.refusal != None || c.action.Other?;
      && (forall i :: 0 <= i < |es| && es[i].request == id ==>
            && !solo.ran && solo.entries == es
            && (es[i].action == c.action ==>
                  solo.result == Result(es[i].state, es[i].code, es[i].message, es[i].result, es[i].finishedAt))
            && (es[i].action != c.action ==> solo.result.state == "failed" && solo.result.code == "request_conflict"))
      && ((forall i :: 0 <= i < |es| ==> es[i].request != id) ==>
            && (refused ==> !solo.ran && solo.result.state == "failed")
            && (!refused && id in active ==>
                  !solo.ran && solo.entries == es && solo.result.state == "running"
                  && solo.result.code == "request_in_progress")
            && (!refused && id !in active ==>
                  && solo.ran
                  && (if RecordOutcome(cfg, es, EntryOf(c, ch.outcome), ch.write) == Recorded
                      then solo.result == ch.outcome && solo.entries[|solo.entries| - 1..] ==
                           [Entry(id, c.action, ch.outcome.state, ch.outcome.code, ch.outcome.message,
                                  ch.outcome.payload, ch.outcome.finishedAt)]
                      else solo.result.state == "failed" && solo.result.code == "journal_failed"
                           && solo.entries == es)))
  {
    if Holds(es, c.request) {
      var k := Find(es, c.request);
      assert forall i :: 0 <= i < |es| && es[i].request == c.request ==> i == k;
    } else if RecordOutcome(cfg, es, EntryOf(c, ch.outcome), ch.write) == Recorded {
      var k := RecordedIsSuffixPlusEntry(cfg, es, EntryOf(c, ch.outcome), ch.write);
    }
  }

  /** `n` steps of thread `t` in a row. */
  function Steps(cfg: Config, s: State, t: nat, ch: Choice, n: nat): State
    requires t in s.threads
    decreases n
  {
    if n == 0 then s else Steps(cfg, Step(cfg, s, t, ch), t, ch, n - 1)
  }

  /** The state after the call has returned `solo` and given back claim and mutex. */
  predicate Returned(s: State, n: State, t: nat, solo: Solo, active: set<string>)
    requires t in s.threads
  {
    && t in n.threads && n.threads[t].pc == Done(solo.result) && n.journal == solo.entries
    && n.active == active && n.holder.None?
    && n.starts == (if solo.ran then s.starts + [Start(t, s.threads[t].cmd.request)] else s.starts)
  }

  lemma {:induction false} DoneStays(cfg: Config, s: State, t: nat, ch: Choice, n: nat)
    requires t in s.threads && s.threads[t].pc.Done?
    ensures Steps(cfg, s, t, ch, n) == s
  {
    if n > 0 { DoneStays(cfg, s, t, ch, n - 1); }
  }

  lemma FromReleasing(cfg: Config, s: State, t: nat, ch: Choice, n: nat)
    requires t in s.threads && s.threads[t].pc.Releasing? && 1 <= n && s.holder.None?
    ensures Returned(s, Steps(cfg, s, t, ch, n), t, Solo(s.threads[t].pc.released, false, s.journal),
                     s.active - {s.threads[t].cmd.request})
  {
    DoneStays(cfg, Step(cfg, s, t, ch), t, ch, n - 1);
  }

  lemma FromUnlocking(cfg: Config, s: State, t: nat, ch: Choice, n: nat)
    requires t in s.threads && s.threads[t].pc.Unlocking? && 2 <= n
    ensures Returned(s, Steps(cfg, s, t, ch, n), t, Solo(s.threads[t].pc.unlocked, false, s.journal),
                     s.active - {s.threads[t].cmd.request})
  {
    FromReleasing(cfg, Step(cfg, s, t, ch), t, ch, n - 1);
  }

  lemma AfterRecording(cfg: Config, s: State, t: nat, ch: Choice)
    requires t in s.threads && s.threads[t].pc == Recording(ch.outcome)
    ensures var n, c := Step(cfg, s, t, ch), s.threads[t].cmd;
      var kept := Kept(cfg, s.journal, c, ch.outcome, true, ch.write);
      && t in n.threads
      && n.threads[t] == Thread(c, if StateChanging(c.action) then Unlocking(kept.result) else Releasing(kept.result))
      && n.journal == kept.entries && n.active == s.active && n.holder == s.holder && n.starts == s.starts
  {
  }

  lemma FromRecording(cfg: Config, s: State, t: nat, ch: Choice, n: nat)
    requires t in s.threads && s.threads[t].pc == Recording(ch.outcome) && 3 <= n
    requires !StateChanging(s.threads[t].cmd.action) ==> s.holder.None?
    ensures Returned(s, Steps(cfg, s, t, ch, n), t,
                     Kept(cfg, s.journal, s.threads[t].cmd, ch.outcome, true, ch.write).(ran := false),
                     s.active - {s.threads[t].cmd.request})
  {
    var s1 := Step(cfg, s, t, ch);
    AfterRecording(cfg, s, t, ch);
    if StateChanging(s.threads[t].cmd.action) {
      FromUnlocking(cfg, s1, t, ch, n - 1);
    } else {
      FromReleasing(cfg, s1, t, ch, n - 1);
    }
  }

  lemma FromStarting(cfg: Config, s: State, t: nat, ch: Choice, n: nat)
    requires t in s.threads && s.threads[t].pc == Starting && 5 <= n
    requires !StateChanging(s.threads[t].cmd.action) ==> s.holder.None?
    ensures Returned(s, Steps(cfg, s, t, ch, n), t, Kept(cfg, s.journal, s.threads[t].cmd, ch.outcome, true, ch.write),
                     s.active - {s.threads[t].cmd.request})
  {
    var s2 := Step(cfg, Step(cfg, s, t, ch), t, ch);
    assert Steps(cfg, s, t, ch, n) == Steps(cfg, s2, t, ch, n - 2);
    FromRecording(cfg, s2, t, ch, n - 2);
  }

  lemma FromClaiming(cfg: Config, s: State, t: nat, ch: Choice, n: nat)
    requires t in s.threads && s.threads[t].pc == Claiming && 8 <= n && s.holder.None?
    requires !Holds(s.journal, s.threads[t].cmd.request) && s.threads[t].cmd.request !in s.active
    ensures Returned(s, Steps(cfg, s, t, ch, n), t,
                     Kept(cfg, s.journal, s.threads[t].cmd, ch.outcome, true, ch.write), s.active)
  {
    var s1 := Step(cfg, s, t, ch);
    assert s1.active - {s.threads[t].cmd.request} == s.active;
    if StateChanging(s.threads[t].cmd.action) {
      var s3 := Step(cfg, Step(cfg, s1, t, ch), t, ch);
      assert Steps(cfg, s, t, ch, n) == Steps(cfg, s1, t, ch, n - 1) == Steps(cfg, s3, t, ch, n - 3);
      FromStarting(cfg, s3, t, ch, n - 3);
    } else {
      FromStarting(cfg, s1, t, ch, n - 1);
    }
  }

  lemma FromRefusing(cfg: Config, s: State, t: nat, ch: Choice, n: nat)
    requires t in s.threads && s.threads[t].pc.Refusing? && 1 <= n && s.holder.None?
    ensures Returned(s, Steps(cfg, s, t, ch, n), t,
                     Kept(cfg, s.journal, s.threads[t].cmd, s.threads[t].pc.refused, false, ch.write), s.active)
  {
    DoneStays(cfg, Step(cfg, s, t, ch), t, ch, n - 1);
  }

  lemma FromBusy(cfg: Config, s: State, t: nat, ch: Choice, n: nat)
    requires t in s.threads && s.threads[t].pc == Claiming && 1 <= n && s.holder.None?
    requires s.threads[t].cmd.request in s.active
    ensures Returned(s, Steps(cfg, s, t, ch, n), t, Solo(InProgress(ch.outcome.finishedAt), false, s.journal), s.active)
  {
    DoneStays(cfg, Step(cfg, s, t, ch), t, ch, n - 1);
  }

  lemma FromValidating(cfg: Config, s: State, t: nat, ch: Choice, n: nat)
    requires t in s.threads && s.threads[t].pc.Validating? && 9 <= n && s.holder.None?
    requires !Holds(s.journal, s.threads[t].cmd.request)
    ensures Returned(s, Steps(cfg, s, t, ch, n), t, Alone(cfg, s.journal, s.active, s.threads[t].cmd, ch), s.active)
  {
    var c := s.threads[t].cmd;
    var s1 := Step(cfg, s, t, ch);
    if Refusal(c, ch).Some? {
      FromRefusing(cfg, s1, t, ch, n - 1);
    } else if c.request in s.active {
      FromBusy(cfg, s1, t, ch, n - 1);
    } else {
      FromClaiming(cfg, s1, t, ch, n - 1);
    }
  }

  /** A thread that runs alone from its first lookup has returned after at most ten steps, as Alone says. */
  lemma AloneIsTenSteps(cfg: Config, s: State, t: nat, ch: Choice)
    requires t in s.threads && s.threads[t].pc.Looking? && s.holder.None?
    ensures Returned(s, Steps(cfg, s, t, ch, 10), t, Alone(cfg, s.journal, s.active, s.threads[t].cmd, ch), s.active)
  {
    var s1 := Step(cfg, s, t, ch);
    assert Steps(cfg, s, t, ch, 10) == Steps(cfg, s1, t, ch, 9);
    if Holds(s.journal, s.threads[t].cmd.request) {
      DoneStays(cfg, s1, t, ch, 9);
    } else {
      FromValidating(cfg, s1, t, ch, 9);
    }
  }

  class Executor {
    const journal: Journal
    var active: set<string>
    var locked: bool

    ghost predicate Valid()
      reads this, journal
    {
      journal.Valid()
    }

    constructor (journal: Journal)
      requires journal.Valid()
      ensures Valid() && this.journal == journal && active == {} && !locked
    {
      this.journal := journal;
      active, locked := {}, false;
    }

    method Claim(id: string) returns (claimed: bool)
      modifies this`active
      ensures claimed <==> id !in old(active)
      ensures active == old(active) + {id}
    {
      if id in active {
        return false;
      }
      active := active + {id};
      claimed := true;
    }

    method Release(id: string)
      modifies this`active
      ensures active == old(active) - {id}
    {
      active := active - {id};
    }

    method PersistResult(c: Command, r: Result, write: Write) returns (ok: bool)
      requires Valid()
      modifies journal`entries, journal`index, journal`file
      ensures Valid()
      ensures ok == PersistOk(RecordOutcome(journal.cfg, old(journal.entries), EntryOf(c, r), write))
      ensures journal.entries == RecordEntries(journal.cfg, old(journal.entries), EntryOf(c, r), write)
    {
      var outcome := journal.Record(EntryOf(c, r), write);
      ok := outcome.Recorded? || outcome.Already?;
    }

    /** persistResult and what becomes of the result if that fails. */
    method Keep(c: Command, r: Result, ran: bool, write: Write) returns (result: Result)
      requires Valid()
      modifies journal`entries, journal`index, journal`file
      ensures Valid()
      ensures Solo(result, ran, journal.entries) == Kept(journal.cfg, old(journal.entries), c, r, ran, write)
    {
      var ok := PersistResult(c, r, write);
      result := if ok then r else Unrecorded(r, ran);
    }

    method Execute(c: Command, ch: Choice) returns (result: Result, ran: bool)
      requires Valid() && !locked
      modifies this`active, this`locked, journal`entries, journal`index, journal`file
      ensures Valid() && !locked && active == old(active)
      ensures Solo(result, ran, journal.entries) == Alone(journal.cfg, old(journal.entries), old(active), c, ch)
    {
      ran := false;
      var previous := journal.Lookup(c.request);
      if previous.Some? {
        if previous.value.action != c.action {
          return Conflicting(ch.outcome.finishedAt), false;
        }
        return ResultOf(previous.value), false;
      }
      var refusal := Refusal(c, ch);
      if refusal.Some? {
        result := Keep(c, refusal.value, false, ch.write);
        return;
      }
      var claimed := Claim(c.request);
      if !claimed {
        return InProgress(ch.outcome.finishedAt), false;
      }
      if StateChanging(c.action) {
        locked := true;
        previous := journal.Lookup(c.request);
        assert previous.None?;
      }
      ran := true;
      result := Keep(c, ch.outcome, true, ch.write);
      locked := false;
      Release(c.request);
      assert active == old(active);
    }
  }
}
