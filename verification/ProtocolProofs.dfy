/** At most once, end to end: what every run of server, link and agent keeps. */
module ProtocolProofs {
  import opened Basics
  import R = Requests
  import Life = RequestLife
  import J = Journals
  import opened Executors
  import E = ExecutorProofs
  import opened Protocol

  /** The command was dispatched for a request of this node, and asks for the same action. */
  predicate CmdOk(me: string, s: R.Store, c: Command) {
    && c.request in s.requests && s.requests[c.request].node == me
    && s.requests[c.request].action == c.action && s.requests[c.request].attempts == 1
  }

  predicate Known(me: string, s: R.Store, id: string) {
    id in s.requests && s.requests[id].node == me && s.requests[id].attempts == 1
  }

  /** Commands on their way: dispatched, one carrier each, not executed yet. */
  ghost predicate WayOk(me: string, s: System) {
    && (forall f :: f in s.carried ==> CmdOk(me, s.store, s.carried[f].cmd) && s.carried[f].cmd.request !in s.executed)
    && (forall f, g | f in s.carried && g in s.carried ::
          s.carried[f].cmd.request == s.carried[g].cmd.request ==> f == g)
    && (forall f :: f in s.carried && s.carried[f].place.Sending? ==> s.carried[f].cmd.request !in s.sent)
    && NoRepeats(s.sent) && NoRepeats(s.executed)
    && (forall id :: id in s.sent || id in s.executed ==> Known(me, s.store, id))
  }

  predicate Started(exec: State, id: string) {
    exists i :: 0 <= i < |exec.starts| && exec.starts[i].request == id
  }

  /** Before the action of a thread starts. */
  predicate BeforeRun(pc: Pc) {
    pc.Looking? || pc.Validating? || pc.Refusing? || pc.Claiming? || pc.Locking? || pc.LookingAgain? || pc.Starting?
  }

  predicate ThreadOk(me: string, s: System, t: nat)
    requires t in s.exec.threads
  {
    var th := s.exec.threads[t];
    && CmdOk(me, s.store, th.cmd)
    && th.cmd.request in s.executed
    && (if Decided(th.pc).Some?
        then th.cmd.request in s.returned && s.returned[th.cmd.request] == Decided(th.pc).value
        else th.cmd.request !in s.returned)
    && (BeforeRun(th.pc) ==> !Started(s.exec, th.cmd.request))
  }

  /** Calls of Execute: one thread per request, and nothing started twice. */
  ghost predicate CallsOk(me: string, s: System) {
    && (forall t :: t in s.exec.threads ==> ThreadOk(me, s, t))
    && (forall t, v | t in s.exec.threads && v in s.exec.threads ::
          s.exec.threads[t].cmd.request == s.exec.threads[v].cmd.request ==> t == v)
    && (forall i :: 0 <= i < |s.exec.starts| ==> s.exec.starts[i].request in s.executed)
    && (forall i, j :: 0 <= i < j < |s.exec.starts| ==> s.exec.starts[i].request != s.exec.starts[j].request)
    && (forall id :: id in s.returned ==> id in s.executed)
  }

  predicate Returned(s: System, id: string, r: Result) {
    id in s.returned && s.returned[id] == r
  }

  /**
   * A stored result row is what the request's one call of Execute returned, as finish_request stores it, and the
   * control plane accepts such a report.
   */
  predicate RowIsReturned(s: System, row: R.ResultRow) {
    && row.request in s.returned && Acceptable(Report(row.request, ReportOf(s.returned[row.request])))
    && var kept := R.Stored(ReportOf(s.returned[row.request]));
       && row.success == kept.success && row.errorCode == kept.code
       && row.errorMessage == kept.message && row.result == kept.text
  }

  predicate MessageOk(s: System, m: Message) {
    m.Report? ==> m.request in s.returned && m.report == ReportOf(s.returned[m.request])
  }

  predicate Reported(s: System, m: Message) {
    MessageOk(s, m) && Acceptable(m)
  }

  /** Wherever a result is kept, it is the returned one. */
  ghost predicate ReportsOk(me: string, s: System) {
    && (forall e :: e in s.exec.journal ==> Returned(s, e.request, ResultOf(e)))
    && (forall q :: q in s.queue ==> Returned(s, q.request, q.result))
    && (forall m :: m in s.up ==> MessageOk(s, m))
    && (forall row :: row in s.store.results && row.node == me ==> RowIsReturned(s, row))
  }

  ghost predicate Inv(u: Setup, s: System) {
    && Life.Inv(s.store) && Executors.Inv(u.journal, s.exec)
    && WayOk(u.node, s) && CallsOk(u.node, s) && ReportsOk(u.node, s)
  }

  // Steps of the table.

  lemma CmdOkLater(me: string, s: R.Store, t: R.Store, c: Command)
    requires Life.Inv(t) && Life.Later(s, t) && CmdOk(me, s, c)
    ensures CmdOk(me, t, c)
  {
    assert Life.Advances(s.requests[c.request], t.requests[c.request]) && Life.RowOk(t.requests[c.request]);
  }

  lemma KnownLater(me: string, s: R.Store, t: R.Store, id: string)
    requires Life.Inv(t) && Life.Later(s, t) && Known(me, s, id)
    ensures Known(me, t, id)
  {
    CmdOkLater(me, s, t, Command(id, s.requests[id].action));
  }

  /** A later table disturbs neither the commands on their way nor the calls. */
  lemma LaterTable(u: Setup, s: System, store: R.Store)
    requires Inv(u, s) && Life.Inv(store) && Life.Later(s.store, store)
    ensures WayOk(u.node, s.(store := store)) && CallsOk(u.node, s.(store := store))
  {
    var n := s.(store := store);
    forall f | f in s.carried ensures CmdOk(u.node, store, s.carried[f].cmd) {
      CmdOkLater(u.node, s.store, store, s.carried[f].cmd);
    }
    forall id | id in s.sent || id in s.executed ensures Known(u.node, store, id) {
      KnownLater(u.node, s.store, store, id);
    }
    forall t | t in s.exec.threads ensures ThreadOk(u.node, n, t) {
      assert ThreadOk(u.node, s, t);
      CmdOkLater(u.node, s.store, store, s.exec.threads[t].cmd);
    }
  }

  /** Result rows of this node come only from its own Report messages. */
  lemma ResultRowsOf(me: string, s: R.Store, op: R.Op)
    ensures R.Apply(s, op).results == s.results ||
      (op.FinishOp? && R.Apply(s, op).results == s.results +
         [R.ResultRow(op.id, op.node, R.Stored(op.report).success, R.Stored(op.report).code,
                      R.Stored(op.report).message,
                      R.Stored(op.report).text, op.now)])
  {
  }

  lemma TableStep(u: Setup, s: System, op: R.Op)
    requires Inv(u, s)
    requires op.FinishOp? && op.node == u.node ==> Reported(s, Report(op.id, op.report))
    ensures Inv(u, s.(store := R.Apply(s.store, op)))
  {
    Life.StepKeepsInv(s.store, op);
    LaterTable(u, s, R.Apply(s.store, op));
    RowsStayReturned(u, s, op);
  }

  lemma RowsStayReturned(u: Setup, s: System, op: R.Op)
    requires ReportsOk(u.node, s)
    requires op.FinishOp? && op.node == u.node ==> Reported(s, Report(op.id, op.report))
    ensures ReportsOk(u.node, s.(store := R.Apply(s.store, op)))
  {
    var n := s.(store := R.Apply(s.store, op));
    ResultRowsOf(u.node, s.store, op);
    forall row | row in n.store.results && row.node == u.node ensures RowIsReturned(n, row) {
      if row in s.store.results {
        assert RowIsReturned(s, row);
      }
    }
    forall m | m in n.up ensures MessageOk(n, m) {
      assert MessageOk(s, m);
    }
  }

  /** A queued request has no command anywhere yet, so the new carrier is the only one. */
  lemma NewCarrierOk(me: string, s: System, f: nat, c: Command, link: nat)
    requires WayOk(me, s) && f !in s.carried && CmdOk(me, s.store, c)
    requires c.request !in s.executed && c.request !in s.sent
    requires forall g :: g in s.carried ==> s.carried[g].cmd.request != c.request
    ensures WayOk(me, s.(carried := s.carried[f := Carried(c, Sending(link))]))
  {
  }

  lemma DispatchStep(u: Setup, s: System, id: string, now: int, f: nat)
    requires Inv(u, s)
    requires R.Sends(s.store, id, true, now) && s.store.requests[id].node == u.node && s.registered.Some?
    requires f !in s.carried
    ensures Inv(u, Dispatched(s, id, now, f))
  {
    var op := R.DispatchOp(id, true, now);
    var mid := s.(store := R.Apply(s.store, op));
    assert Life.RowOk(s.store.requests[id]);
    assert !Known(u.node, s.store, id);
    forall g | g in s.carried ensures s.carried[g].cmd.request != id {
      assert CmdOk(u.node, s.store, s.carried[g].cmd);
    }
    TableStep(u, s, op);
    var c := Command(id, s.store.requests[id].action);
    NewCarrierOk(u.node, mid, f, c, s.registered.value);
    SameCalls(u, mid, mid.(carried := mid.carried[f := Carried(c, Sending(s.registered.value))]));
  }

  // Steps of the link and of handleCommand.

  /** A frame that reaches the link leaves the coroutine's hands and is noted as sent. */
  lemma SentFrameOk(me: string, s: System, f: nat, link: nat)
    requires WayOk(me, s) && f in s.carried && s.carried[f].place.Sending?
    ensures WayOk(me, s.(carried := s.carried[f := s.carried[f].(place := OnWire(link))],
                         sent := s.sent + [s.carried[f].cmd.request]))
  {
    NoRepeatsAppend(s.sent, s.carried[f].cmd.request);
  }

  lemma WriteQuietly(u: Setup, s: System, f: nat, delivered: bool)
    requires Inv(u, s) && f in s.carried && s.carried[f].place.Sending?
    ensures Inv(u, Wrote(s, f, delivered))
  {
    var link := s.carried[f].place.link;
    if delivered && link in s.links {
      SentFrameOk(u.node, s, f, link);
      SameCalls(u, s, s.(carried := s.carried[f := s.carried[f].(place := OnWire(link))],
                         sent := s.sent + [s.carried[f].cmd.request]));
    } else {
      FewerCarried(u, s, Without(s.carried, f));
    }
  }

  lemma DropStep(u: Setup, s: System, id: string, now: int)
    requires Inv(u, s)
    ensures Inv(u, s.(store := R.MarkDropped(s.store, id, now)))
  {
    var op := R.MarkUnknownOp(id, "agent_disconnect", "Agent connection dropped while dispatching", now);
    assert R.Apply(s.store, op) == R.MarkDropped(s.store, id, now);
    TableStep(u, s, op);
  }

  lemma WriteStep(u: Setup, s: System, f: nat, delivered: bool, now: int)
    requires Inv(u, s) && f in s.carried && s.carried[f].place.Sending?
    ensures Inv(u, Wrote(s, f, delivered))
    ensures Inv(u, Wrote(s, f, delivered).(store := R.MarkDropped(s.store, s.carried[f].cmd.request, now)))
  {
    WriteQuietly(u, s, f, delivered);
    DropStep(u, Wrote(s, f, delivered), s.carried[f].cmd.request, now);
  }

  /** Calls and reports do not depend on what is on its way. */
  lemma SameCalls(u: Setup, s: System, n: System)
    requires Inv(u, s)
    requires n.store == s.store && n.exec == s.exec && n.executed == s.executed && n.returned == s.returned
    requires n.queue == s.queue && n.up == s.up
    ensures CallsOk(u.node, n) && ReportsOk(u.node, n)
  {
    forall t | t in n.exec.threads ensures ThreadOk(u.node, n, t) {
      assert ThreadOk(u.node, s, t);
    }
    forall row | row in n.store.results && row.node == u.node ensures RowIsReturned(n, row) {
      assert RowIsReturned(s, row);
    }
    forall m | m in n.up ensures MessageOk(n, m) {
      assert MessageOk(s, m);
    }
  }

  lemma FewerCarried(u: Setup, s: System, carried: map<nat, Carried>)
    requires Inv(u, s)
    requires forall f :: f in carried ==> f in s.carried && carried[f].cmd == s.carried[f].cmd
    requires forall f :: f in carried && carried[f].place.Sending? ==> s.carried[f].place.Sending?
    ensures Inv(u, s.(carried := carried))
  {
    SameCalls(u, s, s.(carried := carried));
  }

  /** Messages and queued results may come and go as long as they report what was returned. */
  lemma OtherReports(u: Setup, s: System, queue: seq<Finished>, up: set<Message>)
    requires Inv(u, s)
    requires forall q :: q in queue ==> Returned(s, q.request, q.result)
    requires forall m :: m in up ==> m in s.up || MessageOk(s, m)
    ensures Inv(u, s.(queue := queue, up := up))
  {
    var n := s.(queue := queue, up := up);
    forall t | t in n.exec.threads ensures ThreadOk(u.node, n, t) {
      assert ThreadOk(u.node, s, t);
    }
    forall m | m in up ensures MessageOk(n, m) {
      assert MessageOk(s, m);
    }
    forall row | row in n.store.results && row.node == u.node ensures RowIsReturned(n, row) {
      assert RowIsReturned(s, row);
    }
  }

  function Spawned(u: Setup, s: System, f: nat, t: nat): System
    requires f in s.carried
  {
    var c := s.carried[f].cmd;
    s.(carried := Without(s.carried, f), executed := s.executed + [c.request],
       exec := Executors.Next(u.journal, s.exec, Spawn(t, c)))
  }

  lemma SpawnKeepsWay(u: Setup, s: System, f: nat, t: nat)
    requires WayOk(u.node, s) && f in s.carried && !s.carried[f].place.Sending?
    ensures WayOk(u.node, Spawned(u, s, f, t))
  {
    assert CmdOk(u.node, s.store, s.carried[f].cmd);
    NoRepeatsAppend(s.executed, s.carried[f].cmd.request);
  }

  lemma SpawnKeepsCalls(u: Setup, s: System, f: nat, t: nat)
    requires WayOk(u.node, s) && CallsOk(u.node, s) && f in s.carried && t !in s.exec.threads
    ensures CallsOk(u.node, Spawned(u, s, f, t))
  {
    var c, n := s.carried[f].cmd, Spawned(u, s, f, t);
    forall v | v in n.exec.threads
      ensures ThreadOk(u.node, n, v) && (v != t ==> n.exec.threads[v].cmd.request != c.request)
    {
      if v != t {
        assert ThreadOk(u.node, s, v);
      } else {
        assert !Started(s.exec, c.request) && c.request !in s.returned;
      }
    }
  }

  /** The call of Execute: the command leaves its way and becomes a thread. */
  lemma SpawnStep(u: Setup, s: System, f: nat, t: nat)
    requires Inv(u, s) && f in s.carried && !s.carried[f].place.Sending? && t !in s.exec.threads
    ensures Inv(u, Spawned(u, s, f, t))
  {
    E.NextKeepsInv(u.journal, s.exec, Spawn(t, s.carried[f].cmd));
    SpawnKeepsWay(u, s, f, t);
    SpawnKeepsCalls(u, s, f, t);
    SameReports(u, s, Spawned(u, s, f, t));
  }

  lemma SameReports(u: Setup, s: System, n: System)
    requires Inv(u, s)
    requires n.store == s.store && n.returned == s.returned && n.queue == s.queue && n.up == s.up
    requires n.exec.journal == s.exec.journal
    ensures ReportsOk(u.node, n)
  {
    forall row | row in n.store.results && row.node == u.node ensures RowIsReturned(n, row) {
      assert RowIsReturned(s, row);
    }
    forall m | m in n.up ensures MessageOk(n, m) {
      assert MessageOk(s, m);
    }
  }

  lemma AckStep(u: Setup, s: System, f: nat, delivered: bool, raised: bool, t: nat)
    requires Inv(u, s)
    ensures Inv(u, Protocol.Next(u, s, SendAck(f, delivered, raised, t)))
  {
    if f in s.carried && s.carried[f].place.Acking? && t !in s.exec.threads {
      var c := s.carried[f];
      var up := if delivered then s.up + {Ack(c.cmd.request, true, None, None)} else s.up;
      OtherReports(u, s, s.queue, up);
      var acked := s.(queue := s.queue, up := up);
      if raised {
        FewerCarried(u, acked, Without(s.carried, f));
      } else {
        SpawnStep(u, acked, f, t);
      }
    }
  }

  // Steps of Execute.

  lemma JournaledIsReturned(me: string, s: System, id: string)
    requires ReportsOk(me, s)
    ensures J.Holds(s.exec.journal, id) ==> id in s.returned
  {
    if J.Holds(s.exec.journal, id) {
      var e := s.exec.journal[J.Find(s.exec.journal, id)];
      assert e in s.exec.journal && Returned(s, e.request, ResultOf(e));
    }
  }

  /** The journal never knows a request whose call has not decided, so both lookups miss. */
  lemma LookupsMiss(u: Setup, s: System, t: nat)
    requires Inv(u, s) && t in s.exec.threads && Decided(s.exec.threads[t].pc).None?
    ensures !J.Holds(s.exec.journal, s.exec.threads[t].cmd.request)
  {
    assert ThreadOk(u.node, s, t);
    JournaledIsReturned(u.node, s, s.exec.threads[t].cmd.request);
  }

  /** A call about to claim its request finds it free: the request_in_progress reply is unreachable. */
  lemma ClaimSucceeds(u: Setup, s: System, t: nat)
    requires Inv(u, s) && t in s.exec.threads && s.exec.threads[t].pc.Claiming?
    ensures s.exec.threads[t].cmd.request !in s.exec.active
  {
    UnclaimedIsFree(s.exec, t);
  }

  lemma UnclaimedIsFree(x: State, t: nat)
    requires ClaimsOk(x) && t in x.threads && !Claimed(x.threads[t].pc)
    requires forall v :: v in x.threads && x.threads[v].cmd.request == x.threads[t].cmd.request ==> v == t
    ensures x.threads[t].cmd.request !in x.active
  {
    var id := x.threads[t].cmd.request;
    assert forall v :: !Owns(x, v, id);
  }

  /** What one step of one thread does to the calls, given that lookups miss and claims succeed. */
  predicate ThreadMove(x: State, n: State, t: nat)
    requires t in x.threads
  {
    && t in n.threads && n.threads == x.threads[t := n.threads[t]] && n.threads[t].cmd == x.threads[t].cmd
    && var before, after := x.threads[t], n.threads[t];
    && (Decided(before.pc).Some? ==> Decided(after.pc) == Decided(before.pc))
    && (if before.pc.Starting? then n.starts == x.starts + [Start(t, before.cmd.request)] && !BeforeRun(after.pc)
        else n.starts == x.starts && (BeforeRun(after.pc) ==> BeforeRun(before.pc)))
  }

  lemma StepIsThreadMove(cfg: J.Config, x: State, t: nat, ch: Choice)
    requires t in x.threads
    requires Decided(x.threads[t].pc).None? ==> !J.Holds(x.journal, x.threads[t].cmd.request)
    requires x.threads[t].pc.Claiming? ==> x.threads[t].cmd.request !in x.active
    ensures ThreadMove(x, Step(cfg, x, t, ch), t)
  {
  }

  /** A step either leaves the journal alone or records the result the call goes on to return. */
  lemma JournalGetsDecided(cfg: J.Config, x: State, t: nat, ch: Choice, e: J.Entry)
    requires t in x.threads && e in Step(cfg, x, t, ch).journal && e !in x.journal
    ensures Decided(Step(cfg, x, t, ch).threads[t].pc) == Some(ResultOf(e)) && e.request == x.threads[t].cmd.request
  {
    var pc, c := x.threads[t].pc, x.threads[t].cmd;
    var r := if pc.Refusing? then pc.refused else pc.finished;
    var k := J.RecordedIsSuffixPlusEntry(cfg, x.journal, EntryOf(c, r), ch.write);
    assert e == EntryOf(c, r);
  }

  function Moved(s: System, exec: State, t: nat): System {
    s.(exec := exec, returned := NoteResult(s.returned, exec, t))
  }

  /** Results once noted stay as they are. */
  lemma MoveKeepsReturned(me: string, s: System, exec: State, t: nat)
    requires CallsOk(me, s) && t in s.exec.threads && ThreadMove(s.exec, exec, t)
    ensures forall id :: id in s.returned ==>
      id in Moved(s, exec, t).returned && Moved(s, exec, t).returned[id] == s.returned[id]
  {
    assert ThreadOk(me, s, t);
  }

  lemma MoveKeepsCalls(me: string, s: System, exec: State, t: nat)
    requires CallsOk(me, s) && t in s.exec.threads && ThreadMove(s.exec, exec, t)
    ensures CallsOk(me, Moved(s, exec, t))
  {
    var n := Moved(s, exec, t);
    var id := s.exec.threads[t].cmd.request;
    assert ThreadOk(me, s, t);
    forall v | v in n.exec.threads ensures ThreadOk(me, n, v) {
      if v != t {
        assert ThreadOk(me, s, v) && s.exec.threads[v].cmd.request != id;
      }
    }
    forall i, j | 0 <= i < j < |n.exec.starts| ensures n.exec.starts[i].request != n.exec.starts[j].request {
      if j == |s.exec.starts| {
        assert !Started(s.exec, id);
      }
    }
  }

  lemma MoveKeepsReports(me: string, s: System, exec: State, t: nat)
    requires ReportsOk(me, s)
    requires forall id :: id in s.returned ==>
      id in Moved(s, exec, t).returned && Moved(s, exec, t).returned[id] == s.returned[id]
    requires forall e :: e in exec.journal && e !in s.exec.journal ==>
      Returned(Moved(s, exec, t), e.request, ResultOf(e))
    ensures ReportsOk(me, Moved(s, exec, t))
  {
    var n := Moved(s, exec, t);
    forall e | e in s.exec.journal ensures Returned(n, e.request, ResultOf(e)) {
      assert Returned(s, e.request, ResultOf(e));
    }
    forall q | q in n.queue ensures Returned(n, q.request, q.result) {
      assert Returned(s, q.request, q.result);
    }
    forall row | row in n.store.results && row.node == me ensures RowIsReturned(n, row) {
      assert RowIsReturned(s, row);
    }
    forall m | m in n.up ensures MessageOk(n, m) {
      assert MessageOk(s, m);
    }
  }

  lemma ExecuteStep(u: Setup, s: System, t: nat, ch: Choice)
    requires Inv(u, s) && t in s.exec.threads
    ensures Inv(u, Moved(s, Step(u.journal, s.exec, t, ch), t))
  {
    var exec := Step(u.journal, s.exec, t, ch);
    E.NextKeepsInv(u.journal, s.exec, Advance(t, ch));
    if Decided(s.exec.threads[t].pc).None? {
      LookupsMiss(u, s, t);
    }
    if s.exec.threads[t].pc.Claiming? {
      ClaimSucceeds(u, s, t);
    }
    StepIsThreadMove(u.journal, s.exec, t, ch);
    MoveKeepsReturned(u.node, s, exec, t);
    MoveKeepsCalls(u.node, s, exec, t);
    forall e | e in exec.journal && e !in s.exec.journal ensures Returned(Moved(s, exec, t), e.request, ResultOf(e)) {
      JournalGetsDecided(u.journal, s.exec, t, ch, e);
    }
    MoveKeepsReports(u.node, s, exec, t);
  }

  lemma RetireStep(u: Setup, s: System, t: nat)
    requires Inv(u, s) && t in s.exec.threads && s.exec.threads[t].pc.Done?
    ensures Inv(u, s.(exec := Executors.Next(u.journal, s.exec, Retire(t))))
  {
    var n := s.(exec := Executors.Next(u.journal, s.exec, Retire(t)));
    E.NextKeepsInv(u.journal, s.exec, Retire(t));
    FewerThreads(u.node, s, n.exec);
    SameReports(u, s, n);
  }

  lemma FewerThreads(me: string, s: System, exec: State)
    requires CallsOk(me, s) && exec.starts == s.exec.starts
    requires forall v :: v in exec.threads ==> v in s.exec.threads && exec.threads[v] == s.exec.threads[v]
    ensures CallsOk(me, s.(exec := exec))
  {
    var n := s.(exec := exec);
    forall v | v in exec.threads ensures ThreadOk(me, n, v) {
      assert ThreadOk(me, s, v);
    }
  }

  lemma CollectStep(u: Setup, s: System, t: nat, enqueue: bool)
    requires Inv(u, s) && t in s.exec.threads && s.exec.threads[t].pc.Done?
    ensures Inv(u, Collected(u, s, t, enqueue))
  {
    var queue := Collected(u, s, t, enqueue).queue;
    CollectIsRetire(u, s, t, enqueue);
    assert ThreadOk(u.node, s, t);
    OtherReports(u, s, queue, s.up);
    RetireStep(u, s.(queue := queue, up := s.up), t);
  }

  lemma CollectIsRetire(u: Setup, s: System, t: nat, enqueue: bool)
    requires t in s.exec.threads && s.exec.threads[t].pc.Done?
    ensures var n := Collected(u, s, t, enqueue);
      && n == s.(queue := n.queue, up := s.up).(exec := Executors.Next(u.journal, s.exec, Retire(t)))
      && forall q :: q in n.queue ==> q in s.queue || q == Finished(s.exec.threads[t].cmd.request,
                                                                    s.exec.threads[t].pc.result)
  {
  }

  lemma CrashStep(u: Setup, s: System, fileLost: bool)
    requires Inv(u, s)
    ensures Inv(u, Protocol.Next(u, s, Crash(fileLost)))
  {
    var n := Protocol.Next(u, s, Crash(fileLost));
    E.NextKeepsInv(u.journal, s.exec, Restart(fileLost));
    CrashKeepsCalls(u.node, s, n);
    CrashKeepsReports(u.node, s, n);
  }

  lemma CrashKeepsCalls(me: string, s: System, n: System)
    requires CallsOk(me, s) && n.exec.threads == map[] && n.exec.starts == s.exec.starts
    requires n.executed == s.executed && n.returned == s.returned
    ensures CallsOk(me, n)
  {
  }

  lemma CrashKeepsReports(me: string, s: System, n: System)
    requires ReportsOk(me, s) && n.store == s.store && n.returned == s.returned && n.queue == [] && n.up == s.up
    requires forall e :: e in n.exec.journal ==> e in s.exec.journal
    ensures ReportsOk(me, n)
  {
    forall e | e in n.exec.journal ensures Returned(n, e.request, ResultOf(e)) {
      assert Returned(s, e.request, ResultOf(e));
    }
    forall row | row in n.store.results && row.node == me ensures RowIsReturned(n, row) {
      assert RowIsReturned(s, row);
    }
    forall m | m in n.up ensures MessageOk(n, m) {
      assert MessageOk(s, m);
    }
  }

  lemma JournalReportsOk(u: Setup, s: System, m: Message)
    requires Inv(u, s) && m in JournalReports(s.exec.journal)
    ensures MessageOk(s, m)
  {
    var i :| 0 <= i < |s.exec.journal| && m == Report(s.exec.journal[i].request, ReportOf(ResultOf(s.exec.journal[i])));
    assert s.exec.journal[i] in s.exec.journal;
    assert Returned(s, m.request, ResultOf(s.exec.journal[i]));
  }

  lemma DeliverStep(u: Setup, s: System, m: Message, now: int)
    requires Inv(u, s) && m in s.up && Acceptable(m)
    ensures Inv(u, s.(store := R.Apply(s.store, OpOf(u.node, m, now))))
  {
    assert MessageOk(s, m);
    TableStep(u, s, OpOf(u.node, m, now));
  }

  /** Which links are open or registered matters to no invariant. */
  lemma OtherLinks(u: Setup, s: System, registered: Option<nat>, links: set<nat>)
    requires Inv(u, s)
    ensures Inv(u, s.(registered := registered, links := links))
  {
    SameCalls(u, s, s.(registered := registered, links := links));
  }

  lemma DialStep(u: Setup, s: System, link: nat)
    requires Inv(u, s)
    ensures Inv(u, s.(links := s.links + {link}, up := s.up + JournalReports(s.exec.journal)))
  {
    var up := s.up + JournalReports(s.exec.journal);
    forall m | m in up ensures m in s.up || MessageOk(s, m) {
      if m in JournalReports(s.exec.journal) { JournalReportsOk(u, s, m); }
    }
    OtherReports(u, s, s.queue, up);
    OtherLinks(u, s.(queue := s.queue, up := up), s.registered, s.links + {link});
  }

  lemma ReplayStep(u: Setup, s: System, i: nat)
    requires Inv(u, s) && i < |s.exec.journal|
    ensures Inv(u, s.(up := s.up + {Report(s.exec.journal[i].request, ReportOf(ResultOf(s.exec.journal[i])))}))
  {
    var m := Report(s.exec.journal[i].request, ReportOf(ResultOf(s.exec.journal[i])));
    JournalReportsOk(u, s, m);
    OtherReports(u, s, s.queue, s.up + {m});
  }

  lemma UnregisterStep(u: Setup, s: System, now: int)
    requires Inv(u, s)
    ensures Inv(u, s.(store := R.Apply(s.store, R.MarkUnknownForNodeOp(u.node, now)), registered := None,
                      links := s.links))
  {
    var op := R.MarkUnknownForNodeOp(u.node, now);
    TableStep(u, s, op);
    OtherLinks(u, s.(store := R.Apply(s.store, op)), None, s.links);
  }

  lemma CarriedStep(u: Setup, s: System, registered: Option<nat>, links: set<nat>, carried: map<nat, Carried>)
    requires Inv(u, s)
    requires forall f :: f in carried ==> f in s.carried && carried[f].cmd == s.carried[f].cmd
    requires forall f :: f in carried && carried[f].place.Sending? ==> s.carried[f].place.Sending?
    ensures Inv(u, s.(registered := registered, links := links, carried := carried))
  {
    FewerCarried(u, s, carried);
    OtherLinks(u, s.(carried := carried), registered, links);
  }

  lemma RejectStep(u: Setup, s: System, f: nat, code: string, text: string)
    requires Inv(u, s) && f in s.carried
    ensures Inv(u, s.(carried := Without(s.carried, f),
                      up := s.up + {Ack(s.carried[f].cmd.request, false, Some(code), Some(text))}))
  {
    var up := s.up + {Ack(s.carried[f].cmd.request, false, Some(code), Some(text))};
    OtherReports(u, s, s.queue, up);
    FewerCarried(u, s.(queue := s.queue, up := up), Without(s.carried, f));
  }

  lemma CheckStep(u: Setup, s: System, f: nat, valid: bool, code: string, text: string)
    requires Inv(u, s) && f in s.carried
    ensures Inv(u, Checked(s, f, valid, code, text))
  {
    if valid {
      FewerCarried(u, s, s.carried[f := s.carried[f].(place := Acking(s.carried[f].place.link))]);
    } else {
      RejectStep(u, s, f, code, text);
    }
  }

  // One event each.

  lemma OnTable(u: Setup, s: System, op: R.Op)
    requires Inv(u, s)
    ensures Inv(u, Protocol.Next(u, s, Table(op)))
  {
    if Elsewhere(u.node, s.store, op) { TableStep(u, s, op); }
  }

  lemma OnDispatchMine(u: Setup, s: System, id: string, now: int, f: nat)
    requires Inv(u, s)
    ensures Inv(u, Protocol.Next(u, s, DispatchMine(id, now, f)))
  {
    if R.Sends(s.store, id, true, now) && s.store.requests[id].node == u.node && s.registered.Some? && f !in s.carried {
      DispatchStep(u, s, id, now, f);
    }
  }

  lemma OnWriteFrame(u: Setup, s: System, f: nat, delivered: bool, raised: bool, now: int)
    requires Inv(u, s)
    ensures Inv(u, Protocol.Next(u, s, WriteFrame(f, delivered, raised, now)))
  {
    if f in s.carried && s.carried[f].place.Sending? { WriteStep(u, s, f, delivered, now); }
  }

  lemma OnDeliver(u: Setup, s: System, m: Message, now: int)
    requires Inv(u, s)
    ensures Inv(u, Protocol.Next(u, s, Deliver(m, now)))
  {
    if m in s.up && Acceptable(m) { DeliverStep(u, s, m, now); }
  }

  lemma OnDial(u: Setup, s: System, link: nat)
    requires Inv(u, s)
    ensures Inv(u, Protocol.Next(u, s, Dial(link)))
  {
    DialStep(u, s, link);
  }

  lemma OnUnregister(u: Setup, s: System, now: int)
    requires Inv(u, s)
    ensures Inv(u, Protocol.Next(u, s, Unregister(now)))
  {
    UnregisterStep(u, s, now);
  }

  lemma OnDropLink(u: Setup, s: System, link: nat)
    requires Inv(u, s)
    ensures Inv(u, Protocol.Next(u, s, DropLink(link)))
  {
    CarriedStep(u, s, s.registered, s.links - {link}, Undropped(s.carried, s.links - {link}));
  }

  lemma OnServerRestart(u: Setup, s: System)
    requires Inv(u, s)
    ensures Inv(u, Protocol.Next(u, s, ServerRestart))
  {
    CarriedStep(u, s, None, s.links, Protocol.Next(u, s, ServerRestart).carried);
  }

  lemma OnRegister(u: Setup, s: System, link: nat)
    requires Inv(u, s)
    ensures Inv(u, Protocol.Next(u, s, Register(link)))
  {
    OtherLinks(u, s, Some(link), s.links);
  }

  lemma OnReceive(u: Setup, s: System, f: nat)
    requires Inv(u, s)
    ensures Inv(u, Protocol.Next(u, s, Receive(f)))
  {
    if f in s.carried && s.carried[f].place.OnWire? && s.carried[f].place.link in s.links {
      FewerCarried(u, s, s.carried[f := s.carried[f].(place := Checking(s.carried[f].place.link))]);
    }
  }

  lemma OnCheck(u: Setup, s: System, f: nat, valid: bool, code: string, text: string)
    requires Inv(u, s)
    ensures Inv(u, Protocol.Next(u, s, Check(f, valid, code, text)))
  {
    if f in s.carried && s.carried[f].place.Checking? { CheckStep(u, s, f, valid, code, text); }
  }

  lemma ExecuteIsMove(u: Setup, s: System, t: nat, ch: Choice)
    ensures Protocol.Next(u, s, Execute(t, ch)) ==
      if t in s.exec.threads then Moved(s, Step(u.journal, s.exec, t, ch), t) else s
  {
  }

  lemma OnExecute(u: Setup, s: System, t: nat, ch: Choice)
    requires Inv(u, s)
    ensures Inv(u, Protocol.Next(u, s, Execute(t, ch)))
  {
    ExecuteIsMove(u, s, t, ch);
    if t in s.exec.threads { ExecuteStep(u, s, t, ch); }
  }

  lemma OnCollect(u: Setup, s: System, t: nat, enqueue: bool)
    requires Inv(u, s)
    ensures Inv(u, Protocol.Next(u, s, Collect(t, enqueue)))
  {
    if t in s.exec.threads && s.exec.threads[t].pc.Done? { CollectStep(u, s, t, enqueue); }
  }

  lemma OnSendQueued(u: Setup, s: System, delivered: bool, raised: bool)
    requires Inv(u, s)
    ensures Inv(u, Protocol.Next(u, s, SendQueued(delivered, raised)))
  {
    if s.queue != [] {
      assert Returned(s, s.queue[0].request, s.queue[0].result);
      OtherReports(u, s, Protocol.Next(u, s, SendQueued(delivered, raised)).queue,
                   Protocol.Next(u, s, SendQueued(delivered, raised)).up);
    }
  }

  lemma OnReplay(u: Setup, s: System, i: nat)
    requires Inv(u, s)
    ensures Inv(u, Protocol.Next(u, s, Replay(i)))
  {
    if i < |s.exec.journal| && Writable(u, ReportOf(ResultOf(s.exec.journal[i]))) {
      ReplayStep(u, s, i);
    }
  }

  /** The events of the control plane and of the link. */
  predicate OfServer(ev: Protocol.Event) {
    ev.Table? || ev.DispatchMine? || ev.WriteFrame? || ev.Deliver? || ev.Dial? || ev.Register? || ev.Unregister?
    || ev.DropLink? || ev.ServerRestart?
  }

  lemma NextKeepsInv(u: Setup, s: System, ev: Protocol.Event)
    requires Inv(u, s)
    ensures Inv(u, Protocol.Next(u, s, ev))
  {
    if OfServer(ev) {
      ServerKeepsInv(u, s, ev);
    } else {
      AgentKeepsInv(u, s, ev);
    }
  }

  lemma AgentKeepsInv(u: Setup, s: System, ev: Protocol.Event)
    requires Inv(u, s) && !OfServer(ev)
    ensures Inv(u, Protocol.Next(u, s, ev))
  {
    match ev
    case Receive(f) => OnReceive(u, s, f);
    case Check(f, valid, code, text) => OnCheck(u, s, f, valid, code, text);
    case SendAck(f, delivered, raised, t) => AckStep(u, s, f, delivered, raised, t);
    case Execute(t, ch) => OnExecute(u, s, t, ch);
    case Collect(t, enqueue) => OnCollect(u, s, t, enqueue);
    case SendQueued(delivered, raised) => OnSendQueued(u, s, delivered, raised);
    case Replay(i) => OnReplay(u, s, i);
    case Crash(fileLost) => CrashStep(u, s, fileLost);
  }

  lemma ServerKeepsInv(u: Setup, s: System, ev: Protocol.Event)
    requires Inv(u, s) && OfServer(ev)
    ensures Inv(u, Protocol.Next(u, s, ev))
  {
    match ev
    case Table(op) => OnTable(u, s, op);
    case DispatchMine(id, now, f) => OnDispatchMine(u, s, id, now, f);
    case WriteFrame(f, delivered, raised, now) => OnWriteFrame(u, s, f, delivered, raised, now);
    case Deliver(m, now) => OnDeliver(u, s, m, now);
    case Dial(link) => OnDial(u, s, link);
    case Register(link) => OnRegister(u, s, link);
    case Unregister(now) => OnUnregister(u, s, now);
    case DropLink(link) => OnDropLink(u, s, link);
    case ServerRestart => OnServerRestart(u, s);
  }

  lemma {:induction false} ReachableInv(u: Setup, events: seq<Protocol.Event>)
    ensures Inv(u, Protocol.Run(u, events))
  {
    if events != [] {
      ReachableInv(u, events[..|events| - 1]);
      NextKeepsInv(u, Protocol.Run(u, events[..|events| - 1]), events[|events| - 1]);
    }
  }

  /**
   * In every run a request's command is written to the link at most once, handed to Execute at
   * most once, and its action is started at most once.
   */
  lemma AtMostOnce(u: Setup, events: seq<Protocol.Event>)
    ensures var s := Protocol.Run(u, events);
      && NoRepeats(s.sent) && NoRepeats(s.executed)
      && (forall i, j :: 0 <= i < j < |s.exec.starts| ==> s.exec.starts[i].request != s.exec.starts[j].request)
      && (forall i :: 0 <= i < |s.exec.starts| ==> s.exec.starts[i].request in s.executed)
  {
    ReachableInv(u, events);
  }

  /**
   * Every result row of this node carries what the request's single call of Execute returned (or
   * the result_too_large stand-in), however often and by whichever path it was delivered.
   */
  lemma ResultsAreReturned(u: Setup, events: seq<Protocol.Event>, row: R.ResultRow)
    requires row in Protocol.Run(u, events).store.results && row.node == u.node
    ensures var s := Protocol.Run(u, events);
      && row.request in s.executed && RowIsReturned(s, row)
      && row.request in s.store.requests && s.store.requests[row.request].attempts == 1
  {
    ReachableInv(u, events);
  }

  /**
   * The row of a call, on the fields of the result that the call returned. Its text is the payload if that is an
   * object, an empty object if there is none, and otherwise an object that holds it; more than 64 KiB are refused.
   */
  lemma RowOnFields(u: Setup, events: seq<Protocol.Event>, row: R.ResultRow)
    requires row in Protocol.Run(u, events).store.results && row.node == u.node
    ensures row.request in Protocol.Run(u, events).returned
    ensures var r := Protocol.Run(u, events).returned[row.request];
      var none := r.payload == "" || r.payload == "null";
      var large := !none && |r.payload| > if r.payload[0] == '{' then 65536 else 65526;
      && (large ==> !row.success && row.errorCode == Some("result_too_large")
                    && row.result == "{\"error\":\"result_too_large\"}")
      && (!large ==>
            && row.success == (r.state == "succeeded")
            && row.errorCode == (if r.state == "succeeded" then None else Some(r.code))
            && row.errorMessage == (if r.state == "succeeded" then None else Some(r.message))
            && (none ==> row.result == "{}")
            && (!none && r.payload[0] == '{' ==> row.result == r.payload)
            && (!none && r.payload[0] != '{' ==> row.result == "{\"value\":" + r.payload + "}"))
  {
    ResultsAreReturned(u, events, row);
    StoredOnFields(Protocol.Run(u, events).returned[row.request]);
  }

  lemma StoredOnFields(r: Result)
    ensures var kept := R.Stored(ReportOf(r));
      var none := r.payload == "" || r.payload == "null";
      var large := !none && |r.payload| > if r.payload[0] == '{' then 65536 else 65526;
      && (large ==> !kept.success && kept.code == Some("result_too_large")
                    && kept.text == "{\"error\":\"result_too_large\"}")
      && (!large ==>
            && kept.success == (r.state == "succeeded")
            && kept.code == (if r.state == "succeeded" then None else Some(r.code))
            && kept.message == (if r.state == "succeeded" then None else Some(r.message))
            && (none ==> kept.text == "{}")
            && (!none && r.payload[0] == '{' ==> kept.text == r.payload)
            && (!none && r.payload[0] != '{' ==> kept.text == "{\"value\":" + r.payload + "}"))
  {
  }

  /** No call of Execute finds its request journaled or claimed, so none answers for another call. */
  lemma EveryCallIsTheFirst(u: Setup, events: seq<Protocol.Event>, t: nat)
    requires t in Protocol.Run(u, events).exec.threads && Decided(Protocol.Run(u, events).exec.threads[t].pc).None?
    ensures var s := Protocol.Run(u, events);
      && !J.Holds(s.exec.journal, s.exec.threads[t].cmd.request)
      && (s.exec.threads[t].pc.Claiming? ==> s.exec.threads[t].cmd.request !in s.exec.active)
  {
    ReachableInv(u, events);
    LookupsMiss(u, Protocol.Run(u, events), t);
    if Protocol.Run(u, events).exec.threads[t].pc.Claiming? {
      ClaimSucceeds(u, Protocol.Run(u, events), t);
    }
  }
}
