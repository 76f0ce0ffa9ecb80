/** What every step of the request table keeps, and what therefore holds over whole runs. */
module RequestLife {
  import opened Basics
  import opened Requests

  /** What a single row always satisfies. */
  predicate RowOk(r: Request) {
    && r.attempts == (if r.dispatchedAt.Some? then 1 else 0)
    && (r.status.Queued? || r.status.Expired? || r.status.SkippedOffline? ==>
          r.attempts == 0 && r.acceptedAt.None? && r.startedAt.None?)
    && (InFlight(r.status) || r.status.TimedOut? ==> r.attempts == 1)
    && (r.status.Accepted? ==> r.acceptedAt.Some?)
    && (r.status.Running? ==> r.startedAt.Some?)
    && (r.finishedAt.Some? <==> Terminal(r.status) && !r.status.SkippedOffline?)
    && !r.status.Canceled?
  }

  predicate Kept(before: Option<int>, after: Option<int>) {
    before.Some? ==> after == before
  }

  /** A later version of the same row. */
  predicate Advances(a: Request, b: Request) {
    && a.node == b.node && a.action == b.action && a.parameters == b.parameters
    && a.deadline == b.deadline && a.createdAt == b.createdAt
    && Phase(a.status) <= Phase(b.status)
    && a.attempts <= b.attempts
    && Kept(a.dispatchedAt, b.dispatchedAt) && Kept(a.acceptedAt, b.acceptedAt) && Kept(a.startedAt, b.startedAt)
    && (Terminal(a.status) ==> b == a || (a.status.SkippedOffline? && b.status.Failed?))
  }

  /** Result row `i` and its request say the same. */
  predicate Agrees(s: Store, i: int)
    requires 0 <= i < |s.results|
  {
    var row := s.results[i];
    && row.request in s.requests
    && var r := s.requests[row.request];
       && r.node == row.node
       && r.status == (if row.success then Succeeded else Failed)
       && r.result == Some(row.result)
       && r.errorCode == row.errorCode && r.errorMessage == row.errorMessage
       && r.finishedAt == Some(row.createdAt)
  }

  ghost predicate HasRow(s: Store, id: string) {
    exists i :: 0 <= i < |s.results| && s.results[i].request == id
  }

  ghost predicate ResultsOk(s: Store) {
    && (forall i :: 0 <= i < |s.results| ==> Agrees(s, i))
    && (forall i, j :: 0 <= i < j < |s.results| ==> s.results[i].request != s.results[j].request)
    && (forall id :: id in s.requests && (s.requests[id].result.Some? || s.requests[id].status.Succeeded?) ==> HasRow(s,
        id))
  }

  ghost predicate OneActive(s: Store) {
    forall x, y ::
      (&& x in s.requests && y in s.requests && s.requests[x].node == s.requests[y].node
       && StateChanging(s.requests[x].action) && StateChanging(s.requests[y].action)
       && Active(s.requests[x].status) && Active(s.requests[y].status))
      ==> x == y
  }

  ghost predicate Inv(s: Store) {
    && (forall id :: id in s.requests ==> RowOk(s.requests[id]))
    && ResultsOk(s)
    && OneActive(s)
  }

  /** `t` is a later version of `s`: no row disappears, every row advances, results only grow. */
  ghost predicate Later(s: Store, t: Store) {
    && (forall id :: id in s.requests ==> id in t.requests && Advances(s.requests[id], t.requests[id]))
    && s.results <= t.results
  }

  /** A move of one row that writes no result. */
  predicate Quiet(a: Request, b: Request) {
    && Advances(a, b) && RowOk(b) && a.result == b.result
    && (a.status.Succeeded? || a.status.Failed? || b.status.Succeeded? ==> a == b)
  }

  /** A step in which no request is added and every row makes a quiet move. */
  ghost predicate RowWise(s: Store, t: Store) {
    && s.requests.Keys == t.requests.Keys && s.results == t.results
    && forall id :: id in s.requests ==> Quiet(s.requests[id], t.requests[id])
  }

  lemma RowWiseKeepsOneActive(s: Store, t: Store)
    requires s.requests.Keys == t.requests.Keys && OneActive(s)
    requires forall id :: id in s.requests ==> Advances(s.requests[id], t.requests[id])
    ensures OneActive(t)
  {
    forall x, y |
      && x in t.requests && y in t.requests && t.requests[x].node == t.requests[y].node
      && StateChanging(t.requests[x].action) && StateChanging(t.requests[y].action)
      && Active(t.requests[x].status) && Active(t.requests[y].status)
      ensures x == y
    {
      assert Advances(s.requests[x], t.requests[x]) && Advances(s.requests[y], t.requests[y]);
      assert s.requests[x].node == s.requests[y].node;
    }
  }

  lemma RowWiseKeepsResults(s: Store, t: Store)
    requires RowWise(s, t) && ResultsOk(s)
    ensures ResultsOk(t)
  {
    forall i | 0 <= i < |t.results| ensures Agrees(t, i) {
      assert Agrees(s, i);
      assert Quiet(s.requests[s.results[i].request], t.requests[s.results[i].request]);
    }
    forall id | id in t.requests && (t.requests[id].result.Some? || t.requests[id].status.Succeeded?)
      ensures HasRow(t, id)
    {
      assert Quiet(s.requests[id], t.requests[id]);
      assert HasRow(s, id);
    }
  }

  lemma RowWiseKeepsInv(s: Store, t: Store)
    requires RowWise(s, t) && Inv(s)
    ensures Inv(t) && Later(s, t)
  {
    RowWiseKeepsResults(s, t);
    RowWiseKeepsOneActive(s, t);
  }

  // The row updates of the table, one by one, are quiet moves.

  lemma LostIsQuiet(r: Request, code: string, message: string, now: int)
    requires RowOk(r)
    ensures Quiet(r, LostRow(r, code, message, now))
  {
  }

  lemma AcceptedIsQuiet(r: Request, now: int)
    requires RowOk(r)
    ensures Quiet(r, AcceptedRow(r, now))
  {
  }

  lemma RejectedIsQuiet(r: Request, code: Option<string>, message: Option<string>, now: int)
    requires RowOk(r)
    ensures Quiet(r, RejectedRow(r, code, message, now))
  {
  }

  lemma DueIsQuiet(r: Request, now: int)
    requires RowOk(r)
    ensures Quiet(r, DueRow(r, now))
    ensures r.status.Queued? ==> Quiet(r, ExpiredRow(r, true, now))
  {
  }

  lemma DispatchedIsQuiet(r: Request, now: int)
    requires RowOk(r) && r.status.Queued?
    ensures Quiet(r, DispatchedRow(r, now))
  {
  }

  lemma RunningIsQuiet(r: Request, now: int)
    requires RowOk(r)
    ensures Quiet(r, RunningRow(r, now))
  {
  }

  /** What an operation makes of the row of a request. */
  function RowAfterOp(s: Store, op: Op, id: string): Request
    requires id in s.requests && !op.CreateOp? && !op.FinishOp?
  {
    var r := s.requests[id];
    match op
    case DispatchOp(x, online, now) =>
      if x != id || !r.status.Queued? then r
      else if r.deadline <= now then ExpiredRow(r, true, now)
      else if online then DispatchedRow(r, now) else r
    case MarkUnknownOp(x, code, message, now) => if x == id then LostRow(r, code, message, now) else r
    case MarkUnknownForNodeOp(node, now) => ClosedRow(r, node, now)
    case AcknowledgeOp(node, x, accepted, code, message, now) =>
      if x != id || r.node != node then r
      else AnsweredRow(r, accepted, code, message, now)
    case ProgressOp(node, x, now) => if x == id && r.node == node then RunningRow(r, now) else r
    case ExpireOp(now) => DueRow(r, now)
  }

  lemma OpOnRow(s: Store, op: Op, id: string)
    requires id in s.requests && !op.CreateOp? && !op.FinishOp?
    ensures id in Apply(s, op).requests && Apply(s, op).requests[id] == RowAfterOp(s, op, id)
  {
  }

  lemma StaysQuiet(r: Request)
    requires RowOk(r)
    ensures Quiet(r, r)
  {
  }

  lemma OpMovesRowQuietly(s: Store, op: Op, id: string)
    requires id in s.requests && RowOk(s.requests[id]) && !op.CreateOp? && !op.FinishOp?
    ensures id in Apply(s, op).requests && Quiet(s.requests[id], Apply(s, op).requests[id])
  {
    OpOnRow(s, op, id);
    RowMovesQuietly(s, op, id);
  }

  lemma RowMovesQuietly(s: Store, op: Op, id: string)
    requires id in s.requests && RowOk(s.requests[id]) && !op.CreateOp? && !op.FinishOp?
    ensures Quiet(s.requests[id], RowAfterOp(s, op, id))
  {
    var r := s.requests[id];
    StaysQuiet(r);
    match op
    case DispatchOp(_, _, now) =>
      if r.status.Queued? {
        DispatchedIsQuiet(r, now);
        DueIsQuiet(r, now);
      }
    case MarkUnknownOp(_, code, message, now) => LostIsQuiet(r, code, message, now);
    case MarkUnknownForNodeOp(_, now) =>
      LostIsQuiet(r, "result_unknown", "Agent connection closed before a final result", now);
    case AcknowledgeOp(_, _, accepted, code, message, now) =>
      if accepted { AcceptedIsQuiet(r, now); } else { RejectedIsQuiet(r, code, message, now); }
    case ProgressOp(_, _, now) => RunningIsQuiet(r, now);
    case ExpireOp(now) => DueIsQuiet(r, now);
  }

  lemma OpKeepsKeys(s: Store, op: Op)
    requires !op.CreateOp? && !op.FinishOp?
    ensures Apply(s, op).requests.Keys == s.requests.Keys && Apply(s, op).results == s.results
  {
  }

  lemma OpIsRowWise(s: Store, op: Op)
    requires Inv(s) && !op.CreateOp? && !op.FinishOp?
    ensures RowWise(s, Apply(s, op))
  {
    OpKeepsKeys(s, op);
    forall id | id in s.requests ensures Quiet(s.requests[id], Apply(s, op).requests[id]) {
      OpMovesRowQuietly(s, op, id);
    }
  }

  lemma FinishKeepsResults(s: Store, node: string, id: string, report: Report, now: int)
    requires Inv(s) && Finishes(s, node, id)
    ensures ResultsOk(Finish(s, node, id, report, now))
  {
    var t := Finish(s, node, id, report, now);
    var n := |s.results|;
    forall i | 0 <= i < n ensures s.results[i].request != id && t.results[i] == s.results[i] {
      assert Agrees(s, i);
    }
    forall i | 0 <= i < |t.results| ensures Agrees(t, i) {
      if i < n {
        assert Agrees(s, i);
      }
    }
    forall x | x in t.requests && (t.requests[x].result.Some? || t.requests[x].status.Succeeded?) ensures HasRow(t, x) {
      if x == id {
        assert t.results[n].request == id;
      } else {
        assert HasRow(s, x);
        var i :| 0 <= i < n && s.results[i].request == x;
        assert t.results[i].request == x;
      }
    }
  }

  lemma FinishKeepsInv(s: Store, node: string, id: string, report: Report, now: int)
    requires Inv(s)
    ensures Inv(Finish(s, node, id, report, now)) && Later(s, Finish(s, node, id, report, now))
  {
    if Finishes(s, node, id) {
      var t := Finish(s, node, id, report, now);
      FinishKeepsResults(s, node, id, report, now);
      assert Advances(s.requests[id], t.requests[id]) && RowOk(t.requests[id]);
      RowWiseKeepsOneActive(s, t);
    }
  }

  lemma CreateKeepsResults(s: Store, c: Creation)
    requires Inv(s) && CreateReplyOf(s, c).Inserted?
    ensures ResultsOk(Create(s, c))
  {
    var t := Create(s, c);
    forall i | 0 <= i < |t.results| ensures Agrees(t, i) {
      assert Agrees(s, i);
    }
    forall id | id in t.requests && (t.requests[id].result.Some? || t.requests[id].status.Succeeded?)
      ensures HasRow(t, id)
    {
      assert id != c.id;
      assert HasRow(s, id);
    }
  }

  lemma CreateKeepsOneActive(s: Store, c: Creation)
    requires OneActive(s) && CreateReplyOf(s, c).Inserted?
    ensures OneActive(Create(s, c))
  {
    if StateChanging(c.action) {
      assert !BusyOn(s.requests, c.node);
    }
  }

  lemma CreateKeepsInv(s: Store, c: Creation)
    requires Inv(s)
    ensures Inv(Create(s, c)) && Later(s, Create(s, c))
  {
    if CreateReplyOf(s, c).Inserted? {
      CreateKeepsResults(s, c);
      CreateKeepsOneActive(s, c);
      assert RowOk(NewRequest(c));
    }
  }

  /** Every atomic step keeps the table's invariant and only moves rows forward. */
  lemma StepKeepsInv(s: Store, op: Op)
    requires Inv(s)
    ensures Inv(Apply(s, op)) && Later(s, Apply(s, op))
  {
    if op.CreateOp? {
      CreateKeepsInv(s, op.creation);
    } else if op.FinishOp? {
      FinishKeepsInv(s, op.node, op.id, op.report, op.now);
    } else {
      OpIsRowWise(s, op);
      RowWiseKeepsInv(s, Apply(s, op));
    }
  }

  lemma AdvancesTransitive(a: Request, b: Request, c: Request)
    requires Advances(a, b) && Advances(b, c)
    ensures Advances(a, c)
  {
  }

  /** Every reachable table satisfies the invariant. */
  lemma {:induction false} ReachableInv(ops: seq<Op>)
    ensures Inv(After(EMPTY, ops))
  {
    if ops != [] {
      ReachableInv(ops[..|ops| - 1]);
      StepKeepsInv(After(EMPTY, ops[..|ops| - 1]), ops[|ops| - 1]);
    }
  }

  lemma LaterTransitive(s: Store, m: Store, t: Store)
    requires Later(s, m) && Later(m, t)
    ensures Later(s, t)
  {
    forall id | id in s.requests ensures id in t.requests && Advances(s.requests[id], t.requests[id]) {
      AdvancesTransitive(s.requests[id], m.requests[id], t.requests[id]);
    }
  }

  lemma LaterReflexive(s: Store)
    ensures Later(s, s)
  {
  }

  lemma AfterOneMore(ops: seq<Op>, more: seq<Op>)
    requires more != []
    ensures After(EMPTY, ops + more) == Apply(After(EMPTY, ops + more[..|more| - 1]), more[|more| - 1])
  {
    assert (ops + more)[..|ops + more| - 1] == ops + more[..|more| - 1];
  }

  /** Over any run and any continuation of it, rows are never lost, never go back, and results never change. */
  lemma {:induction false} LifeGoesForward(ops: seq<Op>, more: seq<Op>)
    ensures Later(After(EMPTY, ops), After(EMPTY, ops + more))
  {
    if more == [] {
      assert ops + more == ops;
      LaterReflexive(After(EMPTY, ops));
    } else {
      var shorter := more[..|more| - 1];
      LifeGoesForward(ops, shorter);
      ReachableInv(ops + shorter);
      AfterOneMore(ops, more);
      StepKeepsInv(After(EMPTY, ops + shorter), more[|more| - 1]);
      LaterTransitive(After(EMPTY, ops), After(EMPTY, ops + shorter), After(EMPTY, ops + more));
    }
  }

  /** In every reachable table a node has at most one active state-changing request. */
  lemma AtMostOneActivePerNode(ops: seq<Op>, x: string, y: string)
    requires x in After(EMPTY, ops).requests && y in After(EMPTY, ops).requests
    requires After(EMPTY, ops).requests[x].node == After(EMPTY, ops).requests[y].node
    requires StateChanging(After(EMPTY, ops).requests[x].action) && Active(After(EMPTY, ops).requests[x].status)
    requires StateChanging(After(EMPTY, ops).requests[y].action) && Active(After(EMPTY, ops).requests[y].status)
    ensures x == y
  {
    ReachableInv(ops);
  }

  /** A request is succeeded exactly when a success row for it exists, and it has at most one result row. */
  lemma SucceededIffSuccessRow(ops: seq<Op>, id: string)
    requires id in After(EMPTY, ops).requests
    ensures var s := After(EMPTY, ops);
      && (s.requests[id].status.Succeeded? <==>
            exists i :: 0 <= i < |s.results| && s.results[i].request == id && s.results[i].success)
      && (forall i, j | 0 <= i < |s.results| && 0 <= j < |s.results| ::
            s.results[i].request == id && s.results[j].request == id ==> i == j)
      && s.requests[id].attempts <= 1
      && (s.requests[id].attempts == 1 <==> s.requests[id].dispatchedAt.Some?)
  {
    ReachableInv(ops);
    var s := After(EMPTY, ops);
    if s.requests[id].status.Succeeded? {
      assert HasRow(s, id);
      var i :| 0 <= i < |s.results| && s.results[i].request == id;
      assert Agrees(s, i);
    }
    forall i | 0 <= i < |s.results| && s.results[i].request == id && s.results[i].success
      ensures s.requests[id].status.Succeeded?
    {
      assert Agrees(s, i);
    }
  }

  /**
   * The unguarded UPDATE of _mark_expired is a legal step exactly when the row is still queued
   * (or the UPDATE changes nothing), so its only caller's check of the status is what makes it safe.
   */
  lemma MarkExpiredIsSafeIff(s: Store, id: string, now: int)
    requires Inv(s) && id in s.requests
    ensures var t := MarkExpired(s, id, true, now);
      (Inv(t) && Later(s, t)) <==>
      (s.requests[id].status.Queued? || s.requests[id] == ExpiredRow(s.requests[id], true, now))
  {
    var t := MarkExpired(s, id, true, now);
    assert s.requests[id] == ExpiredRow(s.requests[id], true, now) ==> t.requests == s.requests && t == s;
    if s.requests[id].status.Queued? {
      forall x | x in s.requests ensures Quiet(s.requests[x], t.requests[x]) {
        DueIsQuiet(s.requests[x], now);
      }
      RowWiseKeepsInv(s, t);
    } else if Inv(t) && Later(s, t) {
      assert RowOk(t.requests[id]);
      assert Advances(s.requests[id], t.requests[id]);
      assert t.requests == s.requests;
    } else if t == s {
      forall x | x in s.requests ensures Advances(s.requests[x], t.requests[x]) {
      }
    }
  }

  /**
   * skipped_offline is terminal yet not frozen: exactly a negative acknowledgement from its node changes it, and
   * makes it failed with the agent's code; no result row comes of it.
   */
  lemma SkippedOfflineChangesIff(s: Store, id: string, op: Op)
    requires Inv(s) && id in s.requests && s.requests[id].status.SkippedOffline?
    ensures var after := Apply(s, op).requests[id];
      && (after != s.requests[id] <==>
            op.AcknowledgeOp? && op.id == id && op.node == s.requests[id].node && !op.accepted)
      && (after != s.requests[id] ==> after.status.Failed? && after.finishedAt == Some(op.now)
                                      && after.errorCode == OrDefault(op.rejectCode, "agent_rejected"))
    ensures Apply(s, op).requests[id] != s.requests[id] ==> Apply(s, op).results == s.results
  {
  }

  /**
   * An unknown request keeps its node busy until its own node reports: no expiry, disconnect or other node
   * frees it.
   */
  lemma UnknownStaysActiveUntilItsNodeReports(s: Store, id: string, op: Op)
    requires id in s.requests && s.requests[id].status.Unknown?
    requires !Active(Apply(s, op).requests[id].status)
    ensures ((op.AcknowledgeOp? && !op.accepted) || op.FinishOp?) && op.id == id && op.node == s.requests[id].node
  {
  }
}
