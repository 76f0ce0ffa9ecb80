/** What a request's ordinary course does to the tables, and that repeating parts of it changes nothing. */
module RequestCourse {
  import opened Basics
  import opened Requests
  import RequestLife

  /** Created, sent, acknowledged, reported as running, finished. */
  function Course(s: Store, c: Creation, report: Report, t: int): Store {
    Finish(Progress(Acknowledge(Dispatch(Create(s, c), c.id, true, t), c.node, c.id, true, None, None, t), c.node, c.id,
                    t),
           c.node, c.id, report, t)
  }

  /** The row at the end of the course. */
  predicate Finished(r: Request, c: Creation, report: Report, t: int) {
    && r.status == (if Stored(report).success then Succeeded else Failed)
    && r.result == Some(Stored(report).text) && r.errorCode == Stored(report).code
    && r.attempts == 1 && r.dispatchedAt == r.acceptedAt == r.startedAt == r.finishedAt == Some(t)
    && r.node == c.node && r.action == c.action && c.parameters == Some(r.parameters)
  }

  /**
   * Whenever the table accepts a request whose node is online, and it is in time, the five steps end with it
   * finished as reported, one result row more, every other request as it was, and the node free for the next one.
   */
  lemma RunsItsCourse(s: Store, c: Creation, report: Report, t: int, next: Creation)
    requires RequestLife.Inv(s) && CreateReplyOf(s, c).Inserted? && c.online && t < NewRequest(c).deadline
    ensures var e := Course(s, c, report, t);
      && c.id in e.requests && Finished(e.requests[c.id], c, report, t)
      && e.requests == s.requests[c.id := e.requests[c.id]]
      && |e.results| == |s.results| + 1 && e.results[..|s.results|] == s.results
      && e.results[|s.results|].request == c.id
    ensures (StateChanging(c.action) && next.node == c.node && next.nodeKnown && Supported(next.action)
             && next.parameters.Some? && next.id != c.id && next.id !in s.requests)
            ==> CreateReplyOf(Course(s, c, report, t), next).Inserted?
  {
    var s1 := Create(s, c);
    var s2 := Dispatch(s1, c.id, true, t);
    assert s2.requests[c.id].status.Dispatched? && s2.requests[c.id].attempts == 1;
    var s3 := Acknowledge(s2, c.node, c.id, true, None, None, t);
    assert s3.requests[c.id].status.Accepted?;
    var s4 := Progress(s3, c.node, c.id, t);
    assert s4.requests[c.id].status.Running? && s4.results == s.results;
    var e := Finish(s4, c.node, c.id, report, t);
    assert e.requests == s.requests[c.id := e.requests[c.id]];
    if StateChanging(c.action) {
      assert !BusyOn(s.requests, c.node);
      assert !BusyOn(e.requests, c.node);
    }
  }

  /** Only the first result counts, however often and with whatever content it is repeated. */
  lemma FirstResultWins(s: Store, node: string, id: string, first: Report, again: Report, t: int, u: int)
    ensures Finish(Finish(s, node, id, first, t), node, id, again, u) == Finish(s, node, id, first, t)
  {
  }

  // Several reports at once, as a reconnecting agent sends them.

  datatype Item = Item(request: string, report: Report)

  function FinishAll(s: Store, node: string, items: seq<Item>, now: int): Store {
    if items == [] then s
    else
      var last := items[|items| - 1];
      Finish(FinishAll(s, node, items[..|items| - 1], now), node, last.request, last.report, now)
  }

  predicate Settled(s: Store, node: string, id: string) {
    id !in s.requests || s.requests[id].node != node || Terminal(s.requests[id].status)
  }

  /** A reconciliation finishes every open request it reports, and leaves other nodes alone. */
  lemma {:induction false} ReconcileSettles(s: Store, node: string, items: seq<Item>, now: int)
    ensures var e := FinishAll(s, node, items, now);
      && e.requests.Keys == s.requests.Keys
      && (forall i :: 0 <= i < |items| ==> Settled(e, node, items[i].request))
      && (forall id :: id in s.requests && s.requests[id].node != node ==> e.requests[id] == s.requests[id])
      && (forall id :: id in s.requests ==> e.requests[id].node == s.requests[id].node)
      && (forall id :: Settled(s, node, id) ==> Settled(e, node, id))
  {
    if items != [] {
      var front, last := items[..|items| - 1], items[|items| - 1];
      ReconcileSettles(s, node, front, now);
      var mid, e := FinishAll(s, node, front, now), FinishAll(s, node, items, now);
      forall id | Settled(mid, node, id) ensures Settled(e, node, id) {
      }
      forall i | 0 <= i < |items| ensures Settled(e, node, items[i].request) {
        if i < |front| {
          assert Settled(mid, node, front[i].request);
        }
      }
    }
  }

  lemma {:induction false} SettledStaysAsItIs(s: Store, node: string, items: seq<Item>, now: int)
    requires forall i :: 0 <= i < |items| ==> Settled(s, node, items[i].request)
    ensures FinishAll(s, node, items, now) == s
  {
    if items != [] {
      SettledStaysAsItIs(s, node, items[..|items| - 1], now);
      assert Settled(s, node, items[|items| - 1].request);
    }
  }

  /** The hello message and the replay after it carry the same reports; the second time nothing changes. */
  lemma ReconcileTwiceIsOnce(s: Store, node: string, items: seq<Item>, now: int, later: int)
    ensures FinishAll(FinishAll(s, node, items, now), node, items, later) == FinishAll(s, node, items, now)
  {
    ReconcileSettles(s, node, items, now);
    SettledStaysAsItIs(FinishAll(s, node, items, now), node, items, later);
  }

  // What a finished change of address adds to the node's history.

  /**
   * A request reaches the history at most once: when its result has been stored, no later result of any node
   * records it again, whatever has happened to the tables in between.
   */
  lemma RecordedAtMostOnce(s: Store, node: string, id: string, first: Report, t: int, later: Store, other: string,
                           again: Report)
    requires ChangeOf(s, node, id, first).Some? && RequestLife.Later(Finish(s, node, id, first, t), later)
    ensures ChangeOf(later, other, id, again).None?
  {
    var done := Finish(s, node, id, first, t);
    assert Terminal(done.requests[id].status);
    assert RequestLife.Advances(done.requests[id], later.requests[id]);
  }

  // The queue of a node that has come online.

  /**
   * One turn of the loop: the id, what the clock and the registry say when it comes up, and whether the send
   * raises.
   */
  datatype Turn = Turn(id: string, online: bool, now: int, raised: bool)

  function TakeTurn(s: Store, turn: Turn): Store {
    var after := Dispatch(s, turn.id, turn.online, turn.now);
    if Sends(s, turn.id, turn.online, turn.now) && turn.raised then
      MarkDropped(after, turn.id, turn.now)
    else after
  }

  function DispatchAll(s: Store, turns: seq<Turn>): Store {
    if turns == [] then s else TakeTurn(DispatchAll(s, turns[..|turns| - 1]), turns[|turns| - 1])
  }

  /** The ids among them that are sent, in order. */
  function SentOf(s: Store, turns: seq<Turn>): seq<string> {
    if turns == [] then []
    else
      var front, last := turns[..|turns| - 1], turns[|turns| - 1];
      SentOf(s, front) + (if Sends(s, last.id, last.online, last.now) then [last.id] else [])
  }

  lemma OneMoreTurn(s: Store, turns: seq<Turn>, i: nat)
    requires i < |turns| && DistinctIds(turns)
    ensures var before, last := DispatchAll(s, turns[..i]), turns[i];
      && DispatchAll(s, turns[..i + 1]) == TakeTurn(before, last)
      && SentOf(s, turns[..i + 1]) ==
           SentOf(s, turns[..i]) + (if Sends(before, last.id, last.online, last.now) then [last.id] else [])
  {
    assert turns[..i + 1] == turns[..i] + [turns[i]] && turns[..i + 1][..i] == turns[..i];
    PendingIsDrained(s, turns[..i]);
    DrainOne(s, turns[..i], DispatchAll(s, turns[..i]), turns[i]);
  }

  /**
   * What its turn makes of a request: expired, dispatched, lost on the way, or left queued because its node
   * is off line.
   */
  function RowAfter(r: Request, turn: Turn): Request {
    if !r.status.Queued? then r
    else if r.deadline <= turn.now then ExpiredRow(r, true, turn.now)
    else if !turn.online then r
    else if turn.raised then
      LostRow(DispatchedRow(r, turn.now), "agent_disconnect", "Agent connection dropped while dispatching", turn.now)
    else DispatchedRow(r, turn.now)
  }

  ghost predicate DistinctIds(turns: seq<Turn>) {
    forall i, j :: 0 <= i < j < |turns| ==> turns[i].id != turns[j].id
  }

  /** Every listed request has had its turn, every other one is as it was. */
  ghost predicate Drained(s: Store, turns: seq<Turn>, e: Store) {
    && e.requests.Keys == s.requests.Keys && e.results == s.results
    && (forall i :: 0 <= i < |turns| && turns[i].id in s.requests ==>
          e.requests[turns[i].id] == RowAfter(s.requests[turns[i].id], turns[i]))
    && forall id :: id in s.requests && (forall i :: 0 <= i < |turns| ==> turns[i].id != id) ==>
         e.requests[id] == s.requests[id]
  }

  lemma TurnMakesRow(s: Store, turn: Turn)
    ensures TakeTurn(s, turn) ==
      if turn.id in s.requests then s.(requests := s.requests[turn.id := RowAfter(s.requests[turn.id], turn)]) else s
  {
    var n := TakeTurn(s, turn);
    if turn.id in s.requests {
      assert n.requests == s.requests[turn.id := RowAfter(s.requests[turn.id], turn)];
    }
  }

  lemma DrainOne(s: Store, turns: seq<Turn>, e: Store, turn: Turn)
    requires Drained(s, turns, e) && DistinctIds(turns + [turn])
    ensures Drained(s, turns + [turn], TakeTurn(e, turn))
    ensures Sends(e, turn.id, turn.online, turn.now) <==> Sends(s, turn.id, turn.online, turn.now)
  {
    var all := turns + [turn];
    TurnMakesRow(e, turn);
    forall i | 0 <= i < |turns| ensures turns[i].id != turn.id {
      assert all[i].id != all[|turns|].id;
    }
    assert turn.id in s.requests ==> e.requests[turn.id] == s.requests[turn.id];
    forall id | id in s.requests && (forall i :: 0 <= i < |all| ==> all[i].id != id)
      ensures TakeTurn(e, turn).requests[id] == s.requests[id]
    {
      assert all[|turns|].id != id;
      forall i | 0 <= i < |turns| ensures turns[i].id != id { assert all[i].id != id; }
    }
  }

  /** After the pass over distinct ids each of them has had its turn, and each is sent at most once. */
  lemma {:induction false} PendingIsDrained(s: Store, turns: seq<Turn>)
    requires DistinctIds(turns)
    ensures Drained(s, turns, DispatchAll(s, turns))
    ensures NoRepeats(SentOf(s, turns))
    ensures forall id :: id in SentOf(s, turns) <==>
      exists i :: 0 <= i < |turns| && turns[i].id == id && Sends(s, id, turns[i].online, turns[i].now)
  {
    if turns != [] {
      var front, last := turns[..|turns| - 1], turns[|turns| - 1];
      PendingIsDrained(s, front);
      assert turns == front + [last];
      DrainOne(s, front, DispatchAll(s, front), last);
      SentOneMore(s, front, last);
    }
  }

  lemma SentOneMore(s: Store, front: seq<Turn>, last: Turn)
    requires DistinctIds(front + [last]) && NoRepeats(SentOf(s, front))
    requires forall id :: id in SentOf(s, front) <==>
      exists i :: 0 <= i < |front| && front[i].id == id && Sends(s, id, front[i].online, front[i].now)
    ensures var turns := front + [last];
      && NoRepeats(SentOf(s, turns))
      && forall id :: id in SentOf(s, turns) <==>
           exists i :: 0 <= i < |turns| && turns[i].id == id && Sends(s, id, turns[i].online, turns[i].now)
  {
    var turns := front + [last];
    assert turns[..|turns| - 1] == front;
    forall i | 0 <= i < |front| ensures turns[i] == front[i] && front[i].id != last.id {
      assert turns[i].id != turns[|front|].id;
    }
    assert last.id !in SentOf(s, front);
    forall id ensures id in SentOf(s, turns) <==>
      exists i :: 0 <= i < |turns| && turns[i].id == id && Sends(s, id, turns[i].online, turns[i].now)
    {
      if id in SentOf(s, front) {
        var i :| 0 <= i < |front| && front[i].id == id && Sends(s, id, front[i].online, front[i].now);
        assert turns[i].id == id;
      } else if id in SentOf(s, turns) {
        assert turns[|front|].id == id;
      }
    }
  }
}
