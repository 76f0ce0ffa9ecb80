/**
 * ActionService as an object: its two tables are fields that every method updates in place.
 * Each method is proved equal to the corresponding function of module Requests, and keeps
 * the table invariant of module RequestLife.
 */
module RequestService {
  import opened Basics
  import opened Requests
  import RequestLife
  import opened RequestCourse
  import RequestFields

  // The two UPDATE statements of expire_requests.

  function ExpireQueued(requests: map<string, Request>, now: int): map<string, Request> {
    map id | id in requests ::
      if requests[id].status.Queued? && requests[id].deadline <= now
      then ExpiredRow(requests[id], true, now).(errorMessage := Some("Request expired before dispatch"))
      else requests[id]
  }

  function TimeOutLost(requests: map<string, Request>, now: int): map<string, Request> {
    map id | id in requests ::
      if Lost(requests[id].status) && requests[id].deadline <= now
      then ExpiredRow(requests[id], false, now).(errorMessage := Some("Action exceeded its deadline"))
      else requests[id]
  }

  lemma RowInTwoUpdates(requests: map<string, Request>, id: string, now: int)
    requires id in requests
    ensures TimeOutLost(ExpireQueued(requests, now), now)[id] == DueRow(requests[id], now)
  {
    var r, mid := requests[id], ExpireQueued(requests, now)[id];
    if r.status.Queued? && r.deadline <= now {
      assert mid.status.Expired? && mid == DueRow(r, now);
    } else {
      assert mid == r;
    }
  }

  /** A row expired by the first statement is not touched by the second. */
  lemma ExpiryInTwoUpdates(s: Store, now: int)
    ensures ExpireDue(s, now).requests == TimeOutLost(ExpireQueued(s.requests, now), now)
  {
    var two := TimeOutLost(ExpireQueued(s.requests, now), now);
    forall id | id in s.requests ensures two[id] == ExpireDue(s, now).requests[id] {
      RowInTwoUpdates(s.requests, id, now);
    }
    assert two.Keys == s.requests.Keys == ExpireDue(s, now).requests.Keys;
  }

  /** A request that is about to be sent has never been sent before. */
  lemma SendCountsOnce(s: Store, id: string, online: bool, now: int)
    requires RequestLife.Inv(s)
    ensures Sends(s, id, online, now) ==>
      s.requests[id].attempts == 0 && Dispatch(s, id, online, now).requests[id].attempts == 1
  {
    if id in s.requests {
      assert RequestLife.RowOk(s.requests[id]);
    }
  }

  class ActionService {
    var requests: map<string, Request>
    var results: seq<ResultRow>

    function View(): Store
      reads this
    {
      Store(requests, results)
    }

    ghost predicate Valid()
      reads this
    {
      RequestLife.Inv(View())
    }

    constructor ()
      ensures Valid() && View() == EMPTY
    {
      requests, results := map[], [];
    }

    method CreateRequest(c: Creation) returns (reply: CreateReply)
      requires Valid()
      modifies this
      ensures Valid() && RequestLife.Later(old(View()), View())
      ensures View() == Create(old(View()), c)
      ensures reply == CreateReplyOf(old(View()), c)
    {
      RequestLife.StepKeepsInv(View(), CreateOp(c));
      if !Supported(c.action) || c.parameters.None? {
        return Refused("invalid_parameters");
      }
      if !c.nodeKnown {
        return Refused("node_not_found");
      }
      if c.id in requests {
        var existing := requests[c.id];
        if existing.action != c.action || existing.parameters != c.parameters.value {
          return Refused("request_duplicate");
        }
        return Existing;
      }
      if StateChanging(c.action) {
        var busy := BusyOn(requests, c.node);
        if busy {
          return Refused("action_busy");
        }
      }
      requests := requests[c.id := NewRequest(c)];
      reply := Inserted;
    }

    /** The part of dispatch_request before the send; `send` tells whether the send follows. */
    method DispatchRequest(id: string, online: bool, now: int) returns (send: bool)
      requires Valid()
      modifies this
      ensures Valid() && RequestLife.Later(old(View()), View())
      ensures View() == Dispatch(old(View()), id, online, now)
      ensures send == Sends(old(View()), id, online, now)
      ensures send ==> old(requests)[id].attempts == 0 && requests[id].attempts == 1
    {
      ghost var op := DispatchOp(id, online, now);
      RequestLife.StepKeepsInv(View(), op);
      SendCountsOnce(View(), id, online, now);
      send := false;
      if id in requests && requests[id].status.Queued? {
        var row := requests[id];
        if row.deadline <= now {
          requests := requests[id := ExpiredRow(row, true, now)];
        } else if online {
          requests := requests[id := row.(status := Dispatched, attempts := row.attempts + 1,
                                          dispatchedAt := Coalesce(row.dispatchedAt, now), updatedAt := now)];
          send := true;
        }
      }
      assert View() == Apply(old(View()), op);
    }

    /**
     * dispatch_pending over the ids that were selected, with the clock, the registry and the outcome of the send as
     * each turn meets them; `sent` are the ids that go out, in order.
     */
    method DispatchPending(turns: seq<Turn>) returns (sent: seq<string>)
      requires Valid() && DistinctIds(turns)
      modifies this
      ensures Valid() && View() == DispatchAll(old(View()), turns) && Drained(old(View()), turns, View())
      ensures sent == SentOf(old(View()), turns) && NoRepeats(sent)
      ensures forall i :: 0 <= i < |turns| && turns[i].online && turns[i].id in requests ==>
        !requests[turns[i].id].status.Queued?
    {
      sent := TakeTurns(turns);
      PendingIsDrained(old(View()), turns);
    }

    method TakeTurns(turns: seq<Turn>) returns (sent: seq<string>)
      requires Valid() && DistinctIds(turns)
      modifies this
      ensures Valid() && View() == DispatchAll(old(View()), turns) && sent == SentOf(old(View()), turns)
    {
      sent := [];
      for i := 0 to |turns|
        invariant Valid() && View() == DispatchAll(old(View()), turns[..i])
        invariant sent == SentOf(old(View()), turns[..i])
      {
        OneMoreTurn(old(View()), turns, i);
        var send := DispatchTurn(turns[i]);
        if send {
          sent := sent + [turns[i].id];
        }
      }
      assert turns[..|turns|] == turns;
    }

    /** One turn: dispatch_request with the handling of a send that raises. */
    method DispatchTurn(turn: Turn) returns (send: bool)
      requires Valid()
      modifies this
      ensures Valid() && View() == TakeTurn(old(View()), turn)
      ensures send == Sends(old(View()), turn.id, turn.online, turn.now)
    {
      send := DispatchRequest(turn.id, turn.online, turn.now);
      if send && turn.raised {
        MarkUnknownRequest(turn.id, "agent_disconnect", "Agent connection dropped while dispatching", turn.now);
      }
    }

    method MarkUnknownRequest(id: string, code: string, message: string, now: int)
      requires Valid()
      modifies this
      ensures Valid() && RequestLife.Later(old(View()), View())
      ensures View() == MarkUnknown(old(View()), id, code, message, now)
    {
      RequestLife.StepKeepsInv(View(), MarkUnknownOp(id, code, message, now));
      if id in requests {
        requests := requests[id := LostRow(requests[id], code, message, now)];
      }
    }

    method MarkNodeUnknown(node: string, now: int)
      requires Valid()
      modifies this
      ensures Valid() && RequestLife.Later(old(View()), View())
      ensures View() == MarkUnknownForNode(old(View()), node, now)
      ensures RequestFields.LostWithNode(old(View()), View(), node, now)
    {
      RequestFields.MarkedForNode(View(), node, now);
      ghost var op := MarkUnknownForNodeOp(node, now);
      RequestLife.StepKeepsInv(View(), op);
      requests := map id | id in requests :: ClosedRow(requests[id], node, now);
      assert View() == Apply(old(View()), op);
    }

    method AcceptRequest(node: string, id: string, accepted: bool, code: Option<string>, message: Option<string>,
                         now: int)
      requires Valid()
      modifies this
      ensures Valid() && RequestLife.Later(old(View()), View())
      ensures View() == Acknowledge(old(View()), node, id, accepted, code, message, now)
    {
      ghost var op := AcknowledgeOp(node, id, accepted, code, message, now);
      RequestLife.StepKeepsInv(View(), op);
      if id in requests && requests[id].node == node {
        requests := requests[id := AnsweredRow(requests[id], accepted, code, message, now)];
      }
      assert View() == Apply(old(View()), op);
    }

    method ProgressRequest(node: string, id: string, now: int)
      requires Valid()
      modifies this
      ensures Valid() && RequestLife.Later(old(View()), View())
      ensures View() == Progress(old(View()), node, id, now)
    {
      ghost var op := ProgressOp(node, id, now);
      RequestLife.StepKeepsInv(View(), op);
      if id in requests && requests[id].node == node {
        requests := requests[id := RunningRow(requests[id], now)];
      }
      assert View() == Apply(old(View()), op);
    }

    /** `change` is what is handed on to the node's address history. */
    method FinishRequest(node: string, id: string, report: Report, now: int) returns (change: Option<Change>)
      requires Valid()
      modifies this
      ensures Valid() && RequestLife.Later(old(View()), View())
      ensures change == ChangeOf(old(View()), node, id, report)
      ensures View() == Finish(old(View()), node, id, report, now)
    {
      ghost var op := FinishOp(node, id, report, now);
      RequestLife.StepKeepsInv(View(), op);
      var success, code, message, text := Bounded(report);
      change := None;
      if id in requests && requests[id].node == node && !Terminal(requests[id].status) {
        if requests[id].action.ChangeIp? {
          change := Some(Change(node, id, success, code, message, report.text));
        }
        StoreResult(node, id, success, if success then None else code, if success then None else message, text, now);
      }
      assert View() == Apply(old(View()), op);
    }

    /** What is kept of a report whose text is too long. */
    static method Bounded(report: Report)
      returns (success: bool, code: Option<string>, message: Option<string>, text: string)
      ensures Report(success, code, message, text) == if TooLarge(report) then TOO_LARGE else report
    {
      success, code, message, text := report.success, report.code, report.message, report.text;
      if |text| > RESULT_LIMIT {
        text := "{\"error\":\"result_too_large\"}";
        success := false;
        code, message := Some("result_too_large"), Some("Agent result exceeded the 64 KiB limit");
      }
    }

    /** The transaction of finish_request: the row and its one result. */
    method StoreResult(node: string, id: string, success: bool, code: Option<string>, message: Option<string>,
                       text: string, now: int)
      requires id in requests
      modifies this
      ensures var kept := Report(success, code, message, text);
        && requests == old(requests)[id := FinishedRow(old(requests)[id], kept, now)]
        && results == old(results) + [ResultRowOf(id, node, kept, now)]
    {
      requests := requests[id := requests[id].(status := if success then Succeeded else Failed,
                                               errorCode := code, errorMessage := message, result := Some(text),
                                               finishedAt := Some(now), updatedAt := now)];
      results := results + [ResultRow(id, node, success, code, message, text, now)];
    }

    /** reconcile_result: its own look at the row changes nothing that finish_request does not check again. */
    method ReconcileResult(node: string, id: string, report: Report, now: int) returns (change: Option<Change>)
      requires Valid()
      modifies this
      ensures Valid() && RequestLife.Later(old(View()), View())
      ensures View() == Finish(old(View()), node, id, report, now)
      ensures change == ChangeOf(old(View()), node, id, report)
    {
      if id !in requests || requests[id].node != node {
        RequestLife.StepKeepsInv(View(), FinishOp(node, id, report, now));
        return None;
      }
      change := FinishRequest(node, id, report, now);
    }

    method ExpireRequests(now: int)
      requires Valid()
      modifies this
      ensures Valid() && RequestLife.Later(old(View()), View())
      ensures View() == ExpireDue(old(View()), now)
      ensures RequestFields.DueOnes(old(View()), View(), now)
    {
      RequestFields.DueAreExpired(View(), now);
      RequestLife.StepKeepsInv(View(), ExpireOp(now));
      ExpiryInTwoUpdates(View(), now);
      requests := ExpireQueued(requests, now);
      requests := TimeOutLost(requests, now);
      assert View() == Apply(old(View()), ExpireOp(now));
    }
  }
}
