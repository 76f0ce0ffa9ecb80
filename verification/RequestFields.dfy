/**
 * What each operation on the request table does, row by row and field by field (server/app/action_service.py), stated
 * without the functions that define it.
 */
module RequestFields {
  import opened Basics
  import opened Requests
  import RequestLife

  /** Every request but this one, and every result, is as it was. */
  ghost predicate OnlyRow(s: Store, t: Store, id: string) {
    && t.results == s.results && t.requests.Keys == s.requests.Keys
    && forall x :: x in s.requests && x != id ==> t.requests[x] == s.requests[x]
  }

  predicate OnItsWay(r: Request) {
    r.status == Dispatched || r.status == Accepted || r.status == Running
  }

  /** Exactly the requests of this node that were on their way are unknown now. */
  ghost predicate LostWithNode(s: Store, t: Store, node: string, now: int) {
    && t.results == s.results && t.requests.Keys == s.requests.Keys
    && (forall id :: id in s.requests && s.requests[id].node == node && OnItsWay(s.requests[id]) ==>
          t.requests[id] == s.requests[id].(
            status := Unknown, errorCode := Some("result_unknown"),
            errorMessage := Some("Agent connection closed before a final result"), updatedAt := now))
    && (forall id :: id in s.requests && !(s.requests[id].node == node && OnItsWay(s.requests[id])) ==>
          t.requests[id] == s.requests[id])
  }

  lemma MarkedForNode(s: Store, node: string, now: int)
    ensures LostWithNode(s, MarkUnknownForNode(s, node, now), node, now)
  {
  }

  lemma MarkedUnknown(s: Store, id: string, code: string, message: string, now: int)
    requires id in s.requests
    ensures var r, t := s.requests[id], MarkUnknown(s, id, code, message, now);
      && OnlyRow(s, t, id)
      && t.requests[id] ==
         if OnItsWay(r)
         then r.(status := Unknown, errorCode := Some(code), errorMessage := Some(message), updatedAt := now) else r
  {
  }

  function UnsentRow(r: Request, now: int): Request {
    r.(status := Expired, errorCode := Some("request_expired"),
       errorMessage := Some("Request expired before dispatch"), finishedAt := Some(now), updatedAt := now)
  }

  function OverdueRow(r: Request, now: int): Request {
    r.(status := TimedOut, errorCode := Some("action_timeout"),
       errorMessage := Some("Action exceeded its deadline"), finishedAt := Some(now), updatedAt := now)
  }

  /** Due requests that were queued or on their way end, each in its own way, and all others are as they were. */
  ghost predicate DueOnes(s: Store, t: Store, now: int) {
    && t.results == s.results && t.requests.Keys == s.requests.Keys
    && (forall id :: id in s.requests && s.requests[id].deadline <= now && s.requests[id].status == Queued ==>
          t.requests[id] == UnsentRow(s.requests[id], now))
    && (forall id :: id in s.requests && s.requests[id].deadline <= now && OnItsWay(s.requests[id]) ==>
          t.requests[id] == OverdueRow(s.requests[id], now))
    && (forall id :: id in s.requests
                     && (now < s.requests[id].deadline
                         || !(s.requests[id].status == Queued || OnItsWay(s.requests[id]))) ==>
          t.requests[id] == s.requests[id])
  }

  lemma DueAreExpired(s: Store, now: int)
    ensures DueOnes(s, ExpireDue(s, now), now)
  {
    forall id | id in s.requests
      ensures DueRow(s.requests[id], now) ==
        if now < s.requests[id].deadline then s.requests[id]
        else if s.requests[id].status == Queued then UnsentRow(s.requests[id], now)
        else if OnItsWay(s.requests[id]) then OverdueRow(s.requests[id], now) else s.requests[id]
    {
      DueRowIs(s.requests[id], now);
    }
  }

  lemma DueRowIs(r: Request, now: int)
    ensures DueRow(r, now) ==
      if now < r.deadline then r
      else if r.status == Queued then UnsentRow(r, now) else if OnItsWay(r) then OverdueRow(r, now) else r
  {
  }

  /** Dispatching expires a queued request that is due, sends one whose node is on line, and leaves any other alone. */
  lemma Dispatching(s: Store, id: string, online: bool, now: int)
    requires id in s.requests
    ensures var r, t := s.requests[id], Dispatch(s, id, online, now);
      && OnlyRow(s, t, id)
      && (r.status == Queued && r.deadline <= now ==>
            t.requests[id] == r.(status := Expired, errorCode := Some("request_expired"),
                                 errorMessage := Some("Request deadline elapsed"), finishedAt := Some(now),
                                 updatedAt := now))
      && (r.status == Queued && now < r.deadline && online ==>
            t.requests[id] == r.(status := Dispatched, attempts := r.attempts + 1, updatedAt := now,
                                 dispatchedAt := if r.dispatchedAt == None then Some(now) else r.dispatchedAt))
      && (r.status != Queued || (now < r.deadline && !online) ==> t.requests[id] == r)
      && (Sends(s, id, online, now) <==> r.status == Queued && now < r.deadline && online)
  {
  }

  /** A positive acknowledgement accepts what was dispatched or unknown; a negative one fails all but what has ended. */
  lemma Acknowledging(s: Store, node: string, id: string, accepted: bool, code: Option<string>, message: Option<string>,
                      now: int)
    requires id in s.requests
    ensures var r, t := s.requests[id], Acknowledge(s, node, id, accepted, code, message, now);
      && OnlyRow(s, t, id)
      && (r.node != node ==> t == s)
      && (r.node == node && accepted ==>
            t.requests[id] ==
            if r.status == Dispatched || r.status == Unknown
            then r.(status := Accepted, acceptedAt := if r.acceptedAt == None then Some(now) else r.acceptedAt,
                    errorCode := None, errorMessage := None, updatedAt := now)
            else r)
      && (r.node == node && !accepted ==>
            if r.status == Queued || r.status == Unknown || r.status == SkippedOffline || OnItsWay(r)
            then t.requests[id] ==
                 r.(status := Failed, finishedAt := Some(now), updatedAt := now,
                    errorCode := if code == None || code == Some("") then Some("agent_rejected") else code,
                    errorMessage :=
                      if message == None || message == Some("") then Some("Agent rejected the action") else message)
            else t.requests[id] == r)
  {
  }

  lemma Progressing(s: Store, node: string, id: string, now: int)
    requires id in s.requests
    ensures var r, t := s.requests[id], Progress(s, node, id, now);
      && OnlyRow(s, t, id)
      && t.requests[id] ==
         if r.node == node && (r.status == Dispatched || r.status == Accepted || r.status == Unknown)
         then r.(status := Running, updatedAt := now,
                 startedAt := if r.startedAt == None then Some(now) else r.startedAt)
         else r
  {
  }

  /** A request of this node that has not ended. */
  predicate OpenOn(r: Request, node: string) {
    r.node == node && (r.status == Queued || r.status == Unknown || OnItsWay(r))
  }

  /**
   * The first result of the request's own node is stored in its row and as one result row, both saying the same:
   * a success has no error, and a text of more than 64 KiB is replaced and counts as a failure.
   */
  lemma Finishing(s: Store, node: string, id: string, report: Report, now: int)
    requires id in s.requests && OpenOn(s.requests[id], node)
    ensures var r, t := s.requests[id], Finish(s, node, id, report, now);
      && (forall x :: x in s.requests && x != id ==> x in t.requests && t.requests[x] == s.requests[x])
      && t.requests.Keys == s.requests.Keys && |t.results| == |s.results| + 1 && t.results[..|s.results|] == s.results
      && var e, row := t.requests[id], t.results[|s.results|];
      && e == r.(status := e.status, errorCode := e.errorCode, errorMessage := e.errorMessage, result := e.result,
                 finishedAt := Some(now), updatedAt := now)
      && row == ResultRow(id, node, row.success, e.errorCode, e.errorMessage, row.result, now)
      && e.result == Some(row.result) && e.status == (if row.success then Succeeded else Failed)
      && (|report.text| <= 65536 ==>
            && row.success == report.success && row.result == report.text
            && row.errorCode == (if report.success then None else report.code)
            && row.errorMessage == (if report.success then None else report.message))
      && (|report.text| > 65536 ==>
            && !row.success && row.errorCode == Some("result_too_large")
            && row.result == "{\"error\":\"result_too_large\"}"
            && row.errorMessage == Some("Agent result exceeded the 64 KiB limit"))
  {
  }

  lemma NotFinishing(s: Store, node: string, id: string, report: Report, now: int)
    requires id in s.requests ==> !OpenOn(s.requests[id], node)
    ensures Finish(s, node, id, report, now) == s && ChangeOf(s, node, id, report) == None
  {
  }

  /** What goes on to the address history: exactly an address change that was stored, with the text as it came. */
  lemma HandingOn(s: Store, node: string, id: string, report: Report)
    requires id in s.requests && OpenOn(s.requests[id], node)
    ensures var change := ChangeOf(s, node, id, report);
      && (s.requests[id].action != ChangeIp ==> change == None)
      && (s.requests[id].action == ChangeIp ==>
            && change.Some? && change.value.node == node && change.value.request == id
            && change.value.text == report.text
            && (|report.text| <= 65536 ==>
                  && change.value.success == report.success
                  && change.value.code == report.code && change.value.message == report.message)
            && (|report.text| > 65536 ==> !change.value.success && change.value.code == Some("result_too_large")))
  {
  }

  // Creation.

  predicate Changing(a: Action) {
    || a == WarpOn || a == WarpOff || a == ChangeIp || a == RestartXui || a == UpgradeAgent || a == InstallWarp
    || a == InstallXui || a == BackupXui || a == RestoreXui
  }

  predicate Slow(a: Action) {
    a == InstallWarp || a == InstallXui || a == BackupXui || a == RestoreXui
  }

  /** A new request is queued if its node is on line or may be waited for; slow actions live half an hour at least. */
  lemma Creating(s: Store, c: Creation)
    requires CreateReplyOf(s, c) == Inserted
    ensures var t := Create(s, c);
      && t.results == s.results && t.requests.Keys == s.requests.Keys + {c.id}
      && (forall x :: x in s.requests ==> t.requests[x] == s.requests[x])
      && var r := t.requests[c.id];
      && r.node == c.node && r.action == c.action && c.parameters == Some(r.parameters)
      && r.createdAt == c.now && r.updatedAt == c.now && r.attempts == 0 && r.result == None
      && r.dispatchedAt == None && r.acceptedAt == None && r.startedAt == None && r.finishedAt == None
      && c.now + c.ttl <= r.deadline && (Slow(c.action) ==> c.now + 1800 <= r.deadline)
      && (r.deadline == c.now + c.ttl || (Slow(c.action) && r.deadline == c.now + 1800))
      && (c.online || c.queueIfOffline ==> r.status == Queued && r.errorCode == None && r.errorMessage == None)
      && (!c.online && !c.queueIfOffline ==>
            && r.status == SkippedOffline && r.errorCode == Some("node_offline")
            && r.errorMessage == Some("Agent is offline; request was not queued"))
  {
  }

  /** In every reachable table at most one request of a node changes state and has not ended. */
  lemma OneBusyRequest(ops: seq<Op>, node: string, x: string, y: string)
    requires var s := After(EMPTY, ops);
      && x in s.requests && Changing(s.requests[x].action) && OpenOn(s.requests[x], node)
      && y in s.requests && Changing(s.requests[y].action) && OpenOn(s.requests[y], node)
    ensures x == y
  {
    RequestLife.AtMostOneActivePerNode(ops, x, y);
  }

  /** A request of this node that changes state and has not ended. */
  ghost predicate Busy(s: Store, node: string) {
    exists id :: id in s.requests && Changing(s.requests[id].action) && OpenOn(s.requests[id], node)
  }

  /** When a request is inserted, when it is one that exists, and the first of the reasons to refuse it. */
  lemma Deciding(s: Store, c: Creation)
    ensures var reply, known := CreateReplyOf(s, c), c.id in s.requests;
      && (c.action.Other? || c.parameters == None <==> reply == Refused("invalid_parameters"))
      && (!c.action.Other? && c.parameters.Some? ==>
            && (reply == Refused("node_not_found") <==> !c.nodeKnown)
            && (c.nodeKnown && known ==>
                  reply == if s.requests[c.id].action == c.action && Some(s.requests[c.id].parameters) == c.parameters
                           then Existing else Refused("request_duplicate"))
            && (c.nodeKnown && !known ==>
                  reply == if Changing(c.action) && Busy(s, c.node) then Refused("action_busy") else Inserted))
      && (reply != Inserted ==> Create(s, c) == s)
  {
    if BusyOn(s.requests, c.node) {
      var id :| id in s.requests && s.requests[id].node == c.node && StateChanging(s.requests[id].action)
                && Active(s.requests[id].status);
      assert Changing(s.requests[id].action) && OpenOn(s.requests[id], c.node);
    }
    if Busy(s, c.node) {
      var id :| id in s.requests && Changing(s.requests[id].action) && OpenOn(s.requests[id], c.node);
      assert StateChanging(s.requests[id].action) && Active(s.requests[id].status);
    }
  }

  /** Acknowledgements, progress and results of requests that are not in the table change nothing. */
  lemma NothingToDo(s: Store, node: string, id: string, accepted: bool, code: Option<string>, message: Option<string>,
                    online: bool, now: int)
    requires id !in s.requests
    ensures Acknowledge(s, node, id, accepted, code, message, now) == s && Progress(s, node, id, now) == s
    ensures Dispatch(s, id, online, now) == s && !Sends(s, id, online, now)
  {
  }
}
