/**
 * The control plane's request table: `action_requests` and `action_results`
 * (server/app/action_service.py). Each function below is one SQL transaction, or one
 * stretch of a coroutine without an await, as a function from table to table.
 */
module Requests {
  import opened Basics

  datatype Status =
    | Queued
    | Dispatched
    | Accepted
    | Running
    | Unknown
    | Succeeded
    | Failed
    | TimedOut
    | Expired
    | SkippedOffline
    | Canceled

  predicate InFlight(s: Status) {
    s.Dispatched? || s.Accepted? || s.Running? || s.Unknown?
  }

  predicate Active(s: Status) {
    s.Queued? || InFlight(s)
  }

  predicate Terminal(s: Status) {
    s.Succeeded? || s.Failed? || s.TimedOut? || s.Expired? || s.SkippedOffline? || s.Canceled?
  }

  /** queued < in flight < terminal */
  function Phase(s: Status): nat {
    if s.Queued? then 0 else if InFlight(s) then 1 else 2
  }

  datatype Request = Request(
    node: string,
    action: Action,
    parameters: string,
    status: Status,
    errorCode: Option<string>,
    errorMessage: Option<string>,
    result: Option<string>,
    attempts: nat,
    deadline: int,
    createdAt: int,
    dispatchedAt: Option<int>,
    acceptedAt: Option<int>,
    startedAt: Option<int>,
    finishedAt: Option<int>,
    updatedAt: int)

  datatype ResultRow = ResultRow(
    request: string,
    node: string,
    success: bool,
    errorCode: Option<string>,
    errorMessage: Option<string>,
    result: string,
    createdAt: int)

  datatype Store = Store(requests: map<string, Request>, results: seq<ResultRow>)

  const EMPTY := Store(map[], [])

  /** What an agent reports about a finished command. */
  datatype Report = Report(success: bool, code: Option<string>, message: Option<string>, text: string)

  const RESULT_LIMIT: nat := 64 * 1024
  const TOO_LARGE := Report(false, Some("result_too_large"), Some("Agent result exceeded the 64 KiB limit"),
                            "{\"error\":\"result_too_large\"}")

  /** The report as it is stored: oversized ones are replaced, successes carry no error. */
  function Stored(r: Report): Report {
    if |r.text| > RESULT_LIMIT then TOO_LARGE
    else if r.success then r.(code := None, message := None)
    else r
  }

  datatype Creation = Creation(
    id: string,
    node: string,
    nodeKnown: bool,
    action: Action,
    parameters: Option<string>,
    online: bool,
    queueIfOffline: bool,
    now: int,
    ttl: nat)

  datatype CreateReply = Inserted | Existing | Refused(code: string)

  predicate BusyOn(requests: map<string, Request>, node: string) {
    exists id ::
      id in requests && requests[id].node == node && StateChanging(requests[id].action) && Active(requests[id].status)
  }

  function NewRequest(c: Creation): Request
    requires c.parameters.Some?
  {
    var queued := c.online || c.queueIfOffline;
    var ttl := if LongRunning(c.action) && c.ttl < 1800 then 1800 else c.ttl;
    Request(c.node, c.action, c.parameters.value,
            if queued then Queued else SkippedOffline,
            if queued then None else Some("node_offline"),
            if queued then None else Some("Agent is offline; request was not queued"),
            None, 0, c.now + ttl, c.now, None, None, None, None, c.now)
  }

  /** The checks of create_request in the order they are made. */
  function CreateReplyOf(s: Store, c: Creation): CreateReply {
    if !Supported(c.action) || c.parameters.None? then Refused("invalid_parameters")
    else if !c.nodeKnown then Refused("node_not_found")
    else if c.id in s.requests then
      if s.requests[c.id].action != c.action || s.requests[c.id].parameters != c.parameters.value
      then Refused("request_duplicate") else Existing
    else if StateChanging(c.action) && BusyOn(s.requests, c.node) then Refused("action_busy")
    else Inserted
  }

  function Create(s: Store, c: Creation): Store {
    if CreateReplyOf(s, c).Inserted? then s.(requests := s.requests[c.id := NewRequest(c)]) else s
  }

  /** Keeps a time that is already set. */
  function Coalesce(t: Option<int>, now: int): Option<int> {
    if t.Some? then t else Some(now)
  }

  function ExpiredRow(r: Request, queued: bool, now: int): Request {
    r.(status := if queued then Expired else TimedOut,
       errorCode := Some(if queued then "request_expired" else "action_timeout"),
       errorMessage := Some("Request deadline elapsed"), finishedAt := Some(now), updatedAt := now)
  }

  /** _mark_expired: an UPDATE with no guard on the status. */
  function MarkExpired(s: Store, id: string, queued: bool, now: int): Store {
    if id in s.requests then s.(requests := s.requests[id := ExpiredRow(s.requests[id], queued, now)]) else s
  }

  /** Whether dispatch_request reaches the send: the row is queued, in time, and its node is online. */
  predicate Sends(s: Store, id: string, online: bool, now: int) {
    id in s.requests && s.requests[id].status.Queued? && now < s.requests[id].deadline && online
  }

  function DispatchedRow(r: Request, now: int): Request {
    r.(status := Dispatched, attempts := r.attempts + 1, dispatchedAt := Coalesce(r.dispatchedAt, now),
       updatedAt := now)
  }

  function Dispatch(s: Store, id: string, online: bool, now: int): Store {
    if id !in s.requests || !s.requests[id].status.Queued? then s
    else if s.requests[id].deadline <= now then MarkExpired(s, id, true, now)
    else if !online then s
    else s.(requests := s.requests[id := DispatchedRow(s.requests[id], now)])
  }

  predicate Lost(s: Status) {
    s.Dispatched? || s.Accepted? || s.Running?
  }

  function LostRow(r: Request, code: string, message: string, now: int): Request {
    if Lost(r.status)
    then r.(status := Unknown, errorCode := Some(code), errorMessage := Some(message), updatedAt := now)
    else r
  }

  function MarkUnknown(s: Store, id: string, code: string, message: string, now: int): Store {
    if id in s.requests then s.(requests := s.requests[id := LostRow(s.requests[id], code, message, now)]) else s
  }

  /** A send that raised. */
  function MarkDropped(s: Store, id: string, now: int): Store {
    MarkUnknown(s, id, "agent_disconnect", "Agent connection dropped while dispatching", now)
  }

  function ClosedRow(r: Request, node: string, now: int): Request {
    if r.node == node then LostRow(r, "result_unknown", "Agent connection closed before a final result", now) else r
  }

  function MarkUnknownForNode(s: Store, node: string, now: int): Store {
    s.(requests := map id | id in s.requests :: ClosedRow(s.requests[id], node, now))
  }

  /** Python's `value or default`: an empty text counts as missing. */
  function OrDefault(value: Option<string>, default: string): Option<string> {
    if value.None? || value.value == "" then Some(default) else value
  }

  function AcceptedRow(r: Request, now: int): Request {
    if r.status.Dispatched? || r.status.Unknown?
    then r.(status := Accepted, acceptedAt := Coalesce(r.acceptedAt, now),
            errorCode := None, errorMessage := None, updatedAt := now)
    else r
  }

  function RejectedRow(r: Request, code: Option<string>, message: Option<string>, now: int): Request {
    if r.status.Succeeded? || r.status.Failed? || r.status.TimedOut? || r.status.Expired? || r.status.Canceled?
    then r
    else r.(status := Failed, errorCode := OrDefault(code, "agent_rejected"),
            errorMessage := OrDefault(message, "Agent rejected the action"), finishedAt := Some(now), updatedAt := now)
  }

  function AnsweredRow(r: Request, accepted: bool, code: Option<string>, message: Option<string>, now: int): Request {
    if accepted then AcceptedRow(r, now) else RejectedRow(r, code, message, now)
  }

  function Acknowledge(s: Store, node: string, id: string, accepted: bool,
                       code: Option<string>, message: Option<string>, now: int): Store {
    if id !in s.requests || s.requests[id].node != node then s
    else
      var r := s.requests[id];
      s.(requests := s.requests[id := AnsweredRow(r, accepted, code, message, now)])
  }

  function RunningRow(r: Request, now: int): Request {
    if r.status.Dispatched? || r.status.Accepted? || r.status.Unknown?
    then r.(status := Running, startedAt := Coalesce(r.startedAt, now), updatedAt := now)
    else r
  }

  function Progress(s: Store, node: string, id: string, now: int): Store {
    if id !in s.requests || s.requests[id].node != node then s
    else s.(requests := s.requests[id := RunningRow(s.requests[id], now)])
  }

  predicate Finishes(s: Store, node: string, id: string) {
    id in s.requests && s.requests[id].node == node && !Terminal(s.requests[id].status)
  }

  function FinishedRow(r: Request, kept: Report, now: int): Request {
    r.(status := if kept.success then Succeeded else Failed, errorCode := kept.code, errorMessage := kept.message,
       result := Some(kept.text), finishedAt := Some(now), updatedAt := now)
  }

  function ResultRowOf(id: string, node: string, kept: Report, now: int): ResultRow {
    ResultRow(id, node, kept.success, kept.code, kept.message, kept.text, now)
  }

  function Finish(s: Store, node: string, id: string, report: Report, now: int): Store {
    if !Finishes(s, node, id) then s
    else
      var r := s.requests[id];
      var kept := Stored(report);
      Store(s.requests[id := FinishedRow(r, kept, now)], s.results + [ResultRowOf(id, node, kept, now)])
  }

  /** What finish_request hands to record_ip_change: the result as it came, the error too unless it was too large. */
  datatype Change =
    Change(node: string, request: string, success: bool, code: Option<string>, message: Option<string>, text: string)

  predicate TooLarge(r: Report) {
    |r.text| > RESULT_LIMIT
  }

  function ChangeOf(s: Store, node: string, id: string, report: Report): Option<Change> {
    if Finishes(s, node, id) && s.requests[id].action.ChangeIp? then
      var kept := if TooLarge(report) then TOO_LARGE else report;
      Some(Change(node, id, kept.success, kept.code, kept.message, report.text))
    else None
  }

  function DueRow(r: Request, now: int): Request {
    if r.deadline <= now && r.status.Queued? then
      ExpiredRow(r, true, now).(errorMessage := Some("Request expired before dispatch"))
    else if r.deadline <= now && Lost(r.status) then
      ExpiredRow(r, false, now).(errorMessage := Some("Action exceeded its deadline"))
    else r
  }

  function ExpireDue(s: Store, now: int): Store {
    s.(requests := map id | id in s.requests :: DueRow(s.requests[id], now))
  }

  /** Everything that can happen to the table, one atomic step each. */
  datatype Op =
    | CreateOp(creation: Creation)
    | DispatchOp(id: string, online: bool, now: int)
    | MarkUnknownOp(id: string, code: string, message: string, now: int)
    | MarkUnknownForNodeOp(node: string, now: int)
    | AcknowledgeOp(node: string, id: string, accepted: bool, rejectCode: Option<string>, rejectMessage: Option<string>,
                    now: int)
    | ProgressOp(node: string, id: string, now: int)
    | FinishOp(node: string, id: string, report: Report, now: int)
    | ExpireOp(now: int)

  function Apply(s: Store, op: Op): Store {
    match op
    case CreateOp(c) => Create(s, c)
    case DispatchOp(id, online, now) => Dispatch(s, id, online, now)
    case MarkUnknownOp(id, code, message, now) => MarkUnknown(s, id, code, message, now)
    case MarkUnknownForNodeOp(node, now) => MarkUnknownForNode(s, node, now)
    case AcknowledgeOp(node, id, accepted, code, message, now) => Acknowledge(s, node, id, accepted, code, message, now)
    case ProgressOp(node, id, now) => Progress(s, node, id, now)
    case FinishOp(node, id, report, now) => Finish(s, node, id, report, now)
    case ExpireOp(now) => ExpireDue(s, now)
  }

  /** The table after a sequence of steps. */
  function After(s: Store, ops: seq<Op>): Store {
    if ops == [] then s else Apply(After(s, ops[..|ops| - 1]), ops[|ops| - 1])
  }
}
