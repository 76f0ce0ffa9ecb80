/**
 * Control plane, one node's agent, and the reconnecting link between them
 * (server/app/action_service.py, server/app/gateway.py, agent/cmd/vps-agent/main.go).
 * The other nodes' agents are not trusted: they may send anything at any time.
 *
 * Frames from server to agent are carried at most once by a link, so each command on its way is
 * one `Carried`. Messages from agent to server are a growing set: a message that is never
 * delivered is lost, one delivered twice is a duplicate, and both are allowed.
 */
module Protocol {
  import opened Basics
  import R = Requests
  import J = Journals
  import opened Executors

  /** `helloSize` is the size of the hello that reports a journal, `reportSize` that of the message with one result. */
  datatype Setup = Setup(node: string, journal: J.Config, helloSize: seq<J.Entry> -> nat, reportSize: R.Report -> nat)

  const MESSAGE_LIMIT := 256 * 1024
  const RECONCILE_LIMIT := 200
  const QUEUE_SIZE := 128

  /** Where a command is between the table and the call of Execute. */
  datatype Place =
    | Sending(link: nat)     // a server coroutine is about to write the frame
    | OnWire(link: nat)
    | Checking(link: nat)    // handleCommand before its validation
    | Acking(link: nat)      // handleCommand before its acknowledgement

  datatype Carried = Carried(cmd: Command, place: Place)

  datatype Message =
    | Ack(request: string, accepted: bool, code: Option<string>, message: Option<string>)
    | Report(request: string, report: R.Report)

  datatype Finished = Finished(request: string, result: Result)

  /**
   * `sent`, `executed` and `returned` are history: frames written, calls of Execute, and the
   * result each call returns, noted when it is decided.
   */
  datatype System = System(
    store: R.Store,
    registered: Option<nat>,
    links: set<nat>,
    carried: map<nat, Carried>,
    exec: State,
    queue: seq<Finished>,
    up: set<Message>,
    sent: seq<string>,
    executed: seq<string>,
    returned: map<string, Result>)

  const START := System(R.EMPTY, None, {}, map[], IDLE, [], {}, [], [], map[])

  /** objectValue: the wire carries an object, whatever the action returned. */
  function ObjectText(payload: string): string {
    if payload == "" || payload == "null" then "{}"
    else if payload[0] == '{' then payload
    else "{\"value\":" + payload + "}"
  }

  /** commandResultPayload */
  function ReportOf(r: Result): R.Report {
    R.Report(r.state == "succeeded", Some(r.code), Some(r.message), ObjectText(r.payload))
  }

  /** The agent can say hello: its message is within the limit, and so is the number of its reports. */
  predicate CanDial(u: Setup, es: seq<J.Entry>) {
    |es| <= RECONCILE_LIMIT && u.helloSize(es) <= MESSAGE_LIMIT
  }

  /** The agent can write the message with this result. */
  predicate Writable(u: Setup, r: R.Report) {
    u.reportSize(r) <= MESSAGE_LIMIT
  }

  predicate Within(text: Option<string>, limit: nat) {
    text.Some? ==> |text.value| <= limit
  }

  /**
   * The control plane accepts the payload of a message; one that it does not accept ends the connection or is
   * skipped.
   */
  predicate Acceptable(m: Message) {
    match m
    case Ack(_, _, code, message) => Within(code, 100) && Within(message, 1000)
    case Report(_, report) => Within(report.code, 100) && Within(report.message, 2000)
  }

  datatype Event =
    | Table(op: R.Op)                                             // every other step of the table
    | DispatchMine(id: string, now: int, frame: nat)
    | WriteFrame(frame: nat, delivered: bool, raised: bool, now: int)
    | Deliver(message: Message, now: int)
    | Dial(link: nat)
    | Register(link: nat)
    | Unregister(now: int)
    | DropLink(link: nat)
    | ServerRestart
    | Receive(frame: nat)
    | Check(frame: nat, valid: bool, rejectCode: string, rejectText: string)
    | SendAck(frame: nat, delivered: bool, raised: bool, thread: nat)
    | Execute(thread: nat, choice: Choice)
    | Collect(thread: nat, enqueue: bool)
    | SendQueued(delivered: bool, raised: bool)
    | Replay(entry: nat)
    | Crash(fileLost: bool)

  /** The table steps that do not involve this node's agent. */
  predicate Elsewhere(me: string, s: R.Store, op: R.Op) {
    match op
    case DispatchOp(id, online, now) => id in s.requests && R.Sends(s, id, online, now) ==> s.requests[id].node != me
    case AcknowledgeOp(node, _, _, _, _, _) => node != me
    case FinishOp(node, _, _, _) => node != me
    case _ => true
  }

  function Without<V>(m: map<nat, V>, k: nat): map<nat, V> {
    m - {k}
  }

  /** What a lost link takes with it. */
  function Undropped(carried: map<nat, Carried>, links: set<nat>): map<nat, Carried> {
    map f | f in carried && (carried[f].place.OnWire? ==> carried[f].place.link in links) :: carried[f]
  }

  function JournalReports(es: seq<J.Entry>): set<Message> {
    set i | 0 <= i < |es| :: Report(es[i].request, ReportOf(ResultOf(es[i])))
  }

  /** What the control plane does with a message of this node. */
  function OpOf(me: string, m: Message, now: int): R.Op {
    match m
    case Ack(id, accepted, code, message) => R.AcknowledgeOp(me, id, accepted, code, message, now)
    case Report(id, report) => R.FinishOp(me, id, report, now)
  }

  /** The result a thread has decided on, if it has got that far. */
  function Decided(pc: Pc): Option<Result> {
    match pc
    case Unlocking(r) => Some(r)
    case Releasing(r) => Some(r)
    case Done(r) => Some(r)
    case _ => None
  }

  function NoteResult(returned: map<string, Result>, exec: State, t: nat): map<string, Result> {
    if t in exec.threads && Decided(exec.threads[t].pc).Some?
    then returned[exec.threads[t].cmd.request := Decided(exec.threads[t].pc).value]
    else returned
  }

  /** The start of dispatch_request, for a request that will be sent. */
  function Dispatched(s: System, id: string, now: int, f: nat): System
    requires id in s.store.requests && s.registered.Some?
  {
    s.(store := R.Dispatch(s.store, id, true, now),
       carried := s.carried[f := Carried(Command(id, s.store.requests[id].action), Sending(s.registered.value))])
  }

  /** The write of a command: it may reach the link or not, and may raise an error either way. */
  function Wrote(s: System, f: nat, delivered: bool): System
    requires f in s.carried && s.carried[f].place.Sending?
  {
    var c := s.carried[f];
    if delivered && c.place.link in s.links
    then s.(carried := s.carried[f := c.(place := OnWire(c.place.link))], sent := s.sent + [c.cmd.request])
    else s.(carried := Without(s.carried, f))
  }

  function Collected(u: Setup, s: System, t: nat, enqueue: bool): System
    requires t in s.exec.threads && s.exec.threads[t].pc.Done?
  {
    var th := s.exec.threads[t];
    s.(exec := Executors.Next(u.journal, s.exec, Retire(t)),
       queue := if enqueue && |s.queue| < QUEUE_SIZE then s.queue + [Finished(th.cmd.request,
                                                                              th.pc.result)] else s.queue)
  }

  /** The validation at the start of handleCommand. */
  function Checked(s: System, f: nat, valid: bool, code: string, text: string): System
    requires f in s.carried
  {
    var c := s.carried[f];
    if valid then s.(carried := s.carried[f := c.(place := Acking(c.place.link))])
    else s.(carried := Without(s.carried, f), up := s.up + {Ack(c.cmd.request, false, Some(code), Some(text))})
  }

  function Next(u: Setup, s: System, ev: Event): System {
    match ev
    case Table(op) =>
      if Elsewhere(u.node, s.store, op) then s.(store := R.Apply(s.store, op)) else s
    case DispatchMine(id, now, f) =>
      if R.Sends(s.store, id, true, now) && s.store.requests[id].node == u.node && s.registered.Some? && f !in s.carried
      then Dispatched(s, id, now, f) else s
    case WriteFrame(f, delivered, raised, now) =>
      if f in s.carried && s.carried[f].place.Sending? then
        var n := Wrote(s, f, delivered);
        if raised then
          n.(store := R.MarkDropped(s.store, s.carried[f].cmd.request, now))
        else n
      else s
    case Deliver(m, now) =>
      if m in s.up && Acceptable(m) then s.(store := R.Apply(s.store, OpOf(u.node, m, now))) else s
    case Dial(link) =>
      if link !in s.links && CanDial(u, s.exec.journal)
      then s.(links := s.links + {link}, up := s.up + JournalReports(s.exec.journal)) else s
    case Register(link) =>
      if link in s.links then s.(registered := Some(link)) else s
    case Unregister(now) =>
      s.(registered := None, store := R.MarkUnknownForNode(s.store, u.node, now))
    case DropLink(link) =>
      s.(links := s.links - {link}, carried := Undropped(s.carried, s.links - {link}))
    case ServerRestart =>
      s.(registered := None, carried := map f | f in s.carried && !s.carried[f].place.Sending? :: s.carried[f])
    case Receive(f) =>
      if f in s.carried && s.carried[f].place.OnWire? && s.carried[f].place.link in s.links
      then s.(carried := s.carried[f := s.carried[f].(place := Checking(s.carried[f].place.link))]) else s
    case Check(f, valid, code, text) =>
      if f in s.carried && s.carried[f].place.Checking? then Checked(s, f, valid, code, text) else s
    case SendAck(f, delivered, raised, t) =>
      if f in s.carried && s.carried[f].place.Acking? && t !in s.exec.threads then
        var c := s.carried[f];
        var rest := s.(carried := Without(s.carried, f),
                       up := if delivered then s.up + {Ack(c.cmd.request, true, None, None)} else s.up);
        if raised then rest
        else rest.(exec := Executors.Next(u.journal, s.exec, Spawn(t, c.cmd)), executed := s.executed + [c.cmd.request])
      else s
    case Execute(t, ch) =>
      var exec := Executors.Next(u.journal, s.exec, Advance(t, ch));
      s.(exec := exec, returned := NoteResult(s.returned, exec, t))
    case Collect(t, enqueue) =>
      if t in s.exec.threads && s.exec.threads[t].pc.Done? then Collected(u, s, t, enqueue) else s
    case SendQueued(delivered, raised) =>
      if s.queue != [] then
        var head, rest := s.queue[0], s.queue[1..];
        s.(queue := if raised && |rest| < QUEUE_SIZE then rest + [head] else rest,
           up := if delivered && Writable(u, ReportOf(head.result))
                 then s.up + {Report(head.request, ReportOf(head.result))} else s.up)
      else s
    case Replay(i) =>
      if i < |s.exec.journal| && Writable(u, ReportOf(ResultOf(s.exec.journal[i])))
      then s.(up := s.up + {Report(s.exec.journal[i].request, ReportOf(ResultOf(s.exec.journal[i])))}) else s
    case Crash(fileLost) =>
      s.(exec := Executors.Next(u.journal, s.exec, Restart(fileLost)), queue := [], links := {},
         carried := map f | f in s.carried && s.carried[f].place.Sending? :: s.carried[f])
  }

  function Run(u: Setup, events: seq<Event>): System {
    if events == [] then START else Next(u, Run(u, events[..|events| - 1]), events[|events| - 1])
  }
}
