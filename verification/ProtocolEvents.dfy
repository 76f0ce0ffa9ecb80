/** What each event of the protocol does and leaves alone, field by field. */
module ProtocolEvents {
  import opened Basics
  import R = Requests
  import RequestFields
  import J = Journals
  import opened Executors
  import opened Protocol

  // The control plane.

  /** A request of this node that is queued and in time goes out over the registered link. */
  lemma Dispatching(u: Setup, s: System, id: string, now: int, f: nat)
    ensures var n := Protocol.Next(u, s, DispatchMine(id, now, f));
      var goes := id in s.store.requests && s.store.requests[id].status == R.Queued
        && now < s.store.requests[id].deadline && s.store.requests[id].node == u.node && s.registered.Some?
        && f !in s.carried;
      && (!goes ==> n == s)
      && (goes ==>
            && n == s.(store := n.store, carried := n.carried) && RequestFields.OnlyRow(s.store, n.store, id)
            && n.store.requests[id].status == R.Dispatched
            && n.carried == s.carried[f := Carried(Command(id, s.store.requests[id].action),
                                                   Sending(s.registered.value))])
  {
    if id in s.store.requests { RequestFields.Dispatching(s.store, id, true, now); }
  }

  /** A command that is written reaches its link if that is still up; an error makes the request unknown either way. */
  lemma Writing(u: Setup, s: System, f: nat, delivered: bool, raised: bool, now: int)
    requires f in s.carried && s.carried[f].place.Sending?
    ensures var n, c := Protocol.Next(u, s, WriteFrame(f, delivered, raised, now)), s.carried[f];
      && n == s.(store := n.store, carried := n.carried, sent := n.sent)
      && (delivered && c.place.link in s.links ==>
            n.sent == s.sent + [c.cmd.request] && n.carried == s.carried[f := Carried(c.cmd, OnWire(c.place.link))])
      && (!delivered || c.place.link !in s.links ==> n.sent == s.sent && n.carried == s.carried - {f})
      && (!raised || c.cmd.request !in s.store.requests ==> n.store == s.store)
      && (raised && c.cmd.request in s.store.requests ==>
            && RequestFields.OnlyRow(s.store, n.store, c.cmd.request)
            && var row := s.store.requests[c.cmd.request];
            n.store.requests[c.cmd.request] ==
            if RequestFields.OnItsWay(row)
            then row.(status := R.Unknown, errorCode := Some("agent_disconnect"),
                      errorMessage := Some("Agent connection dropped while dispatching"), updatedAt := now)
            else row)
  {
    if s.carried[f].cmd.request in s.store.requests {
      RequestFields.MarkedUnknown(s.store, s.carried[f].cmd.request, "agent_disconnect",
                                  "Agent connection dropped while dispatching", now);
    }
  }

  /** The end of the registered connection. */
  lemma Unregistering(u: Setup, s: System, now: int)
    ensures var n := Protocol.Next(u, s, Unregister(now));
      && n == s.(registered := None, store := n.store)
      && RequestFields.LostWithNode(s.store, n.store, u.node, now)
  {
    RequestFields.MarkedForNode(s.store, u.node, now);
  }

  /** A message takes effect only if it was sent and is acceptable, and then on the table alone, as one of this node. */
  lemma Delivering(u: Setup, s: System, m: Message, now: int)
    ensures var n := Protocol.Next(u, s, Deliver(m, now));
      && n == s.(store := n.store)
      && (m !in s.up ==> n == s)
      && (m in s.up && m.Report? && Acceptable(m) ==> n.store == R.Finish(s.store, u.node, m.request, m.report, now))
      && (m in s.up && m.Ack? && Acceptable(m) ==>
            n.store == R.Acknowledge(s.store, u.node, m.request, m.accepted, m.code, m.message, now))
  {
  }

  // The link and the processes.

  /** What is beyond a limit never gets through: a hello, the message with a result, or the texts of a message. */
  lemma LimitsOnNumbers(u: Setup, s: System, link: nat, m: Message, now: int, delivered: bool, raised: bool)
    ensures |s.exec.journal| > 200 || u.helloSize(s.exec.journal) > 262_144 ==> Protocol.Next(u, s, Dial(link)) == s
    ensures s.queue != [] && u.reportSize(ReportOf(s.queue[0].result)) > 262_144 ==>
      Protocol.Next(u, s, SendQueued(delivered, raised)).up == s.up
    ensures m.Report? && ((m.report.code.Some? && |m.report.code.value| > 100)
                          || (m.report.message.Some? && |m.report.message.value| > 2000)) ==>
      Protocol.Next(u, s, Deliver(m, now)) == s
    ensures m.Ack? && ((m.code.Some? && |m.code.value| > 100) || (m.message.Some? && |m.message.value| > 1000)) ==>
      Protocol.Next(u, s, Deliver(m, now)) == s
  {
  }

  /** With a link go the frames on it, and nothing else. */
  lemma DroppingALink(u: Setup, s: System, link: nat, f: nat)
    ensures var n := Protocol.Next(u, s, DropLink(link));
      && n.links == s.links - {link} && n == s.(links := n.links, carried := n.carried)
      && (f in s.carried && s.carried[f].place == OnWire(link) ==> f !in n.carried)
      && (f in s.carried && (!s.carried[f].place.OnWire? || s.carried[f].place.link in s.links - {link}) ==>
            f in n.carried && n.carried[f] == s.carried[f])
      && (f in n.carried ==> f in s.carried)
  {
  }

  /** An agent that is restarted keeps its journal, if the file is not lost; frames not yet written are the server's. */
  lemma RestartingTheAgent(u: Setup, s: System, fileLost: bool, f: nat)
    ensures var n := Protocol.Next(u, s, Crash(fileLost));
      && n.exec.threads == map[] && n.exec.active == {} && n.exec.holder == None && n.queue == [] && n.links == {}
      && n.exec.journal == (if fileLost then [] else s.exec.journal) && n.exec.starts == s.exec.starts
      && n.store == s.store && n.up == s.up && n.sent == s.sent && n.executed == s.executed && n.returned == s.returned
      && (f in n.carried <==> f in s.carried && s.carried[f].place.Sending?)
      && (f in n.carried ==> n.carried[f] == s.carried[f])
  {
  }

  /** A server that is restarted keeps its table and loses what it was about to write. */
  lemma RestartingTheServer(u: Setup, s: System, f: nat)
    ensures var n := Protocol.Next(u, s, ServerRestart);
      && n == s.(registered := None, carried := n.carried)
      && (f in n.carried <==> f in s.carried && !s.carried[f].place.Sending?)
      && (f in n.carried ==> n.carried[f] == s.carried[f])
  {
  }

  // The agent.

  /** A command off the wire, and its validation: one that is refused is answered at once and goes no further. */
  lemma Validating(u: Setup, s: System, f: nat, valid: bool, code: string, text: string)
    requires f in s.carried && s.carried[f].place.Checking?
    ensures var n, c := Protocol.Next(u, s, Check(f, valid, code, text)), s.carried[f];
      && n == s.(carried := n.carried, up := n.up)
      && (valid ==> n.up == s.up && n.carried == s.carried[f := Carried(c.cmd, Acking(c.place.link))])
      && (!valid ==>
            n.up == s.up + {Ack(c.cmd.request, false, Some(code), Some(text))} && n.carried == s.carried - {f})
  {
  }

  /** A command that is acknowledged is handed to Execute; if the acknowledgement cannot be written it is not. */
  lemma Acknowledging(u: Setup, s: System, f: nat, delivered: bool, raised: bool, t: nat)
    requires f in s.carried && s.carried[f].place.Acking? && t !in s.exec.threads
    ensures var n, c := Protocol.Next(u, s, SendAck(f, delivered, raised, t)), s.carried[f];
      && n == s.(carried := s.carried - {f}, up := n.up, exec := n.exec, executed := n.executed)
      && n.up == (if delivered then s.up + {Ack(c.cmd.request, true, None, None)} else s.up)
      && (raised ==> n.exec == s.exec && n.executed == s.executed)
      && (!raised ==>
            && n.executed == s.executed + [c.cmd.request]
            && n.exec == s.exec.(threads := s.exec.threads[t := Thread(c.cmd, Looking)]))
  {
  }

  /** A call that has returned gives its result to the queue, if there is room and it does not give up. */
  lemma Collecting(u: Setup, s: System, t: nat, enqueue: bool)
    requires t in s.exec.threads && s.exec.threads[t].pc.Done?
    ensures var n, th := Protocol.Next(u, s, Collect(t, enqueue)), s.exec.threads[t];
      && n == s.(exec := s.exec.(threads := s.exec.threads - {t}), queue := n.queue)
      && n.queue == if enqueue && |s.queue| < 128 then s.queue + [Finished(th.cmd.request, th.pc.result)] else s.queue
  {
  }

  /** The first result of the queue: it arrives, or is lost, or goes back to the end if an error is seen. */
  lemma SendingAResult(u: Setup, s: System, delivered: bool, raised: bool)
    requires s.queue != [] && |s.queue| <= 128 && u.reportSize(ReportOf(s.queue[0].result)) <= 262_144
    ensures var n := Protocol.Next(u, s, SendQueued(delivered, raised));
      && n == s.(queue := n.queue, up := n.up)
      && n.queue == (if raised then s.queue[1..] + [s.queue[0]] else s.queue[1..])
      && n.up == if delivered then s.up + {Report(s.queue[0].request, ReportOf(s.queue[0].result))} else s.up
  {
  }
}
