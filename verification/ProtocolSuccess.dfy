/** A request shown as succeeded has really run, once, on its node. */
module ProtocolSuccess {
  import opened Basics
  import R = Requests
  import Life = RequestLife
  import J = Journals
  import opened Executors
  import opened Protocol
  import P = ProtocolProofs

  /** A thread whose action has started, or that cannot report success. */
  predicate HonestThread(x: State, th: Thread) {
    && (th.pc.Running? || th.pc.Recording? ==> P.Started(x, th.cmd.request))
    && (th.pc.Refusing? ==> th.pc.refused.state != "succeeded")
  }

  predicate HonestResult(x: State, id: string, r: Result) {
    r.state == "succeeded" ==> P.Started(x, id)
  }

  ghost predicate RanOk(s: System) {
    && (forall t :: t in s.exec.threads ==> HonestThread(s.exec, s.exec.threads[t]))
    && (forall id :: id in s.returned ==> HonestResult(s.exec, id, s.returned[id]))
  }

  lemma StartsGrow(x: State, n: State, id: string)
    requires x.starts <= n.starts && P.Started(x, id)
    ensures P.Started(n, id)
  {
    var i :| 0 <= i < |x.starts| && x.starts[i].request == id;
    assert n.starts[i] == x.starts[i];
  }

  lemma StepIsHonest(cfg: J.Config, x: State, t: nat, ch: Choice)
    requires t in x.threads && HonestThread(x, x.threads[t])
    requires Decided(x.threads[t].pc).None? ==> !J.Holds(x.journal, x.threads[t].cmd.request)
    ensures var n := Step(cfg, x, t, ch);
      && x.starts <= n.starts && HonestThread(n, n.threads[t])
      && (Decided(x.threads[t].pc).None? && Decided(n.threads[t].pc).Some? ==>
            HonestResult(n, x.threads[t].cmd.request, Decided(n.threads[t].pc).value))
  {
    var n := Step(cfg, x, t, ch);
    if x.threads[t].pc.Starting? {
      assert n.starts[|x.starts|].request == x.threads[t].cmd.request;
    }
  }

  lemma GrownIsHonest(x: State, n: State, th: Thread)
    requires x.starts <= n.starts && HonestThread(x, th)
    ensures HonestThread(n, th)
  {
    if P.Started(x, th.cmd.request) { StartsGrow(x, n, th.cmd.request); }
  }

  lemma GrownResultIsHonest(x: State, n: State, id: string, r: Result)
    requires x.starts <= n.starts && HonestResult(x, id, r)
    ensures HonestResult(n, id, r)
  {
    if P.Started(x, id) { StartsGrow(x, n, id); }
  }

  /** One thread moved: it is honest, and so is the result it has decided on, if it has just done so. */
  lemma MoveKeepsRan(s: System, exec: State, t: nat)
    requires RanOk(s) && t in s.exec.threads && P.ThreadMove(s.exec, exec, t) && s.exec.starts <= exec.starts
    requires HonestThread(exec, exec.threads[t])
    requires forall id :: id in s.returned ==>
      id in P.Moved(s, exec, t).returned && P.Moved(s, exec, t).returned[id] == s.returned[id]
    requires Decided(exec.threads[t].pc).Some? && s.exec.threads[t].cmd.request !in s.returned ==>
      HonestResult(exec, s.exec.threads[t].cmd.request, Decided(exec.threads[t].pc).value)
    ensures RanOk(P.Moved(s, exec, t))
  {
    var n := P.Moved(s, exec, t);
    forall v | v in exec.threads ensures HonestThread(exec, exec.threads[v]) {
      if v != t { GrownIsHonest(s.exec, exec, s.exec.threads[v]); }
    }
    forall id | id in n.returned ensures HonestResult(exec, id, n.returned[id]) {
      if id in s.returned { GrownResultIsHonest(s.exec, exec, id, s.returned[id]); }
    }
  }

  lemma ExecuteKeepsRan(u: Setup, s: System, t: nat, ch: Choice)
    requires P.Inv(u, s) && RanOk(s) && t in s.exec.threads
    ensures RanOk(P.Moved(s, Step(u.journal, s.exec, t, ch), t))
  {
    var exec := Step(u.journal, s.exec, t, ch);
    assert P.ThreadOk(u.node, s, t);
    if Decided(s.exec.threads[t].pc).None? { P.LookupsMiss(u, s, t); }
    if s.exec.threads[t].pc.Claiming? { P.ClaimSucceeds(u, s, t); }
    StepIsHonest(u.journal, s.exec, t, ch);
    P.StepIsThreadMove(u.journal, s.exec, t, ch);
    P.MoveKeepsReturned(u.node, s, exec, t);
    MoveKeepsRan(s, exec, t);
  }

  lemma OthersStartNothing(u: Setup, s: System, ev: Protocol.Event)
    requires !ev.Execute?
    ensures Protocol.Next(u, s, ev).exec.starts == s.exec.starts && Protocol.Next(u, s, ev).returned == s.returned
  {
    if P.OfServer(ev) {
      ServerStartsNothing(u, s, ev);
    } else {
      AgentStartsNothing(u, s, ev);
    }
  }

  lemma ServerStartsNothing(u: Setup, s: System, ev: Protocol.Event)
    requires P.OfServer(ev)
    ensures Protocol.Next(u, s, ev).exec.starts == s.exec.starts && Protocol.Next(u, s, ev).returned == s.returned
  {
  }

  lemma AgentStartsNothing(u: Setup, s: System, ev: Protocol.Event)
    requires !P.OfServer(ev) && !ev.Execute?
    ensures Protocol.Next(u, s, ev).exec.starts == s.exec.starts && Protocol.Next(u, s, ev).returned == s.returned
  {
  }

  lemma OthersMoveNoThread(u: Setup, s: System, ev: Protocol.Event, t: nat)
    requires !ev.Execute? && t in Protocol.Next(u, s, ev).exec.threads
    ensures var th := Protocol.Next(u, s, ev).exec.threads[t];
      if t in s.exec.threads then th == s.exec.threads[t] else th.pc.Looking?
  {
  }

  lemma OthersKeepRan(u: Setup, s: System, ev: Protocol.Event)
    requires RanOk(s) && !ev.Execute?
    ensures RanOk(Protocol.Next(u, s, ev))
  {
    var n := Protocol.Next(u, s, ev);
    OthersStartNothing(u, s, ev);
    forall t | t in n.exec.threads ensures HonestThread(n.exec, n.exec.threads[t]) {
      OthersMoveNoThread(u, s, ev, t);
      if t in s.exec.threads {
        assert HonestThread(s.exec, s.exec.threads[t]);
      }
    }
    forall id | id in n.returned ensures HonestResult(n.exec, id, n.returned[id]) {
      assert HonestResult(s.exec, id, s.returned[id]);
    }
  }

  lemma NextKeepsRan(u: Setup, s: System, ev: Protocol.Event)
    requires P.Inv(u, s) && RanOk(s)
    ensures RanOk(Protocol.Next(u, s, ev))
  {
    if ev.Execute? {
      P.ExecuteIsMove(u, s, ev.thread, ev.choice);
      if ev.thread in s.exec.threads {
        ExecuteKeepsRan(u, s, ev.thread, ev.choice);
      }
    } else {
      OthersKeepRan(u, s, ev);
    }
  }

  lemma {:induction false} ReachableRan(u: Setup, events: seq<Protocol.Event>)
    ensures RanOk(Protocol.Run(u, events))
  {
    if events != [] {
      var before, ev := events[..|events| - 1], events[|events| - 1];
      ReachableRan(u, before);
      P.ReachableInv(u, before);
      NextKeepsRan(u, Protocol.Run(u, before), ev);
    }
  }

  lemma SucceededStarted(u: Setup, s: System, id: string)
    requires P.Inv(u, s) && RanOk(s)
    requires id in s.store.requests && s.store.requests[id].node == u.node && s.store.requests[id].status.Succeeded?
    ensures P.Started(s.exec, id)
  {
    assert Life.HasRow(s.store, id);
    var k :| 0 <= k < |s.store.results| && s.store.results[k].request == id;
    assert Life.Agrees(s.store, k) && s.store.results[k] in s.store.results;
    assert P.RowIsReturned(s, s.store.results[k]);
    assert HonestResult(s.exec, id, s.returned[id]);
  }

  /** A request of this node that the control plane shows as succeeded was started on the agent exactly once. */
  lemma SucceededMeansRunOnce(u: Setup, events: seq<Protocol.Event>, id: string)
    requires var s := Protocol.Run(u, events);
      id in s.store.requests && s.store.requests[id].node == u.node && s.store.requests[id].status.Succeeded?
    ensures var starts := Protocol.Run(u, events).exec.starts;
      exists i :: 0 <= i < |starts| && starts[i].request == id &&
        forall j :: 0 <= j < |starts| && starts[j].request == id ==> j == i
  {
    var s := Protocol.Run(u, events);
    P.ReachableInv(u, events);
    ReachableRan(u, events);
    SucceededStarted(u, s, id);
    P.AtMostOnce(u, events);
    var i :| 0 <= i < |s.exec.starts| && s.exec.starts[i].request == id;
  }
}
