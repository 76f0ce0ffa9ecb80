/** The guarantees are not kept by doing nothing: a queued request can always be brought to its end. */
module ProtocolProgress {
  import opened Basics
  import R = Requests
  import J = Journals
  import Life = RequestLife
  import opened Executors
  import opened Protocol
  import P = ProtocolProofs
  import Solo = ExecutorService

  /** `n` is reached from `s` by `events`. */
  predicate Leads(u: Setup, s: System, events: seq<Protocol.Event>, n: System)
    decreases |events|
  {
    if events == [] then s == n else Leads(u, Protocol.Next(u, s, events[0]), events[1..], n)
  }

  lemma {:induction false} LeadsOn(u: Setup, s: System, first: seq<Protocol.Event>, m: System,
                                   second: seq<Protocol.Event>, n: System)
    requires Leads(u, s, first, m) && Leads(u, m, second, n)
    ensures Leads(u, s, first + second, n)
    decreases |first|
  {
    if first == [] {
      assert first + second == second;
    } else {
      assert (first + second)[1..] == first[1..] + second;
      LeadsOn(u, Protocol.Next(u, s, first[0]), first[1..], m, second, n);
    }
  }

  lemma OneEvent(u: Setup, s: System, ev: Protocol.Event)
    ensures Leads(u, s, [ev], Protocol.Next(u, s, ev))
  {
    assert [ev][1..] == [];
  }

  /** One event more after those that led to `m`. */
  lemma AndThen(u: Setup, s: System, events: seq<Protocol.Event>, m: System, ev: Protocol.Event)
    requires Leads(u, s, events, m)
    ensures Leads(u, s, events + [ev], Protocol.Next(u, m, ev))
  {
    OneEvent(u, m, ev);
    LeadsOn(u, s, events, m, [ev], Protocol.Next(u, m, ev));
  }

  lemma {:induction false} RunLeads(u: Setup, events: seq<Protocol.Event>, more: seq<Protocol.Event>, n: System)
    requires Leads(u, Protocol.Run(u, events), more, n)
    ensures Protocol.Run(u, events + more) == n
    decreases |more|
  {
    if more == [] {
      assert events + more == events;
    } else {
      assert (events + [more[0]])[..|events|] == events;
      assert events + more == (events + [more[0]]) + more[1..];
      RunLeads(u, events + [more[0]], more[1..], n);
    }
  }

  /** A queued request whose node can be reached over a new link, with names for frame and thread that are free. */
  predicate Waiting(u: Setup, s: System, id: string, link: nat, frame: nat, thread: nat, now: int) {
    && R.Sends(s.store, id, true, now) && s.store.requests[id].node == u.node
    && link !in s.links && frame !in s.carried && thread !in s.exec.threads
    && CanDial(u, s.exec.journal) && s.exec.holder.None? && s.queue == []
  }

  /** The command of a dispatched request is in the hands of this frame. */
  predicate Under(u: Setup, s: System, n: System, id: string, link: nat, frame: nat, thread: nat, place: Place) {
    && id in s.store.requests && id in n.store.requests
    && n.store.requests[id].node == u.node && n.store.requests[id].status.Dispatched?
    && n.links == s.links + {link} && n.exec == s.exec && n.queue == s.queue
    && frame in n.carried && n.carried[frame] == Carried(Command(id, s.store.requests[id].action), place)
    && thread !in n.exec.threads
  }

  lemma Send(u: Setup, s: System, id: string, link: nat, frame: nat, thread: nat, now: int)
    returns (events: seq<Protocol.Event>, n: System)
    requires Waiting(u, s, id, link, frame, thread, now)
    ensures Leads(u, s, events, n) && Under(u, s, n, id, link, frame, thread, OnWire(link))
  {
    var s1 := Protocol.Next(u, s, Dial(link));
    OneEvent(u, s, Dial(link));
    var s2 := Protocol.Next(u, s1, Register(link));
    AndThen(u, s, [Dial(link)], s1, Register(link));
    var s3 := Protocol.Next(u, s2, DispatchMine(id, now, frame));
    AndThen(u, s, [Dial(link)] + [Register(link)], s2, DispatchMine(id, now, frame));
    assert s3 == Dispatched(s2, id, now, frame);
    assert Under(u, s, s3, id, link, frame, thread, Sending(link));
    events := [Dial(link)] + [Register(link)] + [DispatchMine(id, now, frame)] + [WriteFrame(frame, true, false, now)];
    n := Protocol.Next(u, s3, WriteFrame(frame, true, false, now));
    assert n == Wrote(s3, frame, true);
    AndThen(u, s, [Dial(link)] + [Register(link)] + [DispatchMine(id, now, frame)], s3,
            WriteFrame(frame, true, false, now));
  }

  /** The thread that executes the command has just been started. */
  predicate Started(u: Setup, s: System, n: System, id: string, thread: nat) {
    && id in s.store.requests && id in n.store.requests
    && n.store.requests[id].node == u.node && n.store.requests[id].status.Dispatched?
    && n.queue == s.queue
    && n.exec == s.exec.(threads := s.exec.threads[thread := Thread(Command(id, s.store.requests[id].action), Looking)])
  }

  lemma Arrive(u: Setup, s: System, m: System, id: string, link: nat, frame: nat, thread: nat)
    returns (events: seq<Protocol.Event>, n: System)
    requires Under(u, s, m, id, link, frame, thread, OnWire(link))
    ensures Leads(u, m, events, n) && Started(u, s, n, id, thread)
  {
    var m1 := Protocol.Next(u, m, Receive(frame));
    OneEvent(u, m, Receive(frame));
    assert Under(u, s, m1, id, link, frame, thread, Checking(link));
    var m2 := Protocol.Next(u, m1, Check(frame, true, "", ""));
    AndThen(u, m, [Receive(frame)], m1, Check(frame, true, "", ""));
    assert m2 == Checked(m1, frame, true, "", "");
    assert Under(u, s, m2, id, link, frame, thread, Acking(link));
    events := [Receive(frame)] + [Check(frame, true, "", "")] + [SendAck(frame, true, false, thread)];
    n := Protocol.Next(u, m2, SendAck(frame, true, false, thread));
    AndThen(u, m, [Receive(frame)] + [Check(frame, true, "", "")], m2, SendAck(frame, true, false, thread));
  }

  lemma ExecuteIsStep(u: Setup, s: System, t: nat, ch: Choice)
    requires t in s.exec.threads
    ensures var n := Protocol.Next(u, s, Execute(t, ch));
      n.exec == Step(u.journal, s.exec, t, ch) && t in n.exec.threads && n.store == s.store && n.queue == s.queue
  {
  }

  lemma {:induction false} Work(u: Setup, s: System, t: nat, ch: Choice, k: nat)
    returns (events: seq<Protocol.Event>, n: System)
    requires t in s.exec.threads
    ensures Leads(u, s, events, n)
    ensures n.exec == Solo.Steps(u.journal, s.exec, t, ch, k) && n.store == s.store && n.queue == s.queue
    decreases k
  {
    if k == 0 {
      events, n := [], s;
    } else {
      var m := Protocol.Next(u, s, Execute(t, ch));
      ExecuteIsStep(u, s, t, ch);
      var later, end := Work(u, m, t, ch, k - 1);
      events, n := [Execute(t, ch)] + later, end;
      OneEvent(u, s, Execute(t, ch));
      LeadsOn(u, s, [Execute(t, ch)], m, later, n);
    }
  }

  /** The result can be written by the agent and is accepted by the control plane. */
  predicate Reportable(u: Setup, id: string, r: Result) {
    Writable(u, ReportOf(r)) && Acceptable(Report(id, ReportOf(r)))
  }

  lemma Home(u: Setup, s: System, id: string, thread: nat, r: Result, now: int)
    returns (events: seq<Protocol.Event>, n: System)
    requires thread in s.exec.threads && s.exec.threads[thread] == Thread(s.exec.threads[thread].cmd, Done(r))
    requires s.exec.threads[thread].cmd.request == id && s.queue == []
    requires id in s.store.requests && s.store.requests[id].node == u.node && s.store.requests[id].status.Dispatched?
    requires Reportable(u, id, r)
    ensures Leads(u, s, events, n) && id in n.store.requests
    ensures n.store == R.Finish(s.store, u.node, id, ReportOf(r), now)
  {
    var s1 := Protocol.Next(u, s, Collect(thread, true));
    OneEvent(u, s, Collect(thread, true));
    assert s1 == Collected(u, s, thread, true) && s1.queue == [Finished(id, r)] && s1.store == s.store;
    var s2 := Protocol.Next(u, s1, SendQueued(true, false));
    AndThen(u, s, [Collect(thread, true)], s1, SendQueued(true, false));
    assert Report(id, ReportOf(r)) in s2.up && s2.store == s.store;
    events := [Collect(thread, true)] + [SendQueued(true, false)] + [Deliver(Report(id, ReportOf(r)), now)];
    n := Protocol.Next(u, s2, Deliver(Report(id, ReportOf(r)), now));
    AndThen(u, s, [Collect(thread, true)] + [SendQueued(true, false)], s2, Deliver(Report(id, ReportOf(r)), now));
  }

  /** What a call that finds neither record nor claim returns. */
  function ResultOfCall(u: Setup, s: System, id: string, ch: Choice): Result
    requires id in s.store.requests
  {
    Solo.Alone(u.journal, s.exec.journal, s.exec.active, Command(id, s.store.requests[id].action), ch).result
  }

  /** From the table to the agent's thread. */
  lemma Bring(u: Setup, s: System, id: string, link: nat, frame: nat, thread: nat, now: int)
    returns (events: seq<Protocol.Event>, n: System)
    requires Waiting(u, s, id, link, frame, thread, now)
    ensures Leads(u, s, events, n) && Started(u, s, n, id, thread)
  {
    var sent, m := Send(u, s, id, link, frame, thread, now);
    var arrived, m1 := Arrive(u, s, m, id, link, frame, thread);
    LeadsOn(u, s, sent, m, arrived, m1);
    events, n := sent + arrived, m1;
  }

  /** The call of the thread that has just been started. */
  lemma Call(u: Setup, s: System, m: System, id: string, thread: nat, ch: Choice)
    returns (events: seq<Protocol.Event>, n: System)
    requires Started(u, s, m, id, thread) && s.exec.holder.None?
    ensures Leads(u, m, events, n) && n.store == m.store && n.queue == m.queue && thread in n.exec.threads
    ensures n.exec.threads[thread] == Thread(Command(id, s.store.requests[id].action),
                                             Done(ResultOfCall(u, s, id, ch)))
  {
    events, n := Work(u, m, thread, ch, 10);
    Solo.AloneIsTenSteps(u.journal, m.exec, thread, ch);
    StepsKeepCommand(u.journal, m.exec, thread, ch, 10);
  }

  /**
   * In any reachable state a waiting request whose result can be reported can be dispatched, run and reported: some
   * continuation ends with it finished as the outcome of its call says.
   */
  lemma WaitingRequestCanFinish(u: Setup, before: seq<Protocol.Event>, id: string, link: nat, frame: nat, thread: nat,
                                now: int, ch: Choice)
    returns (more: seq<Protocol.Event>)
    requires Waiting(u, Protocol.Run(u, before), id, link, frame, thread, now)
    requires Reportable(u, id, ResultOfCall(u, Protocol.Run(u, before), id, ch))
    ensures var r, store := ResultOfCall(u, Protocol.Run(u, before), id, ch), Protocol.Run(u, before + more).store;
      id in store.requests
      && store.requests[id].status == (if R.Stored(ReportOf(r)).success then R.Succeeded else R.Failed)
      && (r.state != "succeeded" ==> store.requests[id].status == R.Failed)
      && (r.state == "succeeded" && |r.payload| <= 65526 ==> store.requests[id].status == R.Succeeded)
  {
    P.StoredOnFields(ResultOfCall(u, Protocol.Run(u, before), id, ch));
    var s := Protocol.Run(u, before);
    var brought, s1 := Bring(u, s, id, link, frame, thread, now);
    var called, s2 := Call(u, s, s1, id, thread, ch);
    var reported, s3 := Home(u, s2, id, thread, ResultOfCall(u, s, id, ch), now);
    LeadsOn(u, s, brought, s1, called, s2);
    LeadsOn(u, s, brought + called, s2, reported, s3);
    more := brought + called + reported;
    RunLeads(u, before, more, s3);
  }

  lemma {:induction false} StepsKeepCommand(cfg: J.Config, s: State, t: nat, ch: Choice, n: nat)
    requires t in s.threads
    ensures t in Solo.Steps(cfg, s, t, ch, n).threads && Solo.Steps(cfg, s, t, ch, n).threads[t].cmd == s.threads[t].cmd
    decreases n
  {
    if n > 0 { StepsKeepCommand(cfg, Step(cfg, s, t, ch), t, ch, n - 1); }
  }
}
