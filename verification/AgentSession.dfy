/**
 * The result queue of the agent, which outlives its connections, and what a new connection reports from the
 * journal (agent/cmd/vps-agent/main.go). Module Protocol uses the same steps.
 */
module AgentSession {
  import opened Basics
  import R = Requests
  import J = Journals
  import opened Executors
  import opened Protocol

  function ReportFor(f: Finished): Message {
    Report(f.request, ReportOf(f.result))
  }

  function ReportsFor(fs: seq<Finished>): (reports: seq<Message>)
    ensures |reports| == |fs| && forall i :: 0 <= i < |fs| ==> reports[i] == ReportFor(fs[i])
  {
    if fs == [] then [] else ReportsFor(fs[..|fs| - 1]) + [ReportFor(fs[|fs| - 1])]
  }

  /** How many results leave the queue before a send fails, the queue is empty, or the session ends. */
  function Sendable(waiting: nat, sends: seq<bool>): (n: nat)
    ensures n <= waiting && n <= |sends| && (forall i :: 0 <= i < n ==> sends[i])
    ensures n < waiting && n < |sends| ==> !sends[n]
  {
    if waiting == 0 || sends == [] || !sends[0] then 0 else 1 + Sendable(waiting - 1, sends[1..])
  }

  /** A session that ends on a failed send has sent a stretch of the queue and put the failed result back, last. */
  function QueueAfter(queue: seq<Finished>, sends: seq<bool>): seq<Finished> {
    var n := Sendable(|queue|, sends);
    if n < |queue| && n < |sends| then queue[n + 1..] + [queue[n]] else queue[n..]
  }

  /** Nothing is lost and nothing is sent twice: what was sent and what still waits is what was waiting. */
  lemma ResultsAreConserved(queue: seq<Finished>, sends: seq<bool>)
    ensures multiset(queue[..Sendable(|queue|, sends)]) + multiset(QueueAfter(queue, sends)) == multiset(queue)
  {
    var n := Sendable(|queue|, sends);
    assert queue == queue[..n] + queue[n..];
    if n < |queue| && n < |sends| {
      assert queue[n..] == [queue[n]] + queue[n + 1..];
    }
  }

  /** A failed send is the event of module Protocol that raises; results that find room are not lost there either. */
  lemma SendIsProtocolStep(u: Setup, s: System, sent: bool)
    requires s.queue != [] && |s.queue| <= QUEUE_SIZE && (sent ==> Writable(u, ReportOf(s.queue[0].result)))
    ensures Protocol.Next(u, s, SendQueued(sent, !sent)).queue == QueueAfter(s.queue, [sent])
    ensures Protocol.Next(u, s, SendQueued(sent, !sent)).up == s.up + (if sent then {ReportFor(s.queue[0])} else {})
  {
    assert Sendable(|s.queue|, [sent]) == if sent then 1 else 0;
  }

  lemma AtEnd(queue: seq<Finished>, sends: seq<bool>, i: nat)
    requires i <= Sendable(|queue|, sends) && (i == |sends| || i == |queue|)
    ensures Sendable(|queue|, sends) == i && QueueAfter(queue, sends) == queue[i..]
  {
  }

  lemma AtFailure(queue: seq<Finished>, sends: seq<bool>, i: nat)
    requires i <= Sendable(|queue|, sends) && i < |sends| && i < |queue| && !sends[i]
    ensures Sendable(|queue|, sends) == i && QueueAfter(queue, sends) == queue[i + 1..] + [queue[i]]
  {
  }

  /** The first of those that wait; once it is sent, one more has left the queue. */
  lemma NextOut(queue: seq<Finished>, sends: seq<bool>, i: nat)
    requires i <= Sendable(|queue|, sends) && i < |sends| && i < |queue|
    ensures queue[i..][0] == queue[i] && queue[i..][1..] == queue[i + 1..]
    ensures sends[i] ==> i + 1 <= Sendable(|queue|, sends)
  {
  }

  lemma ReportsAppend(before: seq<Message>, written: seq<Message>, fs: seq<Finished>, i: nat)
    requires i < |fs| && written == before + ReportsFor(fs[..i])
    ensures written + [ReportFor(fs[i])] == before + ReportsFor(fs[..i + 1])
  {
    assert fs[..i + 1][..i] == fs[..i];
  }

  /** The message says what the journal entry says; its text is an object in any case. */
  predicate Reports(m: Message, e: J.Entry)
    requires m.Report?
  {
    && m.request == e.request && m.report.success == (e.state == "succeeded")
    && m.report.code == Some(e.code) && m.report.message == Some(e.message)
    && (e.result == "" || e.result == "null" ==> m.report.text == "{}")
    && (e.result != "" && e.result[0] == '{' ==> m.report.text == e.result)
    && (e.result != "" && e.result != "null" && e.result[0] != '{' ==> m.report.text == "{\"value\":" + e.result + "}")
  }

  lemma ReportsEntry(e: J.Entry)
    ensures Reports(Report(e.request, ReportOf(ResultOf(e))), e)
  {
  }

  class Session {
    var queue: seq<Finished>
    var written: seq<Message>

    constructor (queue: seq<Finished>)
      requires |queue| <= QUEUE_SIZE
      ensures this.queue == queue && written == []
    {
      this.queue, written := queue, [];
    }

    /**
     * queueResult. If the queue is full it waits; `room` is whether the connection takes a result out of the queue
     * within ten seconds. The one taken is handed over as `taken`.
     */
    method QueueResult(f: Finished, room: bool) returns (taken: seq<Finished>)
      requires |queue| <= QUEUE_SIZE
      modifies this`queue
      ensures |queue| <= QUEUE_SIZE
      ensures taken + queue == if |old(queue)| < 128 || room then old(queue) + [f] else old(queue)
      ensures taken == if |old(queue)| == 128 && room then old(queue)[..1] else []
    {
      taken := [];
      if |queue| == QUEUE_SIZE {
        if !room {
          return;
        }
        taken, queue := queue[..1], queue[1..];
      }
      queue := queue + [f];
    }

    /** requeueResult, which does not wait. */
    method RequeueResult(f: Finished)
      modifies this`queue
      ensures queue == if |old(queue)| < 128 then old(queue) + [f] else old(queue)
    {
      if |queue| < QUEUE_SIZE {
        queue := queue + [f];
      }
    }

    /** resultLoop of one connection; `sends` tells which of its writes succeed, and ends when the session does. */
    method ResultLoop(sends: seq<bool>)
      requires |queue| <= QUEUE_SIZE
      modifies this
      ensures queue == QueueAfter(old(queue), sends)
      ensures written == old(written) + ReportsFor(old(queue)[..Sendable(|old(queue)|, sends)])
    {
      ghost var before := queue;
      var i: nat := 0;
      while i < |sends| && queue != []
        invariant i <= Sendable(|before|, sends) && queue == before[i..]
        invariant written == old(written) + ReportsFor(before[..i])
      {
        NextOut(before, sends, i);
        var result := queue[0];
        queue := queue[1..];
        if !sends[i] {
          AtFailure(before, sends, i);
          RequeueResult(result);
          return;
        }
        ReportsAppend(old(written), written, before, i);
        written := written + [ReportFor(result)];
        i := i + 1;
      }
      AtEnd(before, sends, i);
    }

    /** The reports of the hello message and of the replay after it: one for every journal entry, in order. */
    method ReportJournal(entries: seq<J.Entry>) returns (reports: seq<Message>)
      ensures |reports| == |entries|
      ensures forall i :: 0 <= i < |entries| ==>
        reports[i] == Report(entries[i].request, ReportOf(ResultOf(entries[i])))
      ensures (set i | 0 <= i < |reports| :: reports[i]) == JournalReports(entries)
      ensures forall i :: 0 <= i < |entries| ==> reports[i].Report? && Reports(reports[i], entries[i])
    {
      reports := [];
      for i := 0 to |entries|
        invariant |reports| == i
        invariant forall k :: 0 <= k < i ==> reports[k] == Report(entries[k].request, ReportOf(ResultOf(entries[k])))
        invariant forall k :: 0 <= k < i ==> Reports(reports[k], entries[k])
      {
        ReportsEntry(entries[i]);
        reports := reports + [Report(entries[i].request, ReportOf(ResultOf(entries[i])))];
      }
    }
  }
}
