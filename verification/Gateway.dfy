/** The registry of live agent connections (server/app/gateway.py): one per node, the latest wins. */
module Gateway {
  import R = Requests
  import RequestLife
  import opened RequestService
  import opened Basics
  import opened RequestCourse
  import RequestFields

  /** A message of an agent after its envelope and payload were checked. */
  datatype Message =
    | Heartbeat
    | StatusReport
    | CommandAck(request: string, accepted: bool, code: Option<string>, text: Option<string>)
    | CommandProgress(progressing: string)
    | CommandResult(finished: string, report: R.Report)

  function AfterMessage(s: R.Store, node: string, m: Message, now: int): R.Store {
    match m
    case Heartbeat => s
    case StatusReport => s
    case CommandAck(id, accepted, code, text) => R.Acknowledge(s, node, id, accepted, code, text, now)
    case CommandProgress(id) => R.Progress(s, node, id, now)
    case CommandResult(id, report) => R.Finish(s, node, id, report, now)
  }

  /** Whatever a node's agent sends, no request of another node changes, and no result is recorded for it. */
  lemma MessageStaysOnItsNode(s: R.Store, node: string, m: Message, now: int)
    ensures var e := AfterMessage(s, node, m, now);
      && e.requests.Keys == s.requests.Keys && s.results <= e.results
      && (forall id :: id in s.requests && s.requests[id].node != node ==> e.requests[id] == s.requests[id])
      && (forall i :: |s.results| <= i < |e.results| ==> e.results[i].node == node)
  {
  }

  /** The values of a reconcile list whose payload is valid, in order. */
  function ValidItems(values: seq<Option<Item>>): seq<Item> {
    if values == [] then []
    else ValidItems(values[..|values| - 1]) + (if values[|values| - 1].Some? then [values[|values| - 1].value] else [])
  }

  lemma OneMoreValue(s: R.Store, node: string, values: seq<Option<Item>>, i: nat, now: int)
    requires i < |values|
    ensures var before := FinishAll(s, node, ValidItems(values[..i]), now);
      var after := FinishAll(s, node, ValidItems(values[..i + 1]), now);
      after ==
        if values[i].Some? then R.Finish(before, node, values[i].value.request, values[i].value.report, now)
        else before
  {
    var items := ValidItems(values[..i]);
    assert values[..i + 1][..i] == values[..i];
    if values[i].Some? {
      assert (items + [values[i].value])[..|items|] == items;
    } else {
      assert items + [] == items;
    }
  }

  class ConnectionManager {
    const actions: ActionService
    const timeout: int
    var connections: map<string, nat>
    var lastReceived: map<nat, int>

    ghost predicate Valid()
      reads this, actions
    {
      && actions.Valid()
      && forall node :: node in connections ==> connections[node] in lastReceived
    }

    constructor (actions: ActionService, timeout: int)
      requires actions.Valid()
      ensures Valid() && this.actions == actions && this.timeout == timeout && connections == map[]
    {
      this.actions, this.timeout := actions, timeout;
      connections, lastReceived := map[], map[];
    }

    /** Online: registered, and heard from within the timeout. */
    predicate IsOnline(node: string, now: int)
      requires Valid()
      reads this, actions
    {
      node in connections && lastReceived[connections[node]] >= now - timeout
    }

    /** dispatch_request as the registry lets it go: a send follows only to a node that is on line just then. */
    method DispatchRequest(id: string, now: int) returns (send: bool)
      requires Valid()
      modifies actions
      ensures Valid()
      ensures id !in old(actions.requests) ==> !send && actions.View() == old(actions.View())
      ensures id in old(actions.requests) ==>
        var online := old(IsOnline(actions.requests[id].node, now));
        actions.View() == R.Dispatch(old(actions.View()), id, online, now)
      ensures send <==>
        && id in old(actions.requests) && old(actions.requests)[id].status == R.Queued
        && now < old(actions.requests)[id].deadline
        && var node := old(actions.requests)[id].node;
           node in connections && now <= lastReceived[connections[node]] + timeout
    {
      var online := id in actions.requests && IsOnline(actions.requests[id].node, now);
      send := actions.DispatchRequest(id, online, now);
    }

    /** A new connection takes the node over; `replaced` is the one to be closed. */
    method Register(node: string, connection: nat, now: int) returns (replaced: set<nat>)
      requires Valid()
      modifies this`connections, this`lastReceived
      ensures Valid() && connections == old(connections)[node := connection]
      ensures lastReceived == old(lastReceived)[connection := now]
      ensures replaced ==
        if node in old(connections) && old(connections)[node] != connection then {old(connections)[node]} else {}
    {
      replaced := {};
      if node in connections && connections[node] != connection {
        replaced := {connections[node]};
      }
      connections := connections[node := connection];
      lastReceived := lastReceived[connection := now];
    }

    /**
     * The end of a connection: requests of the node become unknown only if the connection was still
     * the registered one, so a replaced connection can close late without touching its successor.
     */
    method Remove(node: string, connection: nat, now: int)
      requires Valid()
      modifies this`connections, actions
      ensures Valid()
      ensures if node in old(connections) && old(connections)[node] == connection
              then connections == old(connections) - {node}
                && actions.View() == R.MarkUnknownForNode(old(actions.View()), node, now)
                && RequestFields.LostWithNode(old(actions.View()), actions.View(), node, now)
              else connections == old(connections) && actions.View() == old(actions.View())
    {
      if node in connections && connections[node] == connection {
        connections := connections - {node};
        actions.MarkNodeUnknown(node, now);
      }
    }

    /** disconnect_node, after a credential was revoked or the node deleted. */
    method DisconnectNode(node: string, now: int)
      requires Valid()
      modifies this`connections, actions
      ensures Valid() && connections == old(connections) - {node}
      ensures actions.View() == if node in old(connections)
                                then R.MarkUnknownForNode(old(actions.View()), node, now) else old(actions.View())
      ensures node in old(connections) ==> RequestFields.LostWithNode(old(actions.View()), actions.View(), node, now)
    {
      if node in connections {
        connections := connections - {node};
        actions.MarkNodeUnknown(node, now);
      }
    }

    /** _reconcile: the valid values of a hello, one after the other; None stands for an invalid one. */
    method Reconcile(node: string, values: seq<Option<Item>>, now: int)
      requires Valid()
      modifies actions
      ensures Valid() && actions.View() == FinishAll(old(actions.View()), node, ValidItems(values), now)
      ensures forall i :: 0 <= i < |ValidItems(values)| ==> Settled(actions.View(), node, ValidItems(values)[i].request)
    {
      for i := 0 to |values|
        invariant Valid() && actions.View() == FinishAll(old(actions.View()), node, ValidItems(values[..i]), now)
      {
        OneMoreValue(old(actions.View()), node, values, i, now);
        if values[i].Some? {
          var _ := actions.ReconcileResult(node, values[i].value.request, values[i].value.report, now);
        }
      }
      assert values[..|values|] == values;
      ReconcileSettles(old(actions.View()), node, ValidItems(values), now);
    }

    /** One message in _message_loop. */
    method HandleMessage(node: string, connection: nat, m: Message, now: int) returns (change: Option<R.Change>)
      requires Valid()
      modifies this`lastReceived, actions
      ensures Valid() && lastReceived == old(lastReceived)[connection := now]
      ensures actions.View() == AfterMessage(old(actions.View()), node, m, now)
      ensures change == if m.CommandResult? then R.ChangeOf(old(actions.View()), node, m.finished, m.report) else None
    {
      change := None;
      lastReceived := lastReceived[connection := now];
      match m
      case Heartbeat =>
      case StatusReport =>
      case CommandAck(id, accepted, code, text) => actions.AcceptRequest(node, id, accepted, code, text, now);
      case CommandProgress(id) => actions.ProgressRequest(node, id, now);
      case CommandResult(id, report) => change := actions.FinishRequest(node, id, report, now);
    }
  }
}
