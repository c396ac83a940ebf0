/**
 The workflow interpreter: one run walks the graph of its workflow from the first trigger,
 always along the first outgoing edge, until a wait, a sink, a dangling target or a failure.
 */
module WorkflowEngine {
  import opened Basics
  import History

  datatype NodeType = Send | Wait | UpdateField | EmitDestination | OtherType

  /** `trigger` is the test `kind == "trigger"`; `hours` is read by wait nodes only. */
  datatype Node = Node(id: string, trigger: bool, typ: NodeType, hours: int)

  /** A missing source never equals a node id; a missing target is None. */
  datatype Edge = Edge(source: string, target: Option<string>)

  datatype Graph = Graph(nodes: seq<Node>, edges: seq<Edge>)

  datatype RunStatus = Running | Waiting | Completed | Failed

  datatype NodeRun = NodeRun(nodeId: string, status: RunStatus)

  /** What `execute_node` hands back: an exception, or the optional string it returns. */
  datatype Outcome = Raised | Returned(next: Option<string>)

  const TRIGGER := "trigger"
  const DELAYED := "delayed"
  const SECONDS_PER_HOUR := 3600

  // ---------------------------------------------------------------- graph lookups

  /** The dictionary built from the node list: a later node replaces an earlier one with its id. */
  function NodeOf(nodes: seq<Node>, id: string): (r: Option<Node>)
    ensures r.Some? ==> r.value in nodes && r.value.id == id
    ensures r.None? ==> forall n :: n in nodes ==> n.id != id
  {
    if nodes == [] then None
    else if nodes[|nodes| - 1].id == id then Some(nodes[|nodes| - 1])
    else NodeOf(nodes[..|nodes| - 1], id)
  }

  /** Edge k is the first edge that leaves node `a`. */
  ghost predicate FirstEdge(edges: seq<Edge>, a: string, k: nat) {
    && k < |edges|
    && edges[k].source == a
    && forall j :: 0 <= j < k ==> edges[j].source != a
  }

  function OutEdge(edges: seq<Edge>, a: string): (r: Option<nat>)
    ensures r.Some? ==> FirstEdge(edges, a, r.value)
    ensures r.None? ==> forall e :: e in edges ==> e.source != a
  {
    if edges == [] then None
    else if edges[0].source == a then Some(0)
    else
      var rest := OutEdge(edges[1..], a);
      assert forall e :: e in edges ==> e == edges[0] || e in edges[1..];
      if rest.None? then None else Some(rest.value + 1)
  }

  /** The first node of kind "trigger". */
  function FirstTrigger(nodes: seq<Node>): (r: Option<string>)
    ensures r.Some? ==> exists k :: 0 <= k < |nodes| && nodes[k].trigger && nodes[k].id == r.value &&
                                    forall j :: 0 <= j < k ==> !nodes[j].trigger
    ensures r.None? ==> forall n :: n in nodes ==> !n.trigger
  {
    if nodes == [] then None
    else if nodes[0].trigger then Some(nodes[0].id)
    else
      assert forall n :: n in nodes ==> n == nodes[0] || n in nodes[1..];
      FirstTrigger(nodes[1..])
  }

  // ---------------------------------------------------------------- walks

  /** A target the loop can follow: present, not the empty string, not the word "delayed". */
  predicate Usable(target: Option<string>) {
    target.Some? && target.value != "" && target.value != DELAYED
  }

  /** The node entered after `a` was executed without an exception, if there is one. */
  function Successor(g: Graph, a: string): Option<string> {
    var node := NodeOf(g.nodes, a);
    var k := OutEdge(g.edges, a);
    if node.None? || node.value.typ == Wait || k.None? then None
    else if Usable(g.edges[k.value].target) then g.edges[k.value].target
    else None
  }

  /** Consecutive node ids joined by first outgoing edges. */
  ghost predicate IsWalk(g: Graph, p: seq<string>) {
    forall i {:trigger Successor(g, p[i])} :: 0 <= i < |p| - 1 ==> Successor(g, p[i]) == Some(p[i + 1])
  }

  ghost predicate Stops(g: Graph, p: seq<string>) {
    p != [] && Successor(g, p[|p| - 1]) == None
  }

  lemma SuccessorFollowsFirstEdge(g: Graph, a: string, t: string)
    ensures Successor(g, a) == Some(t) <==>
            (exists n :: NodeOf(g.nodes, a) == Some(n) && n.typ != Wait) &&
            (exists k: nat :: FirstEdge(g.edges, a, k) && g.edges[k].target == Some(t)) &&
            t != "" && t != DELAYED
  {
    var o := OutEdge(g.edges, a);
    assert forall k: nat, l: nat :: FirstEdge(g.edges, a, k) && FirstEdge(g.edges, a, l) ==> k == l;
    if Successor(g, a) == Some(t) {
      assert NodeOf(g.nodes, a) == Some(NodeOf(g.nodes, a).value);
    }
  }

  /** The graph leaves the interpreter no choice: two walks from one node agree as far as both go. */
  lemma {:induction false} WalkIsUnique(g: Graph, p: seq<string>, q: seq<string>, i: nat)
    requires IsWalk(g, p) && IsWalk(g, q)
    requires i < |p| && i < |q| && p[0] == q[0]
    ensures p[i] == q[i]
  {
    if i > 0 {
      WalkIsUnique(g, p, q, i - 1);
      assert Successor(g, p[i - 1]) == Successor(g, q[i - 1]);
    }
  }

  function NodeIds(nodes: seq<Node>): set<string> {
    set n | n in nodes :: n.id
  }

  lemma {:induction false} FewNodeIds(nodes: seq<Node>)
    ensures |NodeIds(nodes)| <= |nodes|
  {
    if nodes != [] {
      var last := |nodes| - 1;
      FewNodeIds(nodes[..last]);
      assert nodes == nodes[..last] + [nodes[last]];
      assert NodeIds(nodes) == NodeIds(nodes[..last]) + {nodes[last].id};
    }
  }

  /** Pigeonhole: a walk longer than the node list plus one dangling end enters some node twice. */
  lemma LongWalkRepeats(g: Graph, p: seq<string>)
    requires IsWalk(g, p) && |p| > |g.nodes| + 1
    ensures !NoDups(p)
  {
    var inner := p[..|p| - 1];
    forall x | x in Elements(inner) ensures x in NodeIds(g.nodes) {
      var i :| 0 <= i < |inner| && inner[i] == x;
      assert Successor(g, p[i]) == Some(p[i + 1]);
      assert NodeOf(g.nodes, x).value in g.nodes;
    }
    SubsetIsNoLarger(Elements(inner), NodeIds(g.nodes));
    FewNodeIds(g.nodes);
    ElementsAreFew(inner);
    if NoDups(p) {
      assert NoDups(inner);
      assert false;
    }
  }

  /** A walk that comes to a stop never entered a node twice. */
  lemma StoppingWalkHasNoRepeat(g: Graph, p: seq<string>)
    requires IsWalk(g, p) && Stops(g, p)
    ensures NoDups(p)
  {
    forall i, j | 0 <= i < j < |p| ensures p[i] != p[j] {
      RepeatNeverStops(g, p, i, j);
    }
  }

  lemma {:induction false} RepeatNeverStops(g: Graph, p: seq<string>, i: nat, j: nat)
    requires IsWalk(g, p) && Stops(g, p) && i < j < |p|
    ensures p[i] != p[j]
    decreases |p| - j
  {
    if p[i] == p[j] {
      assert Successor(g, p[i]) == Some(p[i + 1]);
      if j + 1 < |p| {
        assert Successor(g, p[j]) == Some(p[j + 1]);
        RepeatNeverStops(g, p, i + 1, j + 1);
      }
    }
  }

  /** The walk from `a`, cut after n steps. */
  function Follow(g: Graph, a: string, n: nat): (p: seq<string>)
    ensures p != [] && p[0] == a && |p| <= n + 1
    decreases n
  {
    if n == 0 || Successor(g, a).None? then [a] else [a] + Follow(g, Successor(g, a).value, n - 1)
  }

  lemma PrependToWalk(g: Graph, a: string, q: seq<string>)
    requires q != [] && IsWalk(g, q) && Successor(g, a) == Some(q[0])
    ensures IsWalk(g, [a] + q)
    ensures Stops(g, [a] + q) == Stops(g, q)
  {
    var p := [a] + q;
    forall i | 0 <= i < |p| - 1 ensures Successor(g, p[i]) == Some(p[i + 1]) {
      if i > 0 {
        assert p[i] == q[i - 1] && p[i + 1] == q[i];
      }
    }
  }

  lemma {:induction false} FollowIsWalk(g: Graph, a: string, n: nat)
    ensures IsWalk(g, Follow(g, a, n))
    ensures Stops(g, Follow(g, a, n)) || |Follow(g, a, n)| == n + 1
    decreases n
  {
    if n > 0 && Successor(g, a).Some? {
      var b := Successor(g, a).value;
      FollowIsWalk(g, b, n - 1);
      PrependToWalk(g, a, Follow(g, b, n - 1));
    }
  }

  /**
   Exactly when the walk from `a` ends: it never enters a node twice; and then it enters at most
   one id more than the graph has nodes.
   */
  lemma HaltsIffNoRevisit(g: Graph, a: string)
    ensures (exists p :: p != [] && p[0] == a && IsWalk(g, p) && Stops(g, p)) <==>
            (forall p :: p != [] && p[0] == a && IsWalk(g, p) ==> NoDups(p))
    ensures forall p :: p != [] && p[0] == a && IsWalk(g, p) && Stops(g, p) ==> |p| <= |g.nodes| + 1
  {
    var n := |g.nodes| + 1;
    var full := Follow(g, a, n);
    FollowIsWalk(g, a, n);
    if forall p :: p != [] && p[0] == a && IsWalk(g, p) ==> NoDups(p) {
      if !Stops(g, full) {
        LongWalkRepeats(g, full);
        assert false;
      }
    }
    forall p | p != [] && p[0] == a && IsWalk(g, p) && Stops(g, p)
      ensures |p| <= |g.nodes| + 1
      ensures forall q :: q != [] && q[0] == a && IsWalk(g, q) ==> NoDups(q)
    {
      StoppingWalkHasNoRepeat(g, p);
      if |p| > |g.nodes| + 1 {
        LongWalkRepeats(g, p);
      }
      forall q | q != [] && q[0] == a && IsWalk(g, q) ensures NoDups(q) {
        WalkStaysWithin(g, p, q);
        assert q == p[..|q|] by {
          forall i | 0 <= i < |q| ensures q[i] == p[i] { WalkIsUnique(g, q, p, i); }
        }
      }
    }
  }

  /** A walk that enters a node twice can be continued for ever: from its start there are walks of any length. */
  lemma RepeatGoesOn(g: Graph, p: seq<string>, i: nat, j: nat, n: nat)
    requires IsWalk(g, p) && i < j < |p| && p[i] == p[j]
    ensures IsWalk(g, Follow(g, p[0], n)) && |Follow(g, p[0], n)| == n + 1
  {
    var f := Follow(g, p[0], n);
    FollowIsWalk(g, p[0], n);
    if Stops(g, f) {
      WalkStaysWithin(g, f, p);
      WalkIsUnique(g, p, f, i);
      WalkIsUnique(g, p, f, j);
      RepeatNeverStops(g, f, i, j);
    }
  }

  /** No walk goes on past the end of a stopping walk from the same node. */
  lemma WalkStaysWithin(g: Graph, p: seq<string>, q: seq<string>)
    requires p != [] && q != [] && p[0] == q[0]
    requires IsWalk(g, p) && Stops(g, p) && IsWalk(g, q)
    ensures |q| <= |p|
  {
    if |q| > |p| {
      var last := |p| - 1;
      WalkIsUnique(g, p, q, last);
    }
  }

  // ---------------------------------------------------------------- how a walk ends

  /** The action of node `a` raises; nodes without an action never do. */
  predicate Breaks(g: Graph, a: string, raises: bool) {
    raises && NodeOf(g.nodes, a).Some? && NodeOf(g.nodes, a).value.typ != OtherType
  }

  /** Status of the run after its last executed node; `before` is the status it came with. */
  function FinalStatus(g: Graph, a: string, raises: bool, before: RunStatus): RunStatus {
    if NodeOf(g.nodes, a).None? then Completed
    else if Breaks(g, a, raises) then Failed
    else if NodeOf(g.nodes, a).value.typ == Wait then Waiting
    else if OutEdge(g.edges, a).None? then Completed
    else before
  }

  /** Node `a` is in the graph with the given type. */
  ghost predicate HasType(g: Graph, a: string, typ: NodeType) {
    exists n :: NodeOf(g.nodes, a) == Some(n) && n.typ == typ
  }

  /** Nothing follows node `a`: it is not in the graph, or it is no wait and no edge leaves it. */
  ghost predicate IsEnd(g: Graph, a: string) {
    || (forall n :: n in g.nodes ==> n.id != a)
    || (!HasType(g, a, Wait) && forall e :: e in g.edges ==> e.source != a)
  }

  /**
   How a running run ends at node `a`: failed exactly if its action raised, waiting exactly if it did
   not and the node is a wait, completed exactly if it did not and nothing follows.
   */
  lemma EndingMeans(g: Graph, a: string, raises: bool)
    ensures Breaks(g, a, raises) <==> raises && exists n :: NodeOf(g.nodes, a) == Some(n) && n.typ != OtherType
    ensures var status, raised := FinalStatus(g, a, raises, Running), Breaks(g, a, raises);
            && (status == Failed <==> raised)
            && (status == Waiting <==> !raised && HasType(g, a, Wait))
            && (status == Completed <==> !raised && IsEnd(g, a))
  {
    if NodeOf(g.nodes, a).Some? {
      assert NodeOf(g.nodes, a) == Some(NodeOf(g.nodes, a).value);
    }
    var o := OutEdge(g.edges, a);
    if o.Some? {
      assert g.edges[o.value] in g.edges;
    }
  }

  /** The row of the last node: none for an id that is not in the graph, else with the status it ended in. */
  lemma LastRowMeans(g: Graph, a: string, raises: bool)
    ensures var rows, raised := LastRow(g, a, raises), Breaks(g, a, raises);
            && (rows == [] <==> forall n :: n in g.nodes ==> n.id != a)
            && (rows != [] ==> |rows| == 1 && rows[0].nodeId == a)
            && (rows != [] ==> (rows[0].status == Failed <==> raised))
            && (rows != [] ==> (rows[0].status == Waiting <==> !raised && HasType(g, a, Wait)))
            && (rows != [] ==> (rows[0].status == Completed <==> !raised && !HasType(g, a, Wait)))
  {
    if NodeOf(g.nodes, a).Some? {
      assert NodeOf(g.nodes, a) == Some(NodeOf(g.nodes, a).value);
    }
  }

  /** The row written for the last node: none for an id that is not in the graph. */
  function LastRow(g: Graph, a: string, raises: bool): seq<NodeRun> {
    if NodeOf(g.nodes, a).None? then []
    else if Breaks(g, a, raises) then [NodeRun(a, Failed)]
    else if NodeOf(g.nodes, a).value.typ == Wait then [NodeRun(a, Waiting)]
    else [NodeRun(a, Completed)]
  }

  function CompletedRows(p: seq<string>): (rows: seq<NodeRun>)
    ensures |rows| == |p|
    ensures forall i :: 0 <= i < |p| ==> rows[i] == NodeRun(p[i], Completed)
  {
    seq(|p|, i requires 0 <= i < |p| => NodeRun(p[i], Completed))
  }

  lemma WalkGoesOn(g: Graph, p: seq<string>, b: string)
    requires p != [] && IsWalk(g, p) && Successor(g, p[|p| - 1]) == Some(b)
    ensures IsWalk(g, p + [b])
    ensures CompletedRows(p) == CompletedRows(p[..|p| - 1]) + [NodeRun(p[|p| - 1], Completed)]
  {
  }

  /**
   A run that stopped is still "running" exactly when the first edge out of its last node has no
   usable target; in a graph whose targets are all usable every stop is a real end.
   */
  lemma StoppedRunIsStuckIff(g: Graph, p: seq<string>, raises: bool)
    requires IsWalk(g, p) && p != []
    requires Stops(g, p) || Breaks(g, p[|p| - 1], raises)
    ensures FinalStatus(g, p[|p| - 1], raises, Running) == Running <==>
            !Breaks(g, p[|p| - 1], raises) &&
            (exists n :: NodeOf(g.nodes, p[|p| - 1]) == Some(n) && n.typ != Wait) &&
            (exists k: nat :: FirstEdge(g.edges, p[|p| - 1], k) && !Usable(g.edges[k].target))
    ensures (forall e :: e in g.edges ==> Usable(e.target)) ==>
            FinalStatus(g, p[|p| - 1], raises, Running) != Running
  {
    var a := p[|p| - 1];
    var o := OutEdge(g.edges, a);
    assert forall k: nat, l: nat :: FirstEdge(g.edges, a, k) && FirstEdge(g.edges, a, l) ==> k == l;
    if NodeOf(g.nodes, a).Some? {
      assert NodeOf(g.nodes, a) == Some(NodeOf(g.nodes, a).value);
    }
    if o.Some? {
      assert g.edges[o.value] in g.edges;
    }
  }

  // ---------------------------------------------------------------- the interpreter

  /** Where `continue_run` enters: the stored node, or the first trigger for a fresh run. */
  function Entry(g: Graph, currentNode: string): Option<string> {
    if currentNode == "" || currentNode == TRIGGER then FirstTrigger(g.nodes) else Some(currentNode)
  }

  /** A run with no node stored, or with the word it was started with, enters at the first trigger. */
  lemma EntryMeans(g: Graph, currentNode: string)
    ensures currentNode in ["", "trigger"] ==> Entry(g, currentNode) == FirstTrigger(g.nodes)
    ensures currentNode !in ["", "trigger"] ==> Entry(g, currentNode) == Some(currentNode)
  {
  }

  /**
   A run that waits at `w` is entered at `w` again when it is woken, and waits there again: the
   only walk from there is `w` itself. (A wait node that is named "trigger" and is not the first
   trigger is the one exception: the run starts over.)
   */
  lemma WokenRunWaitsAgain(g: Graph, w: string, p: seq<string>)
    requires w != "" && NodeOf(g.nodes, w).Some? && NodeOf(g.nodes, w).value.typ == Wait
    requires p != [] && IsWalk(g, p) && Entry(g, w) == Some(p[0])
    ensures p == [w] <==> w != TRIGGER || FirstTrigger(g.nodes) == Some(TRIGGER)
    ensures p == [w] ==> FinalStatus(g, w, false, Running) == Waiting
  {
    assert Successor(g, w) == None;
  }

  // ---------------------------------------------------------------- the history a walk writes

  /** What an update_field node is executed with: the run and its deal, and per execution the change, call and time. */
  datatype Updates = Updates(run: string, deal: Option<(History.Id, History.Id)>, change: nat -> History.FieldChange,
                             call: nat -> History.Id, now: nat -> int)

  /** The request of an update_field node: it names no event. */
  function UpdateRequest(u: Updates, k: nat): History.MutateRequest
    requires u.deal.Some?
  {
    History.MutateRequest("deal", u.deal.value.0, "updated", [u.change(k)],
                          Some(History.Actor("workflow", Some(u.run))), None, None, None, false,
                          Some(u.deal.value.1), None)
  }

  predicate UpdatesField(g: Graph, a: string) {
    NodeOf(g.nodes, a).Some? && NodeOf(g.nodes, a).value.typ == UpdateField
  }

  /** The history rows of the nodes a walk executes; only update_field nodes of a run with a deal write any. */
  function HistoryOf(g: Graph, walk: seq<string>, u: Updates): seq<History.Row> {
    if walk == [] then []
    else
      var k := |walk| - 1;
      HistoryOf(g, walk[..k], u) +
      if UpdatesField(g, walk[k]) && u.deal.Some? then History.RowsOf(u.call(k), UpdateRequest(u, k), u.now(k)) else []
  }

  function UpdatesIn(g: Graph, walk: seq<string>): nat {
    if walk == [] then 0
    else UpdatesIn(g, walk[..|walk| - 1]) + if UpdatesField(g, walk[|walk| - 1]) then 1 else 0
  }

  /** However far a workflow walks, it writes one audit row for each update_field node it executes, and no event. */
  lemma {:induction false} WalkAddsNoEvent(g: Graph, walk: seq<string>, u: Updates)
    ensures !History.HasOutbox(HistoryOf(g, walk, u))
    ensures |HistoryOf(g, walk, u)| == if u.deal.Some? then UpdatesIn(g, walk) else 0
    ensures forall r :: r in HistoryOf(g, walk, u) ==>
              && r.Audit? && r.actor == History.Actor("workflow", Some(u.run))
              && u.deal.Some? && r.entityType == "deal" && r.entity == u.deal.value.0 && r.action == "updated"
  {
    if walk != [] {
      WalkAddsNoEvent(g, walk[..|walk| - 1], u);
    }
  }

  class WorkflowRun {
    var status: RunStatus
    var currentNode: string      // "" stands for null
    var wakeAt: Option<int>
    var nodeRuns: seq<NodeRun>   // rows of workflow_node_runs for this run, oldest first

    /** A run as `start_workflow_run` inserts it. */
    constructor ()
      ensures status == Running && currentNode == TRIGGER && wakeAt == None && nodeRuns == []
    {
      status, currentNode, wakeAt, nodeRuns := Running, TRIGGER, None, [];
    }

    /** `raises` says whether the node's action throws, `now` is the clock. */
    method ExecuteNode(g: Graph, nodeId: string, raises: bool, now: int) returns (out: Outcome)
      modifies this
      ensures nodeRuns == old(nodeRuns) + LastRow(g, nodeId, raises)
      ensures status == FinalStatus(g, nodeId, raises, old(status))
      ensures old(status) == Running ==>
                && (status == Failed <==> out == Raised)
                && (status == Waiting <==> out != Raised && HasType(g, nodeId, Wait))
                && (status == Completed <==> out != Raised && IsEnd(g, nodeId))
      ensures out == Raised <==> Breaks(g, nodeId, raises)
      ensures NodeOf(g.nodes, nodeId).Some? && NodeOf(g.nodes, nodeId).value.typ == Wait && out.Returned? ==>
                currentNode == nodeId && out == Returned(Some(DELAYED)) &&
                wakeAt == Some(now + NodeOf(g.nodes, nodeId).value.hours * 3600)
      ensures NodeOf(g.nodes, nodeId).None? || NodeOf(g.nodes, nodeId).value.typ != Wait || out == Raised ==>
                currentNode == old(currentNode) && wakeAt == old(wakeAt)
      ensures out.Returned? ==> (Usable(out.next) <==> Successor(g, nodeId).Some?)
      ensures Successor(g, nodeId).Some? && out.Returned? ==> out.next == Successor(g, nodeId)
    {
      EndingMeans(g, nodeId, raises);
      var node := NodeOf(g.nodes, nodeId);
      if node.None? {
        status := Completed;
        return Returned(None);
      }
      if raises && node.value.typ != OtherType {
        nodeRuns := nodeRuns + [NodeRun(nodeId, Failed)];
        status := Failed;
        return Raised;
      }
      if node.value.typ == Wait {
        wakeAt := Some(now + node.value.hours * SECONDS_PER_HOUR);
        currentNode := nodeId;
        status := Waiting;
        nodeRuns := nodeRuns + [NodeRun(nodeId, Waiting)];
        return Returned(Some(DELAYED));
      }
      nodeRuns := nodeRuns + [NodeRun(nodeId, Completed)];
      var k := OutEdge(g.edges, nodeId);
      if k.None? {
        status := Completed;
        return Returned(None);
      }
      return Returned(g.edges[k.value].target);
    }

    /**
     The loop of the interpreter, watched for at most `fuel` node executions; `raises(k)` says
     whether the k-th execution throws. The ghost result is the walk that was taken.
     */
    method ContinueRun(g: Graph, raises: nat -> bool, now: int, fuel: nat)
      returns (ended: bool, raised: bool, ghost walk: seq<string>)
      modifies this
      // nothing to enter: the run is left as it was
      ensures Entry(g, old(currentNode)) in {None, Some("")} ==>
                ended && !raised && walk == [] && status == old(status) && nodeRuns == old(nodeRuns) &&
                currentNode == old(currentNode) && wakeAt == old(wakeAt)
      // otherwise the nodes entered are exactly a first-edge walk from the entry, in order
      ensures Entry(g, old(currentNode)) !in {None, Some("")} ==>
                walk != [] && Some(walk[0]) == Entry(g, old(currentNode)) && IsWalk(g, walk)
      ensures forall i :: 0 <= i < |walk| - 1 ==> !Breaks(g, walk[i], raises(i))
      ensures ended && walk != [] ==>
                var last := |walk| - 1;
                && |walk| <= fuel
                && (Stops(g, walk) || raised)
                && raised == Breaks(g, walk[last], raises(last))
                && status == FinalStatus(g, walk[last], raises(last), old(status))
                && nodeRuns == old(nodeRuns) + CompletedRows(walk[..last]) + LastRow(g, walk[last], raises(last))
                && currentNode == (if last > 0 || (!raised && HasType(g, walk[last], Wait)) then walk[last]
                                   else old(currentNode))
      // only a wait sets the time to wake
      ensures ended && walk != [] ==>
                var node := NodeOf(g.nodes, walk[|walk| - 1]);
                wakeAt == if !raised && node.Some? && node.value.typ == Wait then Some(now + node.value.hours * 3600)
                          else old(wakeAt)
      // how it ends, in terms of the last node entered
      ensures ended && walk != [] && old(status) == Running ==>
                var a := walk[|walk| - 1];
                && (status == Failed <==> raised)
                && (status == Waiting <==> !raised && HasType(g, a, Wait))
                && (status == Completed <==> !raised && IsEnd(g, a))
      ensures ended && walk != [] && NodeOf(g.nodes, walk[|walk| - 1]).Some? ==>
                var a := walk[|walk| - 1];
                && nodeRuns != [] && nodeRuns[|nodeRuns| - 1].nodeId == a
                && (nodeRuns[|nodeRuns| - 1].status == Failed <==> raised)
                && (nodeRuns[|nodeRuns| - 1].status == Waiting <==> !raised && HasType(g, a, Wait))
                && (nodeRuns[|nodeRuns| - 1].status == Completed <==> !raised && !HasType(g, a, Wait))
      ensures !ended ==>
                |walk| == fuel + 1 && !raised && status == old(status) &&
                nodeRuns == old(nodeRuns) + CompletedRows(walk[..fuel]) && wakeAt == old(wakeAt) &&
                currentNode == if fuel > 0 then walk[fuel] else old(currentNode)
    {
      var entry := Entry(g, currentNode);
      raised, walk := false, [];
      if entry.None? || entry.value == "" {
        return true, false, [];
      }
      var nodeId := entry.value;
      walk := [nodeId];
      var steps := 0;
      while steps < fuel
        invariant 0 <= steps <= fuel
        invariant |walk| == steps + 1 && walk[steps] == nodeId && Some(walk[0]) == entry && IsWalk(g, walk)
        invariant forall i :: 0 <= i < steps ==> !Breaks(g, walk[i], raises(i))
        invariant status == old(status) && wakeAt == old(wakeAt)
        invariant nodeRuns == old(nodeRuns) + CompletedRows(walk[..steps])
        invariant currentNode == if steps == 0 then old(currentNode) else nodeId
      {
        LastRowMeans(g, nodeId, raises(steps));
        var out := ExecuteNode(g, nodeId, raises(steps), now);
        assert walk[..|walk| - 1] == walk[..steps];
        if out.Raised? {
          return true, true, walk;
        }
        if out.next == Some(DELAYED) || out.next == None || out.next == Some("") {
          return true, false, walk;
        }
        WalkGoesOn(g, walk, out.next.value);
        ghost var before := walk;
        walk := walk + [out.next.value];
        assert walk[..steps + 1] == before && before[..steps] + [nodeId] == before;
        nodeId := out.next.value;
        currentNode := nodeId;
        steps := steps + 1;
      }
      ended := false;
    }
  }
}
