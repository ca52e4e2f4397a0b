/**
  The JSON form of a workflow and its reconstruction by replaying `add_task` and `add_edge`
  (src/schedflow/core/workflow.py:382-468).
 */
module WorkflowJson {
  import opened Prelude
  import opened Graph
  import opened Layering
  import opened TaskSpecs
  import opened WorkflowMeaning
  import opened Workflows

  type RefOf = int -> Option<string>

  datatype NodeJson = NodeJson(
    nodeId: Id,
    task: SpecJson,
    name: Option<string>,
    description: Option<string>,
    retries: Option<int>,
    onSuccess: Option<SpecJson>,
    onFailure: Option<SpecJson>)

  datatype EdgeJson = EdgeJson(
    source: Id,
    target: Id,
    condition: Option<SpecJson>,
    name: Option<string>,
    description: Option<string>)

  datatype FlowJson = FlowJson(
    flowId: Option<string>,
    projectRoot: Option<string>,
    nodes: seq<NodeJson>,
    edges: seq<EdgeJson>)

  // ---- to_dict ----

  function OptionalToJson(s: Option<TaskSpec>, refOf: RefOf): Result<Option<SpecJson>> {
    match s
    case None => Ok(None)
    case Some(spec) =>
      match ToJson(spec, refOf)
      case Ok(j) => Ok(Some(j))
      case Err(message) => Err(message)
  }

  function NodeToJson(id: Id, node: Node, refOf: RefOf): Result<NodeJson> {
    var task := ToJson(node.spec, refOf);
    var onSuccess := OptionalToJson(node.onSuccess, refOf);
    var onFailure := OptionalToJson(node.onFailure, refOf);
    if task.Err? || onSuccess.Err? || onFailure.Err? then Err("no reference to a callable")
    else Ok(NodeJson(id, task.value, node.name, node.description, Some(node.retries), onSuccess.value, onFailure.value))
  }

  function EdgeToJson(e: Edge, refOf: RefOf): Result<EdgeJson> {
    match OptionalToJson(e.condition, refOf)
    case Ok(condition) => Ok(EdgeJson(e.source, e.target, condition, e.name, e.description))
    case Err(message) => Err(message)
  }

  function NodesToJson(order: seq<Id>, nodes: map<Id, Node>, refOf: RefOf): Result<seq<NodeJson>>
    requires forall n :: n in order ==> n in nodes
  {
    if order == [] then Ok([])
    else
      var first := NodeToJson(order[0], nodes[order[0]], refOf);
      var rest := NodesToJson(order[1..], nodes, refOf);
      if first.Err? then Err(first.message)
      else if rest.Err? then rest
      else Ok([first.value] + rest.value)
  }

  function EdgesToJson(edges: seq<Edge>, refOf: RefOf): Result<seq<EdgeJson>> {
    if edges == [] then Ok([])
    else
      var first := EdgeToJson(edges[0], refOf);
      var rest := EdgesToJson(edges[1..], refOf);
      if first.Err? then Err(first.message)
      else if rest.Err? then rest
      else Ok([first.value] + rest.value)
  }

  /** `to_dict`; it raises when a callable has no reference. */
  function FlowToJson(flowId: Option<string>, projectRoot: Option<string>, f: Flow, refOf: RefOf): Result<FlowJson>
    requires forall n :: n in f.order ==> n in f.nodes
  {
    var nodes := NodesToJson(f.order, f.nodes, refOf);
    var edges := EdgesToJson(f.edges, refOf);
    if nodes.Err? then Err(nodes.message)
    else if edges.Err? then Err(edges.message)
    else Ok(FlowJson(flowId, projectRoot, nodes.value, edges.value))
  }

  // ---- from_dict ----

  /** `_spec_from_json` */
  function OptionalFromJson(j: Option<SpecJson>): Result<Option<TaskSpec>> {
    match j
    case None => Ok(None)
    case Some(spec) =>
      match FromJson(spec)
      case Ok(s) => Ok(Some(s))
      case Err(message) => Err(message)
  }

  lemma FromJsonIsAcceptable(j: Option<SpecJson>)
    ensures var r := OptionalFromJson(j);
            r.Ok? && r.value.Some? ==> Acceptable(r.value.value)
  {
  }

  /** The node that `from_dict` adds, if nothing is wrong with its JSON. */
  function ReplayedNode(j: NodeJson): Option<Node> {
    var spec := FromJson(j.task);
    var onSuccess := OptionalFromJson(j.onSuccess);
    var onFailure := OptionalFromJson(j.onFailure);
    if spec.Err? || onSuccess.Err? || onFailure.Err? then None
    else
      var s := spec.value;
      var func := if s.kind == "python_callable" then s.func else NoFunc;
      var made := MakeSpec(func, s.kind, s.command, s.scriptPath, s.script, Some(s.args), Some(s.kwargs), s.timeout);
      if made.Err? then None
      else
        var retries := if j.retries.Some? then j.retries.value else 1;
        Some(Node(made.value, j.name, j.description, Retries(retries), onSuccess.value, onFailure.value))
  }

  function ReplayNode(f: Flow, j: NodeJson): Option<Flow> {
    if j.nodeId == "" || j.nodeId in f.nodes || ReplayedNode(j).None? then None
    else Some(WithTask(f, j.nodeId, ReplayedNode(j).value))
  }

  ghost function ReplayEdge(f: Flow, j: EdgeJson): Option<Flow> {
    var condition := OptionalFromJson(j.condition);
    if condition.Err? || j.source !in f.nodes || j.target !in f.nodes || Reachable(ToGraph(f), j.target, j.source) then None
    else Some(WithFlowEdge(f, Edge(j.source, j.target, condition.value, j.name, j.description)))
  }

  ghost function ReplayNodes(f: Flow, nodes: seq<NodeJson>): Option<Flow>
    decreases |nodes|
  {
    if nodes == [] then Some(f)
    else
      match ReplayNode(f, nodes[0])
      case None => None
      case Some(g) => ReplayNodes(g, nodes[1..])
  }

  ghost function ReplayEdges(f: Flow, edges: seq<EdgeJson>): Option<Flow>
    decreases |edges|
  {
    if edges == [] then Some(f)
    else
      match ReplayEdge(f, edges[0])
      case None => None
      case Some(g) => ReplayEdges(g, edges[1..])
  }

  const EMPTY := Flow([], map[], [])

  /** The flow that replaying a JSON form builds, unless some step raises. */
  ghost function Replay(j: FlowJson): Option<Flow> {
    match ReplayNodes(EMPTY, j.nodes)
    case None => None
    case Some(f) => ReplayEdges(f, j.edges)
  }

  /** `from_dict`. No result is an exception of one of the calls. */
  method FlowFromJson(j: FlowJson) returns (r: Option<Workflow>)
    ensures r.Some? <==> Replay(j).Some?
    ensures r.Some? ==>
              && fresh(r.value) && r.value.Valid() && r.value.Value() == Replay(j).value
              && r.value.flowId == j.flowId && r.value.projectRoot == j.projectRoot
  {
    var wf := new Workflow(j.flowId, j.projectRoot);
    assert j.nodes[0..] == j.nodes && j.edges[0..] == j.edges;
    for i := 0 to |j.nodes|
      invariant fresh(wf) && wf.Valid() && ReplayNodes(wf.Value(), j.nodes[i..]) == ReplayNodes(EMPTY, j.nodes)
    {
      assert j.nodes[i..][1..] == j.nodes[i + 1..];
      var ok := AddNodeFromJson(wf, j.nodes[i]);
      if !ok {
        return None;
      }
    }
    ghost var f := wf.Value();
    for i := 0 to |j.edges|
      invariant fresh(wf) && wf.Valid() && ReplayEdges(wf.Value(), j.edges[i..]) == ReplayEdges(f, j.edges)
    {
      assert j.edges[i..][1..] == j.edges[i + 1..];
      var ok := AddEdgeFromJson(wf, j.edges[i]);
      if !ok {
        return None;
      }
    }
    r := Some(wf);
  }

  method AddNodeFromJson(wf: Workflow, j: NodeJson) returns (ok: bool)
    requires wf.Valid()
    modifies wf
    ensures wf.Valid() && (ok <==> ReplayNode(old(wf.Value()), j).Some?)
    ensures ok ==> wf.Value() == ReplayNode(old(wf.Value()), j).value
  {
    var spec := FromJson(j.task);
    var onSuccess := OptionalFromJson(j.onSuccess);
    var onFailure := OptionalFromJson(j.onFailure);
    if spec.Err? || onSuccess.Err? || onFailure.Err? {
      return false;
    }
    FromJsonIsAcceptable(j.onSuccess);
    FromJsonIsAcceptable(j.onFailure);
    var s := spec.value;
    var r := wf.AddTask(j.nodeId, if s.kind == "python_callable" then s.func else NoFunc, s.kind, s.command,
                        s.scriptPath, s.script, Some(s.args), Some(s.kwargs), s.timeout, j.name, j.description,
                        if j.retries.Some? then j.retries.value else 1, onSuccess.value, onFailure.value);
    ok := r.Ok?;
  }

  method AddEdgeFromJson(wf: Workflow, j: EdgeJson) returns (ok: bool)
    requires wf.Valid()
    modifies wf
    ensures wf.Valid() && (ok <==> ReplayEdge(old(wf.Value()), j).Some?)
    ensures ok ==> wf.Value() == ReplayEdge(old(wf.Value()), j).value
  {
    var condition := OptionalFromJson(j.condition);
    if condition.Err? {
      return false;
    }
    FromJsonIsAcceptable(j.condition);
    var r := wf.AddEdge(j.source, j.target, condition.value, j.name, j.description);
    ok := r == Added;
  }

  // ---- the round trip ----

  predicate OptionalHasReference(s: Option<TaskSpec>, refOf: RefOf) {
    s.Some? ==> HasReference(s.value, refOf)
  }

  predicate NodeSerialisable(node: Node, refOf: RefOf) {
    HasReference(node.spec, refOf) && OptionalHasReference(node.onSuccess, refOf) && OptionalHasReference(node.onFailure, refOf)
  }

  /** Every callable in the flow has a reference. */
  predicate Serialisable(f: Flow, refOf: RefOf) {
    && (forall n :: n in f.nodes ==> NodeSerialisable(f.nodes[n], refOf))
    && (forall e :: e in f.edges ==> OptionalHasReference(e.condition, refOf))
  }

  function OptionalNormal(s: Option<TaskSpec>, refOf: RefOf): Option<TaskSpec> {
    if s.Some? then Some(Normal(s.value, refOf)) else None
  }

  function NormalNode(node: Node, refOf: RefOf): Node {
    Node(Normal(node.spec, refOf), node.name, node.description, node.retries,
         OptionalNormal(node.onSuccess, refOf), OptionalNormal(node.onFailure, refOf))
  }

  function NormalEdge(e: Edge, refOf: RefOf): Edge {
    e.(condition := OptionalNormal(e.condition, refOf))
  }

  function NormalEdges(edges: seq<Edge>, refOf: RefOf): (r: seq<Edge>)
    ensures |r| == |edges|
    ensures forall i :: 0 <= i < |r| ==> r[i] == NormalEdge(edges[i], refOf)
  {
    if edges == [] then [] else [NormalEdge(edges[0], refOf)] + NormalEdges(edges[1..], refOf)
  }

  /** The flow with every specification in normal form. */
  function NormalFlow(f: Flow, refOf: RefOf): Flow {
    Flow(f.order, map n | n in f.nodes :: NormalNode(f.nodes[n], refOf), NormalEdges(f.edges, refOf))
  }

  lemma OptionalRoundTrip(s: Option<TaskSpec>, refOf: RefOf)
    requires (s.Some? ==> Acceptable(s.value)) && OptionalHasReference(s, refOf)
    ensures OptionalToJson(s, refOf).Ok?
    ensures OptionalFromJson(OptionalToJson(s, refOf).value) == Ok(OptionalNormal(s, refOf))
    ensures OptionalToJson(OptionalNormal(s, refOf), refOf) == OptionalToJson(s, refOf)
    ensures OptionalNormal(s, refOf).Some? ==> Acceptable(OptionalNormal(s, refOf).value)
  {
    if s.Some? {
      SpecRoundTrip(s.value, refOf);
    }
  }

  lemma NodeRoundTrip(id: Id, node: Node, refOf: RefOf)
    requires ValidNode(id, node) && NodeSerialisable(node, refOf)
    ensures NodeToJson(id, node, refOf).Ok?
    ensures NodeToJson(id, node, refOf).value.nodeId == id
    ensures ReplayedNode(NodeToJson(id, node, refOf).value) == Some(NormalNode(node, refOf))
    ensures NodeToJson(id, NormalNode(node, refOf), refOf) == NodeToJson(id, node, refOf)
    ensures ValidNode(id, NormalNode(node, refOf))
  {
    SpecRoundTrip(node.spec, refOf);
    OptionalRoundTrip(node.onSuccess, refOf);
    OptionalRoundTrip(node.onFailure, refOf);
  }

  lemma EdgeRoundTrip(e: Edge, refOf: RefOf)
    requires (e.condition.Some? ==> Acceptable(e.condition.value)) && OptionalHasReference(e.condition, refOf)
    ensures EdgeToJson(e, refOf).Ok?
    ensures var j := EdgeToJson(e, refOf).value;
            && j.source == e.source && j.target == e.target
            && OptionalFromJson(j.condition) == Ok(NormalEdge(e, refOf).condition)
            && j.name == e.name && j.description == e.description
    ensures EdgeToJson(NormalEdge(e, refOf), refOf) == EdgeToJson(e, refOf)
  {
    OptionalRoundTrip(e.condition, refOf);
  }

  // ---- nodes ----

  /** The first `i` nodes, in normal form and without edges. */
  function FirstNodes(f: Flow, i: nat, refOf: RefOf): Flow
    requires i <= |f.order| && forall n :: n in f.order ==> n in f.nodes
  {
    Flow(f.order[..i], map n | n in f.order[..i] :: NormalNode(f.nodes[n], refOf), [])
  }

  lemma OneMoreNode(f: Flow, i: nat, refOf: RefOf)
    requires WellFormed(f) && Serialisable(f, refOf) && i < |f.order|
    ensures var j := NodeToJson(f.order[i], f.nodes[f.order[i]], refOf);
            j.Ok? && ReplayNode(FirstNodes(f, i, refOf), j.value) == Some(FirstNodes(f, i + 1, refOf))
  {
    var n := f.order[i];
    assert n in f.order && ValidNode(n, f.nodes[n]);
    NodeRoundTrip(n, f.nodes[n], refOf);
    NotInPrefix(f.order, i);
    var g, h := FirstNodes(f, i, refOf), FirstNodes(f, i + 1, refOf);
    assert h.nodes == g.nodes[n := NormalNode(f.nodes[n], refOf)];
  }

  lemma {:induction false} NodesReplay(f: Flow, i: nat, refOf: RefOf)
    requires WellFormed(f) && Serialisable(f, refOf) && i <= |f.order|
    ensures var js := NodesToJson(f.order[i..], f.nodes, refOf);
            js.Ok? && ReplayNodes(FirstNodes(f, i, refOf), js.value) == Some(FirstNodes(f, |f.order|, refOf))
    decreases |f.order| - i
  {
    if i < |f.order| {
      OneMoreNode(f, i, refOf);
      NodesReplay(f, i + 1, refOf);
      var first, rest := NodeToJson(f.order[i], f.nodes[f.order[i]], refOf), NodesToJson(f.order[i + 1..], f.nodes, refOf);
      assert f.order[i..][0] == f.order[i] && f.order[i..][1..] == f.order[i + 1..];
      assert NodesToJson(f.order[i..], f.nodes, refOf) == Ok([first.value] + rest.value);
      assert ([first.value] + rest.value)[1..] == rest.value;
    }
  }

  // ---- edges ----

  /** All nodes in normal form, and the first `i` edges. */
  function FirstEdges(f: Flow, i: nat, refOf: RefOf): Flow
    requires i <= |f.edges|
  {
    NormalFlow(f, refOf).(edges := NormalEdges(f.edges, refOf)[..i])
  }

  lemma FirstEdgesAreValid(f: Flow, i: nat, refOf: RefOf)
    requires ValidFlow(f) && Serialisable(f, refOf) && i <= |f.edges|
    ensures ValidFlow(FirstEdges(f, i, refOf))
  {
    var g := FirstEdges(f, i, refOf);
    forall n | n in g.nodes
      ensures ValidNode(n, g.nodes[n])
    {
      assert ValidNode(n, f.nodes[n]);
      NodeRoundTrip(n, f.nodes[n], refOf);
    }
    forall e | e in g.edges
      ensures ValidEdge(g, e)
    {
      var k :| 0 <= k < i && g.edges[k] == e;
      NormalEdgeIsValid(f, f.edges[k], refOf);
    }
    forall p | p in ToGraph(g).edges
      ensures p in ToGraph(f).edges
    {
      var k :| 0 <= k < i && ToGraph(g).edges[k] == p;
      assert ToGraph(f).edges[k] == p;
    }
    FewerEdgesAcyclic(ToGraph(f), ToGraph(g));
  }

  lemma NormalEdgeIsValid(f: Flow, e: Edge, refOf: RefOf)
    requires WellFormed(f) && Serialisable(f, refOf) && e in f.edges
    ensures ValidEdge(NormalFlow(f, refOf), NormalEdge(e, refOf))
  {
    assert ValidEdge(f, e);
    OptionalRoundTrip(e.condition, refOf);
  }

  lemma NextEdges(f: Flow, i: nat, refOf: RefOf)
    requires i < |f.edges|
    ensures FirstEdges(f, i + 1, refOf) == WithFlowEdge(FirstEdges(f, i, refOf), NormalEdge(f.edges[i], refOf))
  {
    OneMorePrefix(NormalEdges(f.edges, refOf), i);
  }

  lemma OneMorePrefix<T>(s: seq<T>, i: nat)
    requires i < |s|
    ensures s[..i + 1] == s[..i] + [s[i]]
  {
  }

  /** Replaying the JSON form of an edge adds its normal form, unless that closes a cycle. */
  lemma ReplayOfEdge(g: Flow, e: Edge, refOf: RefOf)
    requires (e.condition.Some? ==> Acceptable(e.condition.value)) && OptionalHasReference(e.condition, refOf)
    requires ValidFlow(g) && ValidEdge(g, NormalEdge(e, refOf)) && ValidFlow(WithFlowEdge(g, NormalEdge(e, refOf)))
    ensures EdgeToJson(e, refOf).Ok?
    ensures ReplayEdge(g, EdgeToJson(e, refOf).value) == Some(WithFlowEdge(g, NormalEdge(e, refOf)))
  {
    EdgeRoundTrip(e, refOf);
    NewEdgeIsWellFormed(g, NormalEdge(e, refOf));
  }

  /** Replaying an edge of an acyclic flow cannot close a cycle. */
  lemma OneMoreEdge(f: Flow, i: nat, refOf: RefOf)
    requires ValidFlow(f) && Serialisable(f, refOf) && i < |f.edges|
    ensures var j := EdgeToJson(f.edges[i], refOf);
            j.Ok? && ReplayEdge(FirstEdges(f, i, refOf), j.value) == Some(FirstEdges(f, i + 1, refOf))
  {
    var e := f.edges[i];
    assert e in f.edges && ValidEdge(f, e);
    NormalEdgeIsValid(f, e, refOf);
    FirstEdgesAreValid(f, i, refOf);
    FirstEdgesAreValid(f, i + 1, refOf);
    NextEdges(f, i, refOf);
    ReplayOfEdge(FirstEdges(f, i, refOf), e, refOf);
  }

  lemma {:induction false} EdgesReplay(f: Flow, i: nat, refOf: RefOf)
    requires ValidFlow(f) && Serialisable(f, refOf) && i <= |f.edges|
    ensures var js := EdgesToJson(f.edges[i..], refOf);
            js.Ok? && ReplayEdges(FirstEdges(f, i, refOf), js.value) == Some(FirstEdges(f, |f.edges|, refOf))
    decreases |f.edges| - i
  {
    if i < |f.edges| {
      OneMoreEdge(f, i, refOf);
      EdgesReplay(f, i + 1, refOf);
      var first, rest := EdgeToJson(f.edges[i], refOf), EdgesToJson(f.edges[i + 1..], refOf);
      assert f.edges[i..][0] == f.edges[i] && f.edges[i..][1..] == f.edges[i + 1..];
      assert EdgesToJson(f.edges[i..], refOf) == Ok([first.value] + rest.value);
      assert ([first.value] + rest.value)[1..] == rest.value;
    }
  }

  /** Replaying the JSON form of a workflow raises nothing, `CycleError` included, and builds the same nodes, edges
      and order, with every specification in normal form. */
  lemma ReplayRoundTrip(flowId: Option<string>, projectRoot: Option<string>, f: Flow, refOf: RefOf)
    requires ValidFlow(f) && Serialisable(f, refOf)
    ensures FlowToJson(flowId, projectRoot, f, refOf).Ok?
    ensures Replay(FlowToJson(flowId, projectRoot, f, refOf).value) == Some(NormalFlow(f, refOf))
  {
    AllNodesReplay(f, refOf);
    AllEdgesReplay(f, refOf);
  }

  lemma AllNodesReplay(f: Flow, refOf: RefOf)
    requires WellFormed(f) && Serialisable(f, refOf)
    ensures var js := NodesToJson(f.order, f.nodes, refOf);
            js.Ok? && ReplayNodes(EMPTY, js.value) == Some(FirstEdges(f, 0, refOf))
  {
    NodesReplay(f, 0, refOf);
    assert f.order[0..] == f.order;
    NoNodesYet(f, refOf);
    AllNodes(f, refOf);
  }

  lemma NoNodesYet(f: Flow, refOf: RefOf)
    requires WellFormed(f)
    ensures FirstNodes(f, 0, refOf) == EMPTY
  {
  }

  lemma AllNodes(f: Flow, refOf: RefOf)
    requires WellFormed(f)
    ensures FirstNodes(f, |f.order|, refOf) == FirstEdges(f, 0, refOf)
  {
    assert f.order[..|f.order|] == f.order;
    assert FirstNodes(f, |f.order|, refOf).nodes == NormalFlow(f, refOf).nodes;
  }

  lemma AllEdgesReplay(f: Flow, refOf: RefOf)
    requires ValidFlow(f) && Serialisable(f, refOf)
    ensures var js := EdgesToJson(f.edges, refOf);
            js.Ok? && ReplayEdges(FirstEdges(f, 0, refOf), js.value) == Some(NormalFlow(f, refOf))
  {
    EdgesReplay(f, 0, refOf);
    assert f.edges[0..] == f.edges;
    assert FirstEdges(f, |f.edges|, refOf) == NormalFlow(f, refOf);
  }

  lemma {:induction false} NormalNodesToJson(order: seq<Id>, f: Flow, refOf: RefOf)
    requires WellFormed(f) && Serialisable(f, refOf) && forall n :: n in order ==> n in f.nodes
    ensures NodesToJson(order, NormalFlow(f, refOf).nodes, refOf) == NodesToJson(order, f.nodes, refOf)
    decreases |order|
  {
    if order != [] {
      NodeRoundTrip(order[0], f.nodes[order[0]], refOf);
      NormalNodesToJson(order[1..], f, refOf);
    }
  }

  lemma {:induction false} NormalEdgesToJson(f: Flow, edges: seq<Edge>, refOf: RefOf)
    requires WellFormed(f) && Serialisable(f, refOf) && forall e :: e in edges ==> e in f.edges
    ensures EdgesToJson(NormalEdges(edges, refOf), refOf) == EdgesToJson(edges, refOf)
    decreases |edges|
  {
    if edges != [] {
      assert ValidEdge(f, edges[0]);
      EdgeRoundTrip(edges[0], refOf);
      NormalEdgesToJson(f, edges[1..], refOf);
      assert NormalEdges(edges, refOf)[1..] == NormalEdges(edges[1..], refOf);
    }
  }

  /** Serialising the reconstructed workflow gives the same JSON again. */
  lemma JsonIsStable(flowId: Option<string>, projectRoot: Option<string>, f: Flow, refOf: RefOf)
    requires ValidFlow(f) && Serialisable(f, refOf)
    ensures FlowToJson(flowId, projectRoot, NormalFlow(f, refOf), refOf) == FlowToJson(flowId, projectRoot, f, refOf)
  {
    NormalNodesToJson(f.order, f, refOf);
    NormalEdgesToJson(f, f.edges, refOf);
  }
}
