/**
  The directed graph of a workflow and its topological generations (src/schedflow/core/workflow.py:358-378).
 */
module Graph {

  type Id = string

  /** `networkx.DiGraph`: nodes in insertion order; parallel edges count once. */
  datatype Graph = Graph(nodes: seq<Id>, edges: seq<(Id, Id)>)

  predicate NoDuplicates<T(==)>(s: seq<T>) {
    forall i, j :: 0 <= i < j < |s| ==> s[i] != s[j]
  }

  function Elements<T>(s: seq<T>): set<T> {
    set x | x in s
  }

  predicate ValidGraph(g: Graph) {
    && NoDuplicates(g.nodes)
    && forall e :: e in g.edges ==> e.0 in g.nodes && e.1 in g.nodes
  }

  /** The distinct predecessors of a node; their number is its in-degree. */
  function Predecessors(g: Graph, v: Id): set<Id> {
    set u | u in g.nodes && (u, v) in g.edges
  }

  /** The distinct successors of a node, in the order in which their edges were added. */
  function Successors(edges: seq<(Id, Id)>, u: Id): (r: seq<Id>)
    ensures NoDuplicates(r)
    ensures forall v :: v in r <==> (u, v) in edges
  {
    if edges == [] then []
    else
      var rest := Successors(edges[..|edges| - 1], u);
      var last := edges[|edges| - 1];
      assert edges == edges[..|edges| - 1] + [last];
      if last.0 == u && last.1 !in rest then rest + [last.1] else rest
  }

  // ---- paths ----

  ghost predicate IsPath(g: Graph, p: seq<Id>) {
    && |p| > 0
    && (forall i :: 0 <= i < |p| ==> p[i] in g.nodes)
    && (forall i :: 0 <= i < |p| - 1 ==> (p[i], p[i + 1]) in g.edges)
  }

  ghost predicate PathFromTo(g: Graph, p: seq<Id>, u: Id, v: Id) {
    IsPath(g, p) && p[0] == u && p[|p| - 1] == v
  }

  ghost predicate Reachable(g: Graph, u: Id, v: Id) {
    exists p :: PathFromTo(g, p, u, v)
  }

  ghost predicate IsCycle(g: Graph, p: seq<Id>) {
    IsPath(g, p) && |p| > 1 && p[0] == p[|p| - 1]
  }

  /** `networkx.is_directed_acyclic_graph` */
  ghost predicate Acyclic(g: Graph) {
    forall p :: !IsCycle(g, p)
  }

  // ---- layers ----

  /** The nodes outside `done` whose predecessors all lie inside. */
  ghost function Ready(g: Graph, done: set<Id>): set<Id> {
    set v | v in g.nodes && v !in done && Predecessors(g, v) <= done
  }

  /** The nodes of the first `k` layers. */
  function Below(layers: seq<seq<Id>>, k: nat): set<Id>
    requires k <= |layers|
  {
    if k == 0 then {} else Below(layers, k - 1) + Elements(layers[k - 1])
  }

  ghost predicate IsLayer(g: Graph, layers: seq<seq<Id>>, k: nat)
    requires k < |layers|
  {
    layers[k] != [] && NoDuplicates(layers[k]) && Elements(layers[k]) == Ready(g, Below(layers, k))
  }

  /** Every layer is what is ready once the layers before it are done. */
  ghost predicate Layers(g: Graph, layers: seq<seq<Id>>) {
    forall k :: 0 <= k < |layers| ==> IsLayer(g, layers, k)
  }

  /** Layers that nothing can be added to. */
  ghost predicate AllLayers(g: Graph, layers: seq<seq<Id>>) {
    Layers(g, layers) && Ready(g, Below(layers, |layers|)) == {}
  }

  lemma {:induction false} BelowContains(layers: seq<seq<Id>>, i: nat, k: nat, v: Id)
    requires i < k <= |layers| && v in layers[i]
    ensures v in Below(layers, k)
    decreases k
  {
    if i < k - 1 {
      BelowContains(layers, i, k - 1, v);
    }
  }

  lemma {:induction false} LayerOf(layers: seq<seq<Id>>, k: nat, v: Id) returns (i: nat)
    requires k <= |layers| && v in Below(layers, k)
    ensures i < k && v in layers[i]
    decreases k
  {
    if v in layers[k - 1] {
      i := k - 1;
    } else {
      i := LayerOf(layers, k - 1, v);
    }
  }

  lemma {:induction false} BelowPrefix(layers: seq<seq<Id>>, more: seq<seq<Id>>, k: nat)
    requires k <= |layers|
    ensures Below(layers + more, k) == Below(layers, k)
    decreases k
  {
    if k > 0 {
      BelowPrefix(layers, more, k - 1);
    }
  }

  lemma AppendLayer(g: Graph, layers: seq<seq<Id>>, layer: seq<Id>)
    requires Layers(g, layers) && layer != [] && NoDuplicates(layer)
    requires Elements(layer) == Ready(g, Below(layers, |layers|))
    ensures Layers(g, layers + [layer])
    ensures Below(layers + [layer], |layers| + 1) == Below(layers, |layers|) + Elements(layer)
  {
    forall k | 0 <= k <= |layers|
      ensures IsLayer(g, layers + [layer], k)
    {
      BelowPrefix(layers, [layer], k);
      assert k < |layers| ==> IsLayer(g, layers, k);
    }
    BelowPrefix(layers, [layer], |layers|);
    assert (layers + [layer])[|layers|] == layer;
  }

  // ---- the generations method ----

  lemma NotInPrefix<T>(s: seq<T>, j: nat)
    requires NoDuplicates(s) && j < |s|
    ensures s[j] !in s[..j] && s[j] in s && s[..j + 1] == s[..j] + [s[j]]
  {
  }

  /** How many predecessors of `v` are not yet done. */
  ghost function Left(g: Graph, v: Id, done: set<Id>): nat {
    |Predecessors(g, v) - done|
  }

  lemma LeftIsZero(g: Graph, v: Id, done: set<Id>)
    ensures Left(g, v, done) == 0 <==> Predecessors(g, v) <= done
  {
    var open := Predecessors(g, v) - done;
    if Left(g, v, done) == 0 {
      forall u | u in Predecessors(g, v)
        ensures u in done
      {
        assert u !in open;
      }
    } else {
      assert open != {};
    }
  }

  lemma OneMoreDone(g: Graph, v: Id, done: set<Id>, u: Id)
    requires u in g.nodes && u !in done
    ensures Left(g, v, done + {u}) == Left(g, v, done) - (if (u, v) in g.edges then 1 else 0)
  {
    var open := Predecessors(g, v) - done;
    assert Predecessors(g, v) - (done + {u}) == open - {u};
  }

  /** The counters are right for every node that is neither done nor in the current layer, once the nodes of
      `counted` and, for the children in `touched`, one more node have been taken off. */
  ghost predicate Counters(g: Graph, open: set<Id>, counted: set<Id>, touched: seq<Id>, indegree: map<Id, int>,
                           newZero: seq<Id>) {
    && (forall v :: v in open ==>
          v in indegree && indegree[v] == Left(g, v, counted) - (if v in touched then 1 else 0))
    && NoDuplicates(newZero)
    && (forall v :: v in newZero <==> v in open && v in indegree && indegree[v] == 0)
  }

  /** Taking one off the counter of a child of `u`. */
  lemma TouchChild(g: Graph, open: set<Id>, counted: set<Id>, touched: seq<Id>, touched': seq<Id>,
                   indegree: map<Id, int>, newZero: seq<Id>, u: Id, child: Id)
    requires touched' == touched + [child]
    requires Counters(g, open, counted, touched, indegree, newZero)
    requires u in g.nodes && u !in counted && (u, child) in g.edges && child in open && child !in touched
    ensures child in indegree
    ensures var n := indegree[child] - 1;
            Counters(g, open, counted, touched', indegree[child := n],
                     if n == 0 then newZero + [child] else newZero)
  {
    assert Left(g, child, counted) >= 1 by {
      OneMoreDone(g, child, counted, u);
    }
  }

  /** When all children of `u` have been touched, `u` is counted. */
  lemma NodeCounted(g: Graph, open: set<Id>, counted: set<Id>, indegree: map<Id, int>, newZero: seq<Id>, u: Id)
    requires u in g.nodes && u !in counted
    requires Counters(g, open, counted, Successors(g.edges, u), indegree, newZero)
    ensures Counters(g, open, counted + {u}, [], indegree, newZero)
  {
    forall v | v in open
      ensures v in indegree && indegree[v] == Left(g, v, counted + {u})
    {
      OneMoreDone(g, v, counted, u);
    }
  }

  /** Children of the current layer are neither done nor in it. */
  lemma ChildIsOpen(g: Graph, done: set<Id>, zero: seq<Id>, u: Id, child: Id)
    requires ValidGraph(g) && Current(g, done, zero) && u in Ready(g, done) && (u, child) in g.edges
    ensures child in OpenNodes(g, done, zero)
  {
    assert u in Predecessors(g, child);
    assert child in Elements(zero) ==> child in Ready(g, done);
  }

  ghost predicate Closed(g: Graph, done: set<Id>) {
    forall v :: v in done ==> Predecessors(g, v) <= done
  }

  /** The nodes that are neither done nor in the current layer. */
  ghost function OpenNodes(g: Graph, done: set<Id>, zero: seq<Id>): set<Id> {
    Elements(g.nodes) - done - Elements(zero)
  }

  /** `done` is closed and the current layer is what is ready after it. */
  ghost predicate Current(g: Graph, done: set<Id>, zero: seq<Id>) {
    && Closed(g, done) && done <= Elements(g.nodes)
    && NoDuplicates(zero) && Elements(zero) == Ready(g, done)
  }

  /** The state between layers. */
  ghost predicate BetweenLayers(g: Graph, layers: seq<seq<Id>>, zero: seq<Id>, indegree: map<Id, int>) {
    var done := Below(layers, |layers|);
    && Layers(g, layers) && Current(g, done, zero)
    && Counters(g, OpenNodes(g, done, zero), done, [], indegree, [])
  }

  lemma StartOfLayers(g: Graph, zero: seq<Id>, indegree: map<Id, int>)
    requires ValidGraph(g)
    requires NoDuplicates(zero) && forall v :: v in zero <==> v in g.nodes && Predecessors(g, v) == {}
    requires forall v :: v in g.nodes && Predecessors(g, v) != {} ==> v in indegree && indegree[v] == |Predecessors(g, v)|
    ensures BetweenLayers(g, [], zero, indegree)
  {
    forall v | v in g.nodes
      ensures Predecessors(g, v) - {} == Predecessors(g, v)
    {
    }
  }

  lemma NextReady(g: Graph, done: set<Id>, zero: seq<Id>, indegree: map<Id, int>, newZero: seq<Id>)
    requires Current(g, done, zero)
    requires Counters(g, OpenNodes(g, done, zero), done + Elements(zero), [], indegree, newZero)
    ensures Current(g, done + Elements(zero), newZero)
    ensures Counters(g, OpenNodes(g, done + Elements(zero), newZero), done + Elements(zero), [], indegree, [])
  {
    var done' := done + Elements(zero);
    forall v
      ensures v in Elements(newZero) <==> v in Ready(g, done')
    {
      LeftIsZero(g, v, done');
    }
  }

  lemma NextLayer(g: Graph, layers: seq<seq<Id>>, zero: seq<Id>, indegree: map<Id, int>, newZero: seq<Id>)
    requires Layers(g, layers) && zero != []
    requires var done := Below(layers, |layers|);
             Current(g, done, zero) && Counters(g, OpenNodes(g, done, zero), done + Elements(zero), [], indegree, newZero)
    ensures BetweenLayers(g, layers + [zero], newZero, indegree)
  {
    AppendLayer(g, layers, zero);
    NextReady(g, Below(layers, |layers|), zero, indegree, newZero);
  }

  lemma LayerIsProgress(g: Graph, layers: seq<seq<Id>>, zero: seq<Id>)
    requires zero != [] && Current(g, Below(layers, |layers|), zero)
    ensures Elements(g.nodes) - Below(layers + [zero], |layers| + 1) < Elements(g.nodes) - Below(layers, |layers|)
  {
    BelowPrefix(layers, [zero], |layers|);
    assert zero[0] in Elements(zero);
  }

  /** The nodes of `nodes` without predecessors, in order. */
  function Sources(g: Graph, nodes: seq<Id>): (r: seq<Id>)
    requires NoDuplicates(nodes)
    ensures NoDuplicates(r) && forall v :: v in r <==> v in nodes && Predecessors(g, v) == {}
  {
    if nodes == [] then []
    else
      var n := |nodes| - 1;
      var rest := Sources(g, nodes[..n]);
      assert nodes == nodes[..n] + [nodes[n]] && nodes[n] !in nodes[..n];
      if |Predecessors(g, nodes[n])| == 0 then rest + [nodes[n]] else rest
  }

  /** `_generations` */
  method Generations(g: Graph) returns (layers: seq<seq<Id>>)
    requires ValidGraph(g)
    ensures AllLayers(g, layers)
  {
    var indegree: map<Id, int> :=
      map v | v in g.nodes && |Predecessors(g, v)| > 0 :: |Predecessors(g, v)|;
    var zero := Sources(g, g.nodes);
    layers := [];
    StartOfLayers(g, zero, indegree);
    while zero != []
      invariant BetweenLayers(g, layers, zero, indegree)
      decreases Elements(g.nodes) - Below(layers, |layers|)
    {
      var newZero;
      indegree, newZero := CountLayer(g, zero, indegree, Below(layers, |layers|));
      NextLayer(g, layers, zero, indegree, newZero);
      LayerIsProgress(g, layers, zero);
      layers, zero := layers + [zero], newZero;
    }
    assert Elements(zero) == {};
  }

  /** One pass over the current layer: the counters without it, and the nodes whose counter has reached zero. */
  method CountLayer(g: Graph, zero: seq<Id>, indegree0: map<Id, int>, ghost done: set<Id>)
    returns (indegree: map<Id, int>, newZero: seq<Id>)
    requires ValidGraph(g) && Current(g, done, zero) && Counters(g, OpenNodes(g, done, zero), done, [], indegree0, [])
    ensures Counters(g, OpenNodes(g, done, zero), done + Elements(zero), [], indegree, newZero)
  {
    indegree, newZero := indegree0, [];
    assert done + Elements(zero[..0]) == done;
    for i := 0 to |zero|
      invariant Counters(g, OpenNodes(g, done, zero), done + Elements(zero[..i]), [], indegree, newZero)
    {
      indegree, newZero := CountNode(g, zero, i, indegree, newZero, done);
    }
    assert zero[..|zero|] == zero;
  }

  /** The inner loop of `_generations`: takes `zero[i]` off the counters of its successors. */
  method CountNode(g: Graph, zero: seq<Id>, i: nat, indegree0: map<Id, int>, newZero0: seq<Id>, ghost done: set<Id>)
    returns (indegree: map<Id, int>, newZero: seq<Id>)
    requires ValidGraph(g) && i < |zero| && Current(g, done, zero)
    requires Counters(g, OpenNodes(g, done, zero), done + Elements(zero[..i]), [], indegree0, newZero0)
    ensures Counters(g, OpenNodes(g, done, zero), done + Elements(zero[..i + 1]), [], indegree, newZero)
  {
    indegree, newZero := indegree0, newZero0;
    var node := zero[i];
    var children := Successors(g.edges, node);
    ghost var open, counted := OpenNodes(g, done, zero), done + Elements(zero[..i]);
    OneMoreCounted(g, done, zero, i);
    for j := 0 to |children|
      invariant Counters(g, open, counted, children[..j], indegree, newZero)
    {
      NextChild(g, done, zero, node, children, j);
      indegree, newZero := TakeOff(g, open, counted, children[..j], children[..j + 1], indegree, newZero, node, children[j]);
    }
    assert children[..|children|] == children;
    NodeCounted(g, open, counted, indegree, newZero, node);
  }

  /** One child: its counter loses one, and the child is ready when nothing is left. */
  method TakeOff(ghost g: Graph, ghost open: set<Id>, ghost counted: set<Id>, ghost touched: seq<Id>,
                 ghost touched': seq<Id>, indegree0: map<Id, int>, newZero0: seq<Id>, ghost u: Id, child: Id)
    returns (indegree: map<Id, int>, newZero: seq<Id>)
    requires touched' == touched + [child] && Counters(g, open, counted, touched, indegree0, newZero0)
    requires u in g.nodes && u !in counted && (u, child) in g.edges && child in open && child !in touched
    ensures Counters(g, open, counted, touched', indegree, newZero)
  {
    indegree, newZero := indegree0, newZero0;
    TouchChild(g, open, counted, touched, touched', indegree, newZero, u, child);
    indegree := indegree[child := (if child in indegree then indegree[child] else 0) - 1];
    if indegree[child] == 0 {
      newZero := newZero + [child];
    }
  }

  lemma NextChild(g: Graph, done: set<Id>, zero: seq<Id>, node: Id, children: seq<Id>, j: nat)
    requires ValidGraph(g) && Current(g, done, zero) && j < |children| && children == Successors(g.edges, node)
    requires node in Ready(g, done)
    ensures children[j] in OpenNodes(g, done, zero) && children[j] !in children[..j] && (node, children[j]) in g.edges
    ensures children[..j + 1] == children[..j] + [children[j]]
  {
    NotInPrefix(children, j);
    SuccessorIsEdge(g, node, children[j]);
    ChildIsOpen(g, done, zero, node, children[j]);
  }

  lemma SuccessorIsEdge(g: Graph, u: Id, v: Id)
    requires v in Successors(g.edges, u)
    ensures (u, v) in g.edges
  {
  }

  lemma OneMoreCounted(g: Graph, done: set<Id>, zero: seq<Id>, i: nat)
    requires i < |zero| && Current(g, done, zero)
    ensures zero[i] in g.nodes && zero[i] in Ready(g, done) && zero[i] !in done + Elements(zero[..i])
    ensures done + Elements(zero[..i + 1]) == done + Elements(zero[..i]) + {zero[i]}
  {
    assert zero[i] in Elements(zero);
    assert zero[..i + 1] == zero[..i] + [zero[i]];
  }
}
