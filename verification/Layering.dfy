/**
  What the topological generations of a graph are: the longest incoming path decides the layer, and all nodes
  have a layer if and only if the graph has no cycle. And when an edge may be added without making one.
 */
module Layering {
  import opened Graph

  // ---- layers and paths ----

  /** A node of layer `k` is not done before it and its predecessors are. */
  lemma InLayer(g: Graph, layers: seq<seq<Id>>, k: nat, v: Id)
    requires Layers(g, layers) && k < |layers| && v in layers[k]
    ensures v in g.nodes && v !in Below(layers, k) && Predecessors(g, v) <= Below(layers, k)
  {
    assert IsLayer(g, layers, k);
    assert v in Elements(layers[k]);
  }

  /** No node is in two layers. */
  lemma OneLayer(g: Graph, layers: seq<seq<Id>>, i: nat, j: nat, v: Id)
    requires Layers(g, layers) && i < |layers| && j < |layers| && v in layers[i] && v in layers[j]
    ensures i == j
  {
    InLayer(g, layers, i, v);
    InLayer(g, layers, j, v);
    if i < j {
      BelowContains(layers, i, j, v);
    } else if j < i {
      BelowContains(layers, j, i, v);
    }
  }

  /** Every predecessor of a node in layer `k` is in an earlier layer. */
  lemma PredecessorsAreEarlier(g: Graph, layers: seq<seq<Id>>, k: nat, v: Id, u: Id) returns (i: nat)
    requires ValidGraph(g) && Layers(g, layers) && k < |layers| && v in layers[k] && (u, v) in g.edges
    ensures i < k && u in layers[i]
  {
    InLayer(g, layers, k, v);
    assert u in Predecessors(g, v);
    i := LayerOf(layers, k, u);
  }

  /** A node of layer `k` ends a path of `k` edges .. */
  lemma {:induction false} PathOfLayer(g: Graph, layers: seq<seq<Id>>, k: nat, v: Id) returns (p: seq<Id>)
    requires ValidGraph(g) && Layers(g, layers) && k < |layers| && v in layers[k]
    ensures IsPath(g, p) && p[|p| - 1] == v && |p| == k + 1
    decreases k
  {
    InLayer(g, layers, k, v);
    if k == 0 {
      p := [v];
    } else {
      var u := PredecessorInPreviousLayer(g, layers, k, v);
      p := PathOfLayer(g, layers, k - 1, u);
      p := p + [v];
    }
  }

  lemma PredecessorInPreviousLayer(g: Graph, layers: seq<seq<Id>>, k: nat, v: Id) returns (u: Id)
    requires ValidGraph(g) && Layers(g, layers) && 0 < k < |layers| && v in layers[k]
    ensures u in layers[k - 1] && (u, v) in g.edges
  {
    InLayer(g, layers, k, v);
    assert IsLayer(g, layers, k - 1);
    assert v !in Ready(g, Below(layers, k - 1));
    u :| u in Predecessors(g, v) && u !in Below(layers, k - 1);
  }

  /** .. and no longer one. */
  lemma {:induction false} NoLongerPath(g: Graph, layers: seq<seq<Id>>, k: nat, p: seq<Id>)
    requires ValidGraph(g) && Layers(g, layers) && k < |layers| && IsPath(g, p) && p[|p| - 1] in layers[k]
    ensures |p| <= k + 1
    decreases |p|
  {
    if |p| > 1 {
      var n := |p| - 1;
      assert (p[n - 1], p[n - 1 + 1]) in g.edges;
      var i := PredecessorsAreEarlier(g, layers, k, p[n], p[n - 1]);
      NoLongerPath(g, layers, i, p[..n]);
    }
  }

  /** The layer of a node is the length of the longest path that ends in it. */
  lemma LayerIsLongestPath(g: Graph, layers: seq<seq<Id>>, k: nat, v: Id)
    requires ValidGraph(g) && AllLayers(g, layers) && k < |layers| && v in Elements(layers[k])
    ensures exists p :: IsPath(g, p) && p[|p| - 1] == v && |p| - 1 == k
    ensures forall p :: IsPath(g, p) && p[|p| - 1] == v ==> |p| - 1 <= k
  {
    var p := PathOfLayer(g, layers, k, v);
    forall q | IsPath(g, q) && q[|q| - 1] == v
      ensures |q| - 1 <= k
    {
      NoLongerPath(g, layers, k, q);
    }
  }

  // ---- layers and cycles ----

  ghost predicate CoversAll(g: Graph, layers: seq<seq<Id>>) {
    Below(layers, |layers|) == Elements(g.nodes)
  }

  lemma CoveredMeansAcyclic(g: Graph, layers: seq<seq<Id>>)
    requires ValidGraph(g) && AllLayers(g, layers) && CoversAll(g, layers)
    ensures Acyclic(g)
  {
    forall p | IsCycle(g, p)
      ensures false
    {
      assert p[0] in Elements(g.nodes);
      var k := LayerOf(layers, |layers|, p[0]);
      PathsRise(g, layers, k, p);
    }
  }

  /** A path starts in an earlier layer than it ends in. */
  lemma PathsRise(g: Graph, layers: seq<seq<Id>>, k: nat, p: seq<Id>)
    requires ValidGraph(g) && Layers(g, layers) && k < |layers| && IsPath(g, p) && |p| > 1
    requires p[|p| - 1] in layers[k]
    ensures p[0] !in layers[k]
  {
    var i := EarlierStart(g, layers, k, p);
    if p[0] in layers[k] {
      OneLayer(g, layers, i, k, p[0]);
    }
  }

  lemma {:induction false} EarlierStart(g: Graph, layers: seq<seq<Id>>, k: nat, p: seq<Id>) returns (i: nat)
    requires ValidGraph(g) && Layers(g, layers) && k < |layers| && IsPath(g, p) && p[|p| - 1] in layers[k]
    ensures i <= k && p[0] in layers[i] && (|p| > 1 ==> i < k)
    decreases |p|
  {
    i := k;
    if |p| > 1 {
      var n := |p| - 1;
      assert (p[n - 1], p[n - 1 + 1]) in g.edges;
      i := PredecessorsAreEarlier(g, layers, k, p[n], p[n - 1]);
      i := EarlierStart(g, layers, i, p[..n]);
    }
  }

  /** Every node of `stuck` has a predecessor in it. */
  ghost predicate Stuck(g: Graph, stuck: set<Id>) {
    && (forall v :: v in stuck ==> v in g.nodes)
    && forall v {:trigger HasPredecessorIn(g, stuck, v)} :: v in stuck ==> HasPredecessorIn(g, stuck, v)
  }

  ghost predicate HasPredecessorIn(g: Graph, stuck: set<Id>, v: Id) {
    exists u :: u in stuck && (u, v) in g.edges
  }

  lemma UncoveredIsStuck(g: Graph, layers: seq<seq<Id>>)
    requires AllLayers(g, layers)
    ensures Stuck(g, Elements(g.nodes) - Below(layers, |layers|))
  {
    var done := Below(layers, |layers|);
    var stuck := Elements(g.nodes) - done;
    forall v | v in stuck
      ensures HasPredecessorIn(g, stuck, v)
    {
      assert v !in Ready(g, done);
      var u :| u in Predecessors(g, v) && u !in done;
    }
  }

  /** From a stuck node one can walk back for ever. */
  lemma {:induction false} WalkBack(g: Graph, stuck: set<Id>, v: Id, n: nat) returns (p: seq<Id>)
    requires Stuck(g, stuck) && v in stuck && n > 0
    ensures IsPath(g, p) && |p| == n && p[n - 1] == v && AllIn(p, stuck)
    decreases n
  {
    if n == 1 {
      p := [v];
    } else {
      var u := PredecessorIn(g, stuck, v);
      var q := WalkBack(g, stuck, u, n - 1);
      ExtendPath(g, q, v);
      p := q + [v];
    }
  }

  ghost predicate AllIn(p: seq<Id>, s: set<Id>) {
    forall i :: 0 <= i < |p| ==> p[i] in s
  }

  lemma PredecessorIn(g: Graph, stuck: set<Id>, v: Id) returns (u: Id)
    requires Stuck(g, stuck) && v in stuck
    ensures u in stuck && (u, v) in g.edges
  {
    assert HasPredecessorIn(g, stuck, v);
    u :| u in stuck && (u, v) in g.edges;
  }

  lemma ExtendPath(g: Graph, q: seq<Id>, v: Id)
    requires IsPath(g, q) && v in g.nodes && (q[|q| - 1], v) in g.edges
    ensures IsPath(g, q + [v])
  {
  }

  /** A sequence longer than the set it is drawn from repeats an element. */
  lemma {:induction false} Pigeonhole(s: set<Id>, p: seq<Id>) returns (i: nat, j: nat)
    requires |p| > |s| && AllIn(p, s)
    ensures i < j < |p| && p[i] == p[j]
    decreases |s|
  {
    var n := |p| - 1;
    if k :| 0 <= k < n && p[k] == p[n] {
      i, j := k, n;
    } else {
      i, j := Pigeonhole(s - {p[n]}, p[..n]);
    }
  }

  lemma UncoveredMeansCycle(g: Graph, layers: seq<seq<Id>>) returns (p: seq<Id>)
    requires AllLayers(g, layers) && !(Elements(g.nodes) <= Below(layers, |layers|))
    ensures IsCycle(g, p)
  {
    UncoveredIsStuck(g, layers);
    var stuck := Elements(g.nodes) - Below(layers, |layers|);
    var v :| v in Elements(g.nodes) && v !in Below(layers, |layers|);
    p := WalkBack(g, stuck, v, |stuck| + 1);
    var i, j := Pigeonhole(stuck, p);
    p := p[i..j + 1];
  }

  lemma {:induction false} LayersHoldNodes(g: Graph, layers: seq<seq<Id>>, k: nat)
    requires Layers(g, layers) && k <= |layers|
    ensures Below(layers, k) <= Elements(g.nodes)
    decreases k
  {
    if k > 0 {
      LayersHoldNodes(g, layers, k - 1);
      assert IsLayer(g, layers, k - 1);
    }
  }

  /** The generations hold every node if and only if the graph has no cycle. */
  lemma CoversAllIffAcyclic(g: Graph, layers: seq<seq<Id>>)
    requires ValidGraph(g) && AllLayers(g, layers)
    ensures CoversAll(g, layers) <==> Acyclic(g)
  {
    if CoversAll(g, layers) {
      CoveredMeansAcyclic(g, layers);
    } else {
      LayersHoldNodes(g, layers, |layers|);
      var p := UncoveredMeansCycle(g, layers);
    }
  }

  // ---- adding an edge ----

  function WithEdge(g: Graph, s: Id, t: Id): Graph {
    g.(edges := g.edges + [(s, t)])
  }

  /** A walk from `t` in the graph with the new edge, cut after its last use of that edge. */
  lemma {:induction false} CutNewEdge(g: Graph, s: Id, t: Id, p: seq<Id>) returns (q: seq<Id>)
    requires IsPath(WithEdge(g, s, t), p) && p[0] == t
    ensures PathFromTo(g, q, t, p[|p| - 1])
    decreases |p|
  {
    if i :| 0 <= i < |p| - 1 && (p[i], p[i + 1]) !in g.edges {
      q := CutNewEdge(g, s, t, p[i + 1..]);
    } else {
      q := p;
    }
  }

  /** A cycle that uses the new edge, turned so that it starts behind it. */
  lemma TurnCycle(g: Graph, p: seq<Id>, i: nat) returns (q: seq<Id>)
    requires IsCycle(g, p) && i + 1 < |p|
    ensures PathFromTo(g, q, p[i + 1], p[i])
  {
    q := p[i + 1..] + p[1..i + 1];
    var n := |p| - i - 1;
    forall k | 0 <= k < |q| - 1
      ensures (q[k], q[k + 1]) in g.edges
    {
      if k < n - 1 {
        assert q[k] == p[i + 1 + k] && q[k + 1] == p[i + 1 + k + 1];
      } else if k == n - 1 {
        assert q[k] == p[|p| - 1] == p[0] && q[k + 1] == p[0 + 1];
      } else {
        assert q[k] == p[k - n + 1] && q[k + 1] == p[k - n + 1 + 1];
      }
    }
    forall k | 0 <= k < |q| ensures q[k] in g.nodes {
      assert q[k] in p;
    }
  }

  /** An edge closes a cycle exactly when its source is already reachable from its target. */
  lemma EdgeClosesCycle(g: Graph, s: Id, t: Id)
    requires ValidGraph(g) && s in g.nodes && t in g.nodes && Acyclic(g)
    ensures Acyclic(WithEdge(g, s, t)) <==> !Reachable(g, t, s)
  {
    var h := WithEdge(g, s, t);
    if Reachable(g, t, s) {
      var p :| PathFromTo(g, p, t, s);
      var c := p + [t];
      assert IsPath(h, c) by {
        forall k | 0 <= k < |c| - 1
          ensures (c[k], c[k + 1]) in h.edges
        {
          if k < |p| - 1 {
            assert (p[k], p[k + 1]) in g.edges;
          } else {
            assert (s, t) == h.edges[|g.edges|];
          }
        }
      }
      assert IsCycle(h, c);
    } else {
      forall p | IsCycle(h, p)
        ensures false
      {
        assert !IsCycle(g, p);
        var i :| 0 <= i < |p| - 1 && (p[i], p[i + 1]) !in g.edges;
        assert (p[i], p[i + 1]) == (s, t);
        var q := TurnCycle(h, p, i);
        var r := CutNewEdge(g, s, t, q);
      }
    }
  }

  /** Leaving edges out keeps a graph acyclic. */
  lemma FewerEdgesAcyclic(g: Graph, h: Graph)
    requires Acyclic(g) && (forall v :: v in h.nodes ==> v in g.nodes) && (forall e :: e in h.edges ==> e in g.edges)
    ensures Acyclic(h)
  {
    forall p | IsCycle(h, p)
      ensures false
    {
      assert IsPath(g, p);
      assert IsCycle(g, p);
    }
  }
}
