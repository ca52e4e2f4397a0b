/** The ancestors of a node, by which recursion along the edges of an acyclic graph ends. */
module Ancestry {
  import opened Graph

  ghost function Ancestors(g: Graph, v: Id): set<Id> {
    set u | u in g.nodes && Reachable(g, u, v)
  }

  lemma ReachesItself(g: Graph, v: Id)
    requires v in g.nodes
    ensures Reachable(g, v, v)
  {
    assert PathFromTo(g, [v], v, v);
  }

  lemma ReachesThroughEdge(g: Graph, u: Id, v: Id, w: Id)
    requires Reachable(g, u, v) && (v, w) in g.edges && w in g.nodes
    ensures Reachable(g, u, w)
  {
    var p :| PathFromTo(g, p, u, v);
    assert PathFromTo(g, p + [w], u, w);
  }

  /** Along an edge of an acyclic graph the set of ancestors grows. */
  lemma EdgesAddAncestors(g: Graph, u: Id, v: Id)
    requires ValidGraph(g) && Acyclic(g) && (u, v) in g.edges
    ensures Ancestors(g, u) < Ancestors(g, v)
  {
    forall a | a in Ancestors(g, u)
      ensures a in Ancestors(g, v)
    {
      ReachesThroughEdge(g, a, u, v);
    }
    ReachesItself(g, v);
    if v in Ancestors(g, u) {
      var p :| PathFromTo(g, p, v, u);
      assert IsCycle(g, p + [v]);
    }
  }
}
