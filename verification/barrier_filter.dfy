/** The barrier loop of GPS/gps.py: for every resolved barrier node that is
    in the graph, every edge that `edges(node)` lists is removed.

    The script's comments speak of removing "all streets linked to" the
    barrier node, but on a directed multigraph `edges(node)` lists only the
    node's OUTGOING edges. The model follows the call: edges INTO a barrier
    node survive, so a route may still end at a barrier node. */
module BarrierFilter {
  import opened RoadGraph

  /** The barrier nodes the loop acts on: those present in the graph. */
  function Blocked(nodes: set<NodeId>, barriers: seq<NodeId>): set<NodeId>
  {
    set b | b in barriers && b in nodes
  }

  /** The graph after the loop: the same nodes, and the edges whose source
      is not a blocked barrier node, in their original order. */
  function Filter(g: Graph, barriers: seq<NodeId>): (r: Graph)
    ensures r.nodes == g.nodes
    ensures forall e :: e in r.edges <==> e in g.edges && !(e.src in barriers && e.src in g.nodes)
  {
    Graph(g.nodes, DropSources(g.edges, Blocked(g.nodes, barriers)))
  }

  /** The loop at lines 48-50, mutating the graph in place. */
  method FilterBarriers(g: RoadGraph, barriers: seq<NodeId>)
    requires g.Valid()
    modifies g
    ensures g.Valid()
    ensures g.Snapshot() == Filter(old(g.Snapshot()), barriers)
  {
    ghost var original := g.edges;
    var i := 0;
    DropNoSources(original);
    assert Blocked(g.nodes, barriers[..0]) == {};
    while i < |barriers|
      invariant 0 <= i <= |barriers|
      invariant g.Valid() && g.nodes == old(g.nodes)
      invariant g.edges == DropSources(original, Blocked(g.nodes, barriers[..i]))
    {
      var node := barriers[i];
      ghost var before := g.edges;
      BlockedStep(g.nodes, barriers, i);
      if g.Contains(node) {
        var out := OutPairs(g.edges, node);
        g.RemoveEdgesFrom(out);
        FilterStep(original, before, Blocked(g.nodes, barriers[..i]), node);
      } else {
        assert Blocked(g.nodes, barriers[..i + 1]) == Blocked(g.nodes, barriers[..i]);
      }
      i := i + 1;
    }
    assert barriers[..i] == barriers;
  }

  /** Extending the processed prefix by one id adds that id to the blocked
      set exactly when it is a node of the graph. */
  lemma {:induction false} BlockedStep(nodes: set<NodeId>, barriers: seq<NodeId>, i: nat)
    requires i < |barriers|
    ensures Blocked(nodes, barriers[..i + 1])
         == Blocked(nodes, barriers[..i]) + (if barriers[i] in nodes then {barriers[i]} else {})
  {
    assert barriers[..i + 1] == barriers[..i] + [barriers[i]];
  }

  /** One round of the loop body: removing the listed out-edges of `node`
      from the edges left so far drops `node` as a source as well. */
  lemma {:induction false} FilterStep(original: seq<Edge>, before: seq<Edge>, done: set<NodeId>, node: NodeId)
    requires before == DropSources(original, done)
    ensures RemoveAll(before, OutPairs(before, node)) == DropSources(original, done + {node})
  {
    RemoveOutEdges(before, node);
    DropSourcesTwice(original, done, {node});
  }

  /** No blocked barrier node keeps an outgoing edge, parallel edges included. */
  lemma {:induction false} BarrierOutEdgesGone(g: Graph, barriers: seq<NodeId>, b: NodeId, v: NodeId)
    requires b in barriers && b in g.nodes
    ensures CountPair(Filter(g, barriers).edges, b, v) == 0
    ensures OutPairs(Filter(g, barriers).edges, b) == []
  {
    var es := Filter(g, barriers).edges;
    NoSourceNoCount(es, b, v);
    NoSourceNoPairs(es, b);
  }

  lemma {:induction false} NoSourceNoCount(es: seq<Edge>, b: NodeId, v: NodeId)
    requires forall e :: e in es ==> e.src != b
    ensures CountPair(es, b, v) == 0
  {
    if es != [] {
      assert es[0] in es;
      forall e | e in es[1..] ensures e.src != b { assert e in es; }
      NoSourceNoCount(es[1..], b, v);
    }
  }

  lemma {:induction false} NoSourceNoPairs(es: seq<Edge>, b: NodeId)
    requires forall e :: e in es ==> e.src != b
    ensures OutPairs(es, b) == []
  {
    if es != [] {
      assert es[0] in es;
      forall e | e in es[1..] ensures e.src != b { assert e in es; }
      NoSourceNoPairs(es[1..], b);
    }
  }

  /** Nothing else changes: every edge whose source is not a blocked barrier
      survives with all its copies (same endpoints, key and attributes), and
      the node set is the same. */
  lemma {:induction false} KeepsOtherEdges(g: Graph, barriers: seq<NodeId>, e: Edge)
    requires !(e.src in barriers && e.src in g.nodes)
    ensures multiset(Filter(g, barriers).edges)[e] == multiset(g.edges)[e]
    ensures Filter(g, barriers).nodes == g.nodes
  {
    DropSourcesMultiplicity(g.edges, Blocked(g.nodes, barriers), e);
  }

  /** Running the loop a second time with the same barrier list changes nothing. */
  lemma {:induction false} FilterIdempotent(g: Graph, barriers: seq<NodeId>)
    ensures Filter(Filter(g, barriers), barriers) == Filter(g, barriers)
  {
    var s := Blocked(g.nodes, barriers);
    DropSourcesTwice(g.edges, s, s);
    assert s + s == s;
  }

  /** Repeating a barrier id, or listing ids in another order, changes nothing. */
  lemma {:induction false} FilterOnlyDependsOnSet(g: Graph, b1: seq<NodeId>, b2: seq<NodeId>)
    requires forall b :: b in b1 <==> b in b2
    ensures Filter(g, b1) == Filter(g, b2)
  {
    forall b ensures b in Blocked(g.nodes, b1) <==> b in Blocked(g.nodes, b2) {
    }
    assert Blocked(g.nodes, b1) == Blocked(g.nodes, b2);
  }

  /** Barrier ids absent from a well-formed graph have no edges, so skipping
      them (the `node in grafo` test) makes no difference to the remaining
      edges. */
  lemma {:induction false} MembershipTestIrrelevant(g: Graph, barriers: seq<NodeId>)
    requires WellFormed(g)
    ensures Filter(g, barriers).edges == DropSources(g.edges, set b | b in barriers)
  {
    DropSourcesAgree(g.edges, Blocked(g.nodes, barriers), set b | b in barriers);
  }

  /** Filtering keeps the graph well-formed. */
  lemma {:induction false} FilterWellFormed(g: Graph, barriers: seq<NodeId>)
    requires WellFormed(g)
    ensures WellFormed(Filter(g, barriers))
  {
  }
}
