/** The street network as GPS/gps.py holds it: a directed multigraph whose
    edges carry a parallel-edge key and the `length` (metres) and
    `travel_time` (seconds) attributes. Edges are kept in insertion order,
    which is the order the multigraph keeps its parallel edges in. */
module RoadGraph {

  type NodeId = int

  datatype Option<T> = None | Some(value: T)

  /** One directed road segment `src -> dst`; `key` tells parallel segments apart. */
  datatype Edge = Edge(src: NodeId, dst: NodeId, key: nat, length: real, travelTime: real)

  /** A value snapshot of the graph: its node set and its edge sequence. */
  datatype Graph = Graph(nodes: set<NodeId>, edges: seq<Edge>)

  /** Every edge's endpoints are nodes of the graph. */
  ghost predicate WellFormed(g: Graph) {
    forall e :: e in g.edges ==> e.src in g.nodes && e.dst in g.nodes
  }

  /** The edges of `es` whose source is not in `s`, in their original order. */
  function DropSources(es: seq<Edge>, s: set<NodeId>): (r: seq<Edge>)
    ensures |r| <= |es|
    ensures forall e :: e in r <==> e in es && e.src !in s
  {
    if es == [] then []
    else if es[0].src in s then DropSources(es[1..], s)
    else [es[0]] + DropSources(es[1..], s)
  }

  /** Number of parallel edges `u -> v` in `es`. */
  function CountPair(es: seq<Edge>, u: NodeId, v: NodeId): nat
  {
    if es == [] then 0
    else (if es[0].src == u && es[0].dst == v then 1 else 0) + CountPair(es[1..], u, v)
  }

  /** `edges(n)` of a directed multigraph: one `(n, v)` pair for every
      OUTGOING edge of `n`, parallel edges included. Incoming edges are not
      listed. */
  function OutPairs(es: seq<Edge>, n: NodeId): (r: seq<(NodeId, NodeId)>)
    ensures |r| <= |es|
    ensures forall p :: p in r ==> p.0 == n
    ensures forall v :: multiset(r)[(n, v)] == CountPair(es, n, v)
  {
    if es == [] then []
    else if es[0].src == n then [(n, es[0].dst)] + OutPairs(es[1..], n)
    else OutPairs(es[1..], n)
  }

  /** `remove_edge(u, v)` without a key: the most recently added parallel
      edge `u -> v` goes; when there is none, nothing changes (the error the
      multigraph raises is swallowed by `remove_edges_from`). */
  function RemoveLast(es: seq<Edge>, u: NodeId, v: NodeId): (r: seq<Edge>)
    ensures |r| == |es| - (if CountPair(es, u, v) > 0 then 1 else 0)
    ensures forall e :: e in r ==> e in es
  {
    if es == [] then []
    else if es[0].src == u && es[0].dst == v && CountPair(es[1..], u, v) == 0 then es[1..]
    else [es[0]] + RemoveLast(es[1..], u, v)
  }

  /** `remove_edges_from(ps)`: one `RemoveLast` per pair, in order. */
  function RemoveAll(es: seq<Edge>, ps: seq<(NodeId, NodeId)>): (r: seq<Edge>)
    ensures forall e :: e in r ==> e in es
    ensures |es| - |ps| <= |r| <= |es|
    decreases |ps|
  {
    if ps == [] then es else RemoveAll(RemoveLast(es, ps[0].0, ps[0].1), ps[1..])
  }

  /** `grafo_ref[u][v][k]`: the edge `u -> v` with key `k`, if there is one. */
  function Lookup(es: seq<Edge>, u: NodeId, v: NodeId, k: nat): (r: Option<Edge>)
    ensures r.Some? ==> r.value in es && r.value.src == u && r.value.dst == v && r.value.key == k
    ensures r.None? <==> forall e :: e in es ==> !(e.src == u && e.dst == v && e.key == k)
  {
    if es == [] then None
    else if es[0].src == u && es[0].dst == v && es[0].key == k then Some(es[0])
    else Lookup(es[1..], u, v, k)
  }

  /** Removing the last `u -> v` edge lowers the count of `u -> v` by one
      when there was one and leaves every other pair's count alone. */
  lemma {:induction false} RemoveLastCount(es: seq<Edge>, u: NodeId, v: NodeId, x: NodeId, y: NodeId)
    ensures CountPair(RemoveLast(es, u, v), x, y)
         == CountPair(es, x, y) - (if x == u && y == v && CountPair(es, u, v) > 0 then 1 else 0)
  {
    if es != [] {
      if es[0].src == u && es[0].dst == v && CountPair(es[1..], u, v) == 0 {
      } else {
        RemoveLastCount(es[1..], u, v, x, y);
        assert RemoveLast(es, u, v)[1..] == RemoveLast(es[1..], u, v);
      }
    }
  }

  /** Removing an edge whose source is in `s` is invisible once the
      sources in `s` are dropped. */
  lemma {:induction false} RemoveLastDropSources(es: seq<Edge>, u: NodeId, v: NodeId, s: set<NodeId>)
    requires u in s
    ensures DropSources(RemoveLast(es, u, v), s) == DropSources(es, s)
  {
    if es != [] {
      if es[0].src == u && es[0].dst == v && CountPair(es[1..], u, v) == 0 {
      } else {
        RemoveLastDropSources(es[1..], u, v, s);
        assert RemoveLast(es, u, v) == [es[0]] + RemoveLast(es[1..], u, v);
        assert ([es[0]] + RemoveLast(es[1..], u, v))[1..] == RemoveLast(es[1..], u, v);
      }
    }
  }

  /** A sequence without any edge leaving `n` is unchanged by dropping `n`. */
  lemma {:induction false} DropAbsentSource(es: seq<Edge>, n: NodeId)
    requires forall v :: CountPair(es, n, v) == 0
    ensures DropSources(es, {n}) == es
  {
    if es != [] {
      assert CountPair(es, n, es[0].dst) == 0;
      forall v ensures CountPair(es[1..], n, v) == 0 {
        assert CountPair(es, n, v) == 0;
      }
      DropAbsentSource(es[1..], n);
      assert es == [es[0]] + es[1..];
    }
  }

  /** Removing, pair by pair, a bag of `(n, v)` pairs that matches the out-edges
      of `n` one for one removes exactly the out-edges of `n`. */
  lemma {:induction false} RemoveAllMatching(es: seq<Edge>, ps: seq<(NodeId, NodeId)>, n: NodeId)
    requires forall p :: p in ps ==> p.0 == n
    requires forall v :: multiset(ps)[(n, v)] == CountPair(es, n, v)
    ensures RemoveAll(es, ps) == DropSources(es, {n})
    decreases |ps|
  {
    if ps == [] {
      DropAbsentSource(es, n);
    } else {
      var p := ps[0];
      assert p in ps;
      assert ps == [p] + ps[1..];
      var es' := RemoveLast(es, p.0, p.1);
      forall q | q in ps[1..] ensures q.0 == n {
        assert q in ps;
      }
      forall v ensures multiset(ps[1..])[(n, v)] == CountPair(es', n, v) {
        assert multiset(ps) == multiset([p]) + multiset(ps[1..]);
        RemoveLastCount(es, p.0, p.1, n, v);
      }
      RemoveAllMatching(es', ps[1..], n);
      RemoveLastDropSources(es, p.0, p.1, {n});
    }
  }

  /** Line 50 of the script, `remove_edges_from(list(edges(n)))`, removes every
      outgoing edge of `n`, parallel edges included, and nothing else. */
  lemma {:induction false} RemoveOutEdges(es: seq<Edge>, n: NodeId)
    ensures RemoveAll(es, OutPairs(es, n)) == DropSources(es, {n})
  {
    RemoveAllMatching(es, OutPairs(es, n), n);
  }

  /** Dropping no source keeps every edge. */
  lemma {:induction false} DropNoSources(es: seq<Edge>)
    ensures DropSources(es, {}) == es
  {
    if es != [] {
      DropNoSources(es[1..]);
      assert es == [es[0]] + es[1..];
    }
  }

  /** Dropping sources in two rounds is dropping their union once. */
  lemma {:induction false} DropSourcesTwice(es: seq<Edge>, s: set<NodeId>, t: set<NodeId>)
    ensures DropSources(DropSources(es, s), t) == DropSources(es, s + t)
  {
    if es != [] {
      DropSourcesTwice(es[1..], s, t);
      if es[0].src !in s {
        assert DropSources(es, s) == [es[0]] + DropSources(es[1..], s);
        assert ([es[0]] + DropSources(es[1..], s))[1..] == DropSources(es[1..], s);
      }
    }
  }

  /** Only whether an edge's source is dropped matters, not the set named. */
  lemma {:induction false} DropSourcesAgree(es: seq<Edge>, s: set<NodeId>, t: set<NodeId>)
    requires forall e :: e in es ==> (e.src in s <==> e.src in t)
    ensures DropSources(es, s) == DropSources(es, t)
  {
    if es != [] {
      assert es[0] in es;
      forall e | e in es[1..] ensures e.src in s <==> e.src in t {
        assert e in es;
      }
      DropSourcesAgree(es[1..], s, t);
    }
  }

  /** Every surviving edge keeps its multiplicity: dropping sources removes
      no copy of an edge whose source is kept. */
  lemma {:induction false} DropSourcesMultiplicity(es: seq<Edge>, s: set<NodeId>, e: Edge)
    ensures multiset(DropSources(es, s))[e] == if e.src in s then 0 else multiset(es)[e]
  {
    if es != [] {
      DropSourcesMultiplicity(es[1..], s, e);
      assert es == [es[0]] + es[1..];
      assert multiset(es) == multiset([es[0]]) + multiset(es[1..]);
      if es[0].src !in s {
        assert multiset(DropSources(es, s))
            == multiset([es[0]]) + multiset(DropSources(es[1..], s));
      }
    }
  }

  /** A key lookup from a kept source sees the same edge after dropping sources. */
  lemma {:induction false} LookupDropSources(es: seq<Edge>, s: set<NodeId>, u: NodeId, v: NodeId, k: nat)
    requires u !in s
    ensures Lookup(DropSources(es, s), u, v, k) == Lookup(es, u, v, k)
  {
    if es != [] {
      LookupDropSources(es[1..], s, u, v, k);
      if es[0].src !in s {
        assert DropSources(es, s) == [es[0]] + DropSources(es[1..], s);
        assert ([es[0]] + DropSources(es[1..], s))[1..] == DropSources(es[1..], s);
      }
    }
  }

  /** The graph the script mutates in place. */
  class RoadGraph {
    var nodes: set<NodeId>
    var edges: seq<Edge>

    ghost predicate Valid()
      reads this
    {
      WellFormed(Graph(nodes, edges))
    }

    /** The graph's current value. */
    function Snapshot(): Graph
      reads this
    {
      Graph(nodes, edges)
    }

    constructor (nodes: set<NodeId>, edges: seq<Edge>)
      requires WellFormed(Graph(nodes, edges))
      ensures Valid() && Snapshot() == Graph(nodes, edges)
    {
      this.nodes := nodes;
      this.edges := edges;
    }

    /** `n in grafo`: a node absent from the graph touches no edge. */
    function Contains(n: NodeId): (b: bool)
      reads this
      requires Valid()
      ensures !b ==> forall e :: e in edges ==> e.src != n && e.dst != n
    {
      n in nodes
    }

    /** `grafo.remove_edges_from(ps)`: removes one `u -> v` edge per pair,
        skipping pairs that have no edge left. Nodes are never removed. */
    method RemoveEdgesFrom(ps: seq<(NodeId, NodeId)>)
      requires Valid()
      modifies this
      ensures Valid() && nodes == old(nodes)
      ensures edges == RemoveAll(old(edges), ps)
    {
      var i := 0;
      while i < |ps|
        invariant 0 <= i <= |ps|
        invariant Valid() && nodes == old(nodes)
        invariant forall e :: e in edges ==> e in old(edges)
        invariant RemoveAll(edges, ps[i..]) == RemoveAll(old(edges), ps)
      {
        assert ps[i..][1..] == ps[i + 1..];
        edges := RemoveLast(edges, ps[i].0, ps[i].1);
        i := i + 1;
      }
    }
  }
}
