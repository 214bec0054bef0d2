/** `calcular_distancia_tempo` of GPS/gps.py: the total distance (km) and
    the estimated total time (min) of a route, summed over the key-0 edge
    between each pair of consecutive nodes. */
module RouteMetrics {
  import opened RoadGraph
  import opened BarrierFilter
  import opened Validation

  /** The fixed 40% inflation applied to the raw travel time of every route. */
  const CongestionFactor: real := 1.4

  /** The edge attribute a sum is taken over (`peso` and `"travel_time"`). */
  datatype Weight = Length | TravelTime

  function AttrOf(e: Edge, w: Weight): real {
    match w
    case Length => e.length
    case TravelTime => e.travelTime
  }

  /** The summary of one route. */
  datatype Summary = Summary(distanceKm: real, timeMin: real)

  /** `zip(caminho[:-1], caminho[1:])`: the consecutive node pairs of a path. */
  function Legs(path: seq<NodeId>): (r: seq<(NodeId, NodeId)>)
    ensures |r| == if |path| == 0 then 0 else |path| - 1
    ensures forall i :: 0 <= i < |r| ==> r[i] == (path[i], path[i + 1])
  {
    if |path| < 2 then [] else [(path[0], path[1])] + Legs(path[1..])
  }

  /** Every leg has an edge with key 0; otherwise `grafo_ref[u][v][0]` fails. */
  predicate KeyZeroLegs(es: seq<Edge>, legs: seq<(NodeId, NodeId)>) {
    forall i :: 0 <= i < |legs| ==> Lookup(es, legs[i].0, legs[i].1, 0).Some?
  }

  /** `sum(grafo_ref[u][v][0][w] for u, v in legs)`. */
  function LegSum(es: seq<Edge>, legs: seq<(NodeId, NodeId)>, w: Weight): (r: real)
    requires KeyZeroLegs(es, legs)
    ensures legs == [] ==> r == 0.0
    ensures NonNegativeAttrs(es) ==> r >= 0.0
  {
    if legs == [] then 0.0
    else AttrOf(Lookup(es, legs[0].0, legs[0].1, 0).value, w) + LegSum(es, legs[1..], w)
  }

  /** Lines 69-74: metres to kilometres for the distance; seconds to minutes,
      inflated by the congestion factor, for the time. */
  function Summarize(path: seq<NodeId>, es: seq<Edge>, peso: Weight := Length): (r: Summary)
    requires KeyZeroLegs(es, Legs(path))
    ensures |path| <= 1 ==> r == Summary(0.0, 0.0)
    ensures r.distanceKm * 1000.0 == LegSum(es, Legs(path), peso)
    ensures r.timeMin * 60.0 == LegSum(es, Legs(path), TravelTime) * CongestionFactor
  {
    var distanceM := LegSum(es, Legs(path), peso);
    var timeS := LegSum(es, Legs(path), TravelTime);
    Summary(distanceM / 1000.0, (timeS / 60.0) * CongestionFactor)
  }

  /** Sums over concatenated leg lists add up. */
  lemma {:induction false} LegSumAppend(es: seq<Edge>, a: seq<(NodeId, NodeId)>, b: seq<(NodeId, NodeId)>, w: Weight)
    requires KeyZeroLegs(es, a) && KeyZeroLegs(es, b)
    ensures KeyZeroLegs(es, a + b)
    ensures LegSum(es, a + b, w) == LegSum(es, a, w) + LegSum(es, b, w)
  {
    assert forall i :: 0 <= i < |a + b| ==> (a + b)[i] == if i < |a| then a[i] else b[i - |a|];
    if a != [] {
      LegSumAppend(es, a[1..], b, w);
      assert (a + b)[1..] == a[1..] + b;
    } else {
      assert a + b == b;
    }
  }

  /** Cutting a path at one of its nodes cuts its legs there. */
  lemma {:induction false} LegsSplit(path: seq<NodeId>, k: nat)
    requires k < |path|
    ensures Legs(path) == Legs(path[..k + 1]) + Legs(path[k..])
  {
    var p1, p2 := path[..k + 1], path[k..];
    var l, l1, l2 := Legs(path), Legs(p1), Legs(p2);
    assert |l| == |l1| + |l2|;
    forall i | 0 <= i < |l| ensures l[i] == (l1 + l2)[i] {
      if i < |l1| {
        assert l1[i] == (p1[i], p1[i + 1]);
      } else {
        var j := i - |l1|;
        assert l2[j] == (p2[j], p2[j + 1]);
        assert p2[j] == path[i] && p2[j + 1] == path[i + 1];
      }
    }
  }

  /** A route's summary is the sum of the summaries of its two halves when
      it is cut at any node. */
  lemma {:induction false} SummarizeSplit(path: seq<NodeId>, es: seq<Edge>, peso: Weight, k: nat)
    requires k < |path|
    requires KeyZeroLegs(es, Legs(path))
    ensures KeyZeroLegs(es, Legs(path[..k + 1])) && KeyZeroLegs(es, Legs(path[k..]))
    ensures Summarize(path, es, peso).distanceKm
         == Summarize(path[..k + 1], es, peso).distanceKm + Summarize(path[k..], es, peso).distanceKm
    ensures Summarize(path, es, peso).timeMin
         == Summarize(path[..k + 1], es, peso).timeMin + Summarize(path[k..], es, peso).timeMin
  {
    LegsSplit(path, k);
    var a, b := Legs(path[..k + 1]), Legs(path[k..]);
    KeyZeroLegsAppend(es, a, b);
    LegSumAppend(es, a, b, peso);
    LegSumAppend(es, a, b, TravelTime);
  }

  /** Both parts of a leg list with key-0 edges have key-0 edges. */
  lemma {:induction false} KeyZeroLegsAppend(es: seq<Edge>, a: seq<(NodeId, NodeId)>, b: seq<(NodeId, NodeId)>)
    requires KeyZeroLegs(es, a + b)
    ensures KeyZeroLegs(es, a) && KeyZeroLegs(es, b)
  {
    forall i | 0 <= i < |a| ensures Lookup(es, a[i].0, a[i].1, 0).Some? {
      assert a[i] == (a + b)[i];
    }
    forall i | 0 <= i < |b| ensures Lookup(es, b[i].0, b[i].1, 0).Some? {
      assert b[i] == (a + b)[|a| + i];
    }
  }

  /** Every consecutive pair of `path` has an edge with key 0. */
  predicate KeyZeroPath(es: seq<Edge>, path: seq<NodeId>) {
    forall i :: 0 <= i < |path| - 1 ==> Lookup(es, path[i], path[i + 1], 0).Some?
  }

  /** Reference definition of a route total: the attribute of the key-0 edge
      of the last step, added to the total of the route without its last node. */
  function PathSum(es: seq<Edge>, path: seq<NodeId>, w: Weight): real
    requires KeyZeroPath(es, path)
  {
    if |path| < 2 then 0.0
    else
      var n := |path|;
      PathSum(es, path[..n - 1], w) + AttrOf(Lookup(es, path[n - 2], path[n - 1], 0).value, w)
  }

  /** The zip-and-sum of the script computes the reference total, and the
      script's lookup succeeds on every leg exactly when it does on every step. */
  lemma {:induction false} LegSumIsPathSum(es: seq<Edge>, path: seq<NodeId>, w: Weight)
    requires KeyZeroPath(es, path)
    ensures KeyZeroLegs(es, Legs(path))
    ensures LegSum(es, Legs(path), w) == PathSum(es, path, w)
    decreases |path|
  {
    var legs := Legs(path);
    forall i | 0 <= i < |legs| ensures Lookup(es, legs[i].0, legs[i].1, 0).Some? {
      assert legs[i] == (path[i], path[i + 1]);
    }
    if |path| >= 2 {
      var n := |path|;
      var front, last := path[..n - 1], path[n - 2..];
      LegsSplit(path, n - 2);
      assert path[..n - 2 + 1] == front;
      LegSumIsPathSum(es, front, w);
      assert Legs(last) == [(path[n - 2], path[n - 1])];
      KeyZeroLegsAppend(es, Legs(front), Legs(last));
      LegSumAppend(es, Legs(front), Legs(last), w);
      assert Legs(last)[1..] == [];
    }
  }

  /** Lines 70-73 in closed form: the distance is the reference length total
      over 1000, the time is the reference travel-time total over 60, times
      the congestion factor. */
  lemma {:induction false} SummarizeClosedForm(path: seq<NodeId>, es: seq<Edge>, peso: Weight)
    requires KeyZeroPath(es, path)
    ensures KeyZeroLegs(es, Legs(path))
    ensures Summarize(path, es, peso).distanceKm == PathSum(es, path, peso) / 1000.0
    ensures Summarize(path, es, peso).timeMin == PathSum(es, path, TravelTime) / 60.0 * CongestionFactor
  {
    LegSumIsPathSum(es, path, peso);
    LegSumIsPathSum(es, path, TravelTime);
  }

  /** Every edge of `es` has non-negative length and travel time. */
  ghost predicate NonNegativeAttrs(es: seq<Edge>) {
    forall e :: e in es ==> e.length >= 0.0 && e.travelTime >= 0.0
  }

  /** With non-negative edge attributes both results are non-negative. */
  lemma {:induction false} SummarizeNonNegative(path: seq<NodeId>, es: seq<Edge>, peso: Weight)
    requires KeyZeroLegs(es, Legs(path)) && NonNegativeAttrs(es)
    ensures Summarize(path, es, peso).distanceKm >= 0.0
    ensures Summarize(path, es, peso).timeMin >= 0.0
  {
  }

  /** A leg sum sees the same key-0 edges once sources outside its legs are dropped. */
  lemma {:induction false} LegSumDropSources(es: seq<Edge>, s: set<NodeId>, legs: seq<(NodeId, NodeId)>, w: Weight)
    requires KeyZeroLegs(es, legs)
    requires forall i :: 0 <= i < |legs| ==> legs[i].0 !in s
    ensures KeyZeroLegs(DropSources(es, s), legs)
    ensures LegSum(DropSources(es, s), legs, w) == LegSum(es, legs, w)
  {
    forall i | 0 <= i < |legs| ensures Lookup(DropSources(es, s), legs[i].0, legs[i].1, 0).Some? {
      LookupDropSources(es, s, legs[i].0, legs[i].1, 0);
    }
    if legs != [] {
      LookupDropSources(es, s, legs[0].0, legs[0].1, 0);
      LegSumDropSources(es, s, legs[1..], w);
    }
  }

  /** A route none of whose legs starts at a dropped source is summarised
      the same before and after the drop. */
  lemma {:induction false} SummarizeDropSources(path: seq<NodeId>, es: seq<Edge>, s: set<NodeId>, peso: Weight)
    requires KeyZeroLegs(es, Legs(path))
    requires forall i :: 0 <= i < |path| - 1 ==> path[i] !in s
    ensures KeyZeroLegs(DropSources(es, s), Legs(path))
    ensures Summarize(path, DropSources(es, s), peso) == Summarize(path, es, peso)
  {
    var legs := Legs(path);
    forall i | 0 <= i < |legs| ensures legs[i].0 !in s {
      assert legs[i] == (path[i], path[i + 1]);
    }
    LegSumDropSources(es, s, legs, peso);
    LegSumDropSources(es, s, legs, TravelTime);
    SummarizeBySums(path, DropSources(es, s), es, peso);
  }

  /** Two edge sequences with the same leg sums give the same summary. */
  lemma {:induction false} SummarizeBySums(path: seq<NodeId>, es1: seq<Edge>, es2: seq<Edge>, peso: Weight)
    requires KeyZeroLegs(es1, Legs(path)) && KeyZeroLegs(es2, Legs(path))
    requires LegSum(es1, Legs(path), peso) == LegSum(es2, Legs(path), peso)
    requires LegSum(es1, Legs(path), TravelTime) == LegSum(es2, Legs(path), TravelTime)
    ensures Summarize(path, es1, peso) == Summarize(path, es2, peso)
  {
  }

  /** A route that leaves no blocked barrier node is summarised the same on
      the filtered graph as on the original one. */
  lemma {:induction false} SummarizeAfterFilter(g: Graph, barriers: seq<NodeId>, path: seq<NodeId>, peso: Weight)
    requires KeyZeroLegs(g.edges, Legs(path))
    requires forall i :: 0 <= i < |path| - 1 ==> path[i] !in Blocked(g.nodes, barriers)
    ensures KeyZeroLegs(Filter(g, barriers).edges, Legs(path))
    ensures Summarize(path, Filter(g, barriers).edges, peso) == Summarize(path, g.edges, peso)
  {
    var s := Blocked(g.nodes, barriers);
    var es := DropSources(g.edges, s);
    assert Filter(g, barriers) == Graph(g.nodes, es);
    SummarizeDropSources(path, g.edges, s, peso);
    assert KeyZeroLegs(es, Legs(path));
    assert Summarize(path, es, peso) == Summarize(path, g.edges, peso);
  }

  /** A path whose every leg has a key-0 edge is a directed walk, so its
      destination is reachable from its origin. */
  lemma {:induction false} KeyZeroPathIsWalk(g: Graph, path: seq<NodeId>)
    requires WellFormed(g) && |path| >= 1 && path[0] in g.nodes
    requires KeyZeroLegs(g.edges, Legs(path))
    ensures IsWalk(g, path)
    ensures Reachable(g, path[0], path[|path| - 1])
  {
    var legs := Legs(path);
    forall i | 0 <= i < |path| - 1 ensures HasEdge(g.edges, path[i], path[i + 1]) {
      assert legs[i] == (path[i], path[i + 1]);
      var e := Lookup(g.edges, path[i], path[i + 1], 0).value;
      assert e in g.edges;
    }
    forall i | 0 <= i < |path| ensures path[i] in g.nodes {
      if i > 0 {
        assert HasEdge(g.edges, path[i - 1], path[i]);
      }
    }
  }
}
