/** The checks GPS/gps.py runs after the barrier loop: the origin and
    destination must still be nodes of the graph, and a directed path must
    lead from the origin to the destination. */
module Validation {
  import opened RoadGraph
  import opened BarrierFilter

  datatype RouteError = EndpointRemoved | NoRouteAvailable

  datatype Outcome = Pass | Fail(error: RouteError)

  /** Some edge of `es` leads from `u` to `v`. */
  predicate HasEdge(es: seq<Edge>, u: NodeId, v: NodeId) {
    exists e :: e in es && e.src == u && e.dst == v
  }

  /** `p` is a directed walk of `g`: at least one node, every node in the
      graph, and an edge from each node to the next. */
  ghost predicate IsWalk(g: Graph, p: seq<NodeId>) {
    |p| >= 1
    && (forall i :: 0 <= i < |p| ==> p[i] in g.nodes)
    && (forall i :: 0 <= i < |p| - 1 ==> HasEdge(g.edges, p[i], p[i + 1]))
  }

  /** `has_path(g, a, b)`: some directed walk leads from `a` to `b`. */
  ghost predicate Reachable(g: Graph, a: NodeId, b: NodeId): (r: bool)
    ensures r ==> a in g.nodes && b in g.nodes
    ensures a == b && a in g.nodes ==> r
  {
    var single := [a];
    assert a in g.nodes ==> IsWalk(g, single);
    exists p :: IsWalk(g, p) && p[0] == a && p[|p| - 1] == b
  }

  /** Lines 53-56: the endpoint check first, then the path check. */
  ghost function Validate(g: Graph, orig: NodeId, dest: NodeId): (r: Outcome)
    ensures r == Pass <==> Reachable(g, orig, dest)
    ensures r == Fail(EndpointRemoved) <==> orig !in g.nodes || dest !in g.nodes
    ensures r == Fail(NoRouteAvailable)
        <==> orig in g.nodes && dest in g.nodes && !Reachable(g, orig, dest)
  {
    if orig !in g.nodes || dest !in g.nodes then Fail(EndpointRemoved)
    else if !Reachable(g, orig, dest) then Fail(NoRouteAvailable)
    else Pass
  }

  /** Each step of a walk is an edge. */
  lemma {:induction false} WalkStep(g: Graph, p: seq<NodeId>, i: nat)
    requires IsWalk(g, p) && i < |p| - 1
    ensures HasEdge(g.edges, p[i], p[i + 1])
  {
  }

  /** A walk of the original graph that leaves no blocked barrier node:
      every node but the last is outside the blocked set. */
  ghost predicate AvoidsBarriers(g: Graph, barriers: seq<NodeId>, p: seq<NodeId>) {
    IsWalk(g, p) && forall i :: 0 <= i < |p| - 1 ==> p[i] !in Blocked(g.nodes, barriers)
  }

  /** The walks of the filtered graph are exactly the walks of the original
      graph that leave no blocked barrier node. */
  lemma {:induction false} FilteredWalks(g: Graph, barriers: seq<NodeId>, p: seq<NodeId>)
    ensures IsWalk(Filter(g, barriers), p) <==> AvoidsBarriers(g, barriers, p)
  {
    var f := Filter(g, barriers);
    var s := Blocked(g.nodes, barriers);
    if IsWalk(f, p) {
      forall i | 0 <= i < |p| - 1 ensures HasEdge(g.edges, p[i], p[i + 1]) && p[i] !in s {
        assert HasEdge(f.edges, p[i], p[i + 1]);
        var e :| e in f.edges && e.src == p[i] && e.dst == p[i + 1];
      }
    }
    if AvoidsBarriers(g, barriers, p) {
      forall i | 0 <= i < |p| - 1 ensures HasEdge(f.edges, p[i], p[i + 1]) {
        assert HasEdge(g.edges, p[i], p[i + 1]);
        var e :| e in g.edges && e.src == p[i] && e.dst == p[i + 1];
        assert e in f.edges;
      }
    }
  }

  /** After filtering, the destination is reachable exactly when the original
      graph has a walk to it that leaves no blocked barrier node. */
  lemma {:induction false} FilteredReachable(g: Graph, barriers: seq<NodeId>, a: NodeId, b: NodeId)
    ensures Reachable(Filter(g, barriers), a, b)
        <==> exists p :: AvoidsBarriers(g, barriers, p) && p[0] == a && p[|p| - 1] == b
  {
    var f := Filter(g, barriers);
    if Reachable(f, a, b) {
      var p :| IsWalk(f, p) && p[0] == a && p[|p| - 1] == b;
      FilteredWalks(g, barriers, p);
    }
    if exists p :: AvoidsBarriers(g, barriers, p) && p[0] == a && p[|p| - 1] == b {
      var p :| AvoidsBarriers(g, barriers, p) && p[0] == a && p[|p| - 1] == b;
      FilteredWalks(g, barriers, p);
    }
  }

  /** Filtering only removes routes: what is reachable afterwards was
      reachable before. */
  lemma {:induction false} FilterShrinksReachability(g: Graph, barriers: seq<NodeId>, a: NodeId, b: NodeId)
    requires Reachable(Filter(g, barriers), a, b)
    ensures Reachable(g, a, b)
  {
    var p :| IsWalk(Filter(g, barriers), p) && p[0] == a && p[|p| - 1] == b;
    FilteredWalks(g, barriers, p);
  }

  /** An origin that is itself a blocked barrier node has no way out, so any
      other destination yields the no-route error. */
  lemma {:induction false} BlockedOriginNoRoute(g: Graph, barriers: seq<NodeId>, orig: NodeId, dest: NodeId)
    requires orig in barriers && orig in g.nodes && dest in g.nodes
    requires orig != dest
    ensures Validate(Filter(g, barriers), orig, dest) == Fail(NoRouteAvailable)
  {
    var f := Filter(g, barriers);
    if Reachable(f, orig, dest) {
      var p :| IsWalk(f, p) && p[0] == orig && p[|p| - 1] == dest;
      WalkStep(f, p, 0);
      assert false;
    }
  }

  /** The script's outcome after the barrier loop. Since the loop removes
      edges only and the origin and destination were resolved from this same
      graph, the endpoint error can never fire; the no-route error fires
      exactly when every walk from origin to destination leaves a blocked
      barrier node. */
  lemma {:induction false} ScriptValidation(g: Graph, barriers: seq<NodeId>, orig: NodeId, dest: NodeId)
    requires orig in g.nodes && dest in g.nodes
    ensures Validate(Filter(g, barriers), orig, dest) != Fail(EndpointRemoved)
    ensures Validate(Filter(g, barriers), orig, dest) == Fail(NoRouteAvailable)
        <==> !exists p :: AvoidsBarriers(g, barriers, p) && p[0] == orig && p[|p| - 1] == dest
  {
    FilteredReachable(g, barriers, orig, dest);
  }

  /** Origin equal to destination always passes: the one-node route. */
  lemma {:induction false} SameEndpointsPass(g: Graph, barriers: seq<NodeId>, orig: NodeId)
    requires orig in g.nodes
    ensures Validate(Filter(g, barriers), orig, orig) == Pass
  {
  }
}
