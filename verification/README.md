# GPS route planner core, modelled in Dafny

The GPS script plans routes on a street network. It downloads a street graph, resolves a start address, a destination address and five fixed barrier coordinates to graph nodes, and deletes the roads at the barriers. It then checks that a route still exists, asks the graph library for the shortest route (A*, by length) and for the fastest route (Dijkstra, by travel time), and reports each route's distance in km and time in minutes, the time inflated by a 40% congestion factor.

This project models the three pieces of that script that hold logic of its own:

- **Barrier filtering** (`road_graph.dfy`, `barrier_filter.dfy`). The street graph is a directed multigraph: a class `RoadGraph` with a node set and an edge sequence in insertion order. Each edge carries source, target, parallel-edge key, `length` and `travel_time`. The loop over the barrier nodes is a method with a loop invariant. Each barrier node present in the graph gets `remove_edges_from(list(edges(node)))`, modelled call by call:
  - `edges(node)` yields one `(node, v)` pair per outgoing edge.
  - `remove_edges_from` removes one `u -> v` edge per pair.
  - It skips pairs that no longer have an edge.

  The model proves that this removes every outgoing edge of the node, parallel edges included, and nothing else.
- **Post-filter validation** (`validation.dfy`). There are two errors: `EndpointRemoved` and `NoRouteAvailable`. Reachability is defined by directed walks. The model proves that the endpoint error cannot fire after filtering. It also proves that the no-route error fires exactly when every walk of the original graph from origin to destination leaves a barrier node.
- **Route metrics** (`route_metrics.dfy`). `calcular_distancia_tempo` sums the key-0 edge attribute over the consecutive node pairs of a route. It then converts metres to km and seconds to minutes, and multiplies the time by the congestion factor 1.4. The model proves:
  - the sums agree with an independent reference fold over the path;
  - they split additively at any node;
  - they are non-negative;
  - they do not change under filtering for a route that avoids the barriers.

The script's comments at GPS/gps.py:47 and :50 speak of removing "all streets linked to" a barrier node. On a directed multigraph, `edges(node)` lists only the node's outgoing edges. The model follows the call: edges into a barrier node survive, so a route can still end at a barrier node.

## Model

| member | source | states |
|---|---|---|
| `RoadGraph.OutPairs` | GPS/gps.py:50 | `edges(n)` lists only pairs starting at `n`. It lists each `(n, v)` exactly as many times as there are parallel edges `n -> v`. |
| `RoadGraph.RemoveLast` | GPS/gps.py:50 | Removing one `u -> v` edge shortens the edge list by one exactly when such an edge exists, and adds no edge. A missing edge is skipped, not an error. |
| `RoadGraph.RemoveLastCount` | GPS/gps.py:50 | One removal lowers the count of `u -> v` edges by one (when positive) and leaves the count of every other node pair unchanged. |
| `RoadGraph.RemoveAllMatching` | GPS/gps.py:50 | Removing, pair by pair, a bag of `(n, v)` pairs that matches the out-edges of `n` one for one leaves exactly the edges not leaving `n`, in order. |
| `RoadGraph.RemoveAll` | GPS/gps.py:50 | `remove_edges_from(ps)` applies one single-edge removal per pair, in order. It removes at most one edge per pair and adds none. |
| `RoadGraph.RemoveOutEdges` | GPS/gps.py:50 | `remove_edges_from(list(edges(n)))` equals dropping every outgoing edge of `n`, parallel edges and self-loops included, and nothing else. |
| `RoadGraph.DropSources` | GPS/gps.py:50 | The kept edges are exactly the edges whose source is not dropped. |
| `RoadGraph.DropSourcesTwice` | GPS/gps.py:48-50 | Dropping two source sets one after the other equals dropping their union, which is how successive loop rounds combine. |
| `RoadGraph.DropSourcesMultiplicity` | GPS/gps.py:50 | Every copy of an edge whose source is kept survives. Every edge whose source is dropped is gone. |
| `RoadGraph.LookupDropSources` | GPS/gps.py:70 | The key lookup `grafo_ref[u][v][k]` from a kept source returns the same edge after the drop. |
| `RoadGraph.Lookup` | GPS/gps.py:70 | The lookup returns an edge `u -> v` with key `k` from the graph. It fails exactly when no such edge exists. |
| `RoadGraph.RoadGraph.Contains` | GPS/gps.py:49 | A node that fails `node in grafo` touches no edge of a well-formed graph. |
| `RoadGraph.RoadGraph.RemoveEdgesFrom` | GPS/gps.py:50 | The loop removes one edge per listed pair, in order. The node set and well-formedness are preserved. |
| `BarrierFilter.BlockedStep` | GPS/gps.py:48-49 | Each round of the loop adds its id to the set of nodes acted on exactly when `node in grafo` holds, and otherwise leaves the set unchanged. |
| `BarrierFilter.Filter` | GPS/gps.py:48-50 | After filtering, the node set is unchanged. An edge survives exactly when its source is not a listed barrier present in the graph. |
| `BarrierFilter.FilterBarriers` | GPS/gps.py:48-50 | The in-place loop leaves the graph equal to `Filter` of the old graph and keeps it well-formed. |
| `BarrierFilter.FilterStep` | GPS/gps.py:50 | One loop round on the edges left so far adds the barrier node to the set of dropped sources. |
| `BarrierFilter.BarrierOutEdgesGone` | GPS/gps.py:48-50 | After filtering, no barrier node in the graph has an outgoing edge to any node, and `edges(b)` is empty. |
| `BarrierFilter.KeepsOtherEdges` | GPS/gps.py:50 | Every edge whose source is not a barrier keeps its multiplicity, with the same endpoints, key and attributes. The node set is identical. |
| `BarrierFilter.FilterIdempotent` | GPS/gps.py:48-50 | Running the filter a second time with the same barrier list leaves the graph unchanged. |
| `BarrierFilter.FilterOnlyDependsOnSet` | GPS/gps.py:48-49 | Repeated or reordered barrier ids give the same result. |
| `BarrierFilter.MembershipTestIrrelevant` | GPS/gps.py:49 | On a well-formed graph, skipping ids that are not in the graph gives the same edges as dropping every listed id. |
| `BarrierFilter.FilterWellFormed` | GPS/gps.py:50 | Filtering keeps every edge's endpoints inside the node set. |
| `Validation.Validate` | GPS/gps.py:53-56 | The check passes exactly when the destination is reachable. It reports `EndpointRemoved` exactly when an endpoint is missing. Otherwise it reports `NoRouteAvailable` exactly when no walk exists. |
| `Validation.Reachable` | GPS/gps.py:55 | `has_path(g, a, b)` is the existence of a directed walk from `a` to `b`. It holds only between nodes of the graph, and it holds from every node of the graph to itself. |
| `Validation.FilteredWalks` | GPS/gps.py:50-55 | The walks of the filtered graph are exactly the walks of the original graph that leave no barrier node. |
| `Validation.FilteredReachable` | GPS/gps.py:55-56 | After filtering, the destination is reachable exactly when the original graph has a walk to it whose non-final nodes avoid the barriers. |
| `Validation.FilterShrinksReachability` | GPS/gps.py:55 | Whatever is reachable after filtering was reachable before. |
| `Validation.BlockedOriginNoRoute` | GPS/gps.py:53-56 | An origin that is itself a barrier node yields `NoRouteAvailable` for every other destination. |
| `Validation.ScriptValidation` | GPS/gps.py:53-56 | With origin and destination resolved from the graph, the endpoint error never fires after filtering. The no-route error fires exactly when no barrier-avoiding walk exists. |
| `Validation.SameEndpointsPass` | GPS/gps.py:55 | Origin equal to destination always passes validation, by the one-node route. |
| `RouteMetrics.Legs` | GPS/gps.py:70 | `zip(caminho[:-1], caminho[1:])` has one pair per step of the route, and the pair at position `i` is `(caminho[i], caminho[i+1])`. |
| `RouteMetrics.Summarize` | GPS/gps.py:69-74 | A route of zero or one node yields `(0, 0)`. The distance in km times 1000 is the summed `peso` attribute. The time in minutes times 60 is the summed travel time times the congestion factor. |
| `RouteMetrics.LegSum` | GPS/gps.py:70-72 | The generator sum over the key-0 edges of a list of legs is 0 for no legs, and it is non-negative when every edge attribute is. |
| `RouteMetrics.LegSumIsPathSum` | GPS/gps.py:70-72 | The script's zip-and-sum equals an independent fold over the path that adds the last step's key-0 edge to the total of the shorter route. |
| `RouteMetrics.SummarizeClosedForm` | GPS/gps.py:70-73 | The distance is the reference length total over 1000. The time is the reference travel-time total over 60 times 1.4. |
| `RouteMetrics.LegSumAppend` | GPS/gps.py:70 | Sums over concatenated leg lists add up. |
| `RouteMetrics.SummarizeSplit` | GPS/gps.py:69-74 | Cutting a route at any node splits both its distance and its time into the sums for the two parts. |
| `RouteMetrics.SummarizeNonNegative` | GPS/gps.py:69-74 | With non-negative edge attributes, both distance and time are non-negative. |
| `RouteMetrics.SummarizeAfterFilter` | GPS/gps.py:69-74 | A route that leaves no barrier node has the same distance and time on the filtered graph as on the original. |
| `RouteMetrics.KeyZeroPathIsWalk` | GPS/gps.py:70 | A route whose every step has a key-0 edge is a directed walk, so its destination is reachable from its origin. |

## Left out

- Reading the two addresses and geocoding them (GPS/gps.py:9-16) are user and network input, so they are not modelled.
- Downloading the street graph and adding speeds and travel times (GPS/gps.py:21, 26-27) are network access and graph-library internals. Edge attributes are taken as given.
- Nearest-node resolution of origin, destination and barriers (GPS/gps.py:32-33, 45) is a spatial-index call into the library. The resolved node ids are inputs.
- The Euclidean heuristic (GPS/gps.py:61-64) is a floating-point square root used only as a callback of the library's A*, so it is not modelled.
- The A* and Dijkstra searches (GPS/gps.py:79-83, 89) are library calls with no body in this repository. The metrics lemmas instead assume that the route has a key-0 edge for every step. `KeyZeroPathIsWalk` shows that such a route is a directed walk.
- Printing, plotting, the basemap, text overlays and saving the image (GPS/gps.py:95-136) are output only.
- Floating-point rounding and the `:.2f`/`:.0f` formatting are not modelled. All sums use exact `real` arithmetic, and 1.4 is the exact rational 7/5.
- `Validation.Validate`: the path check is a ghost definition, an existence of a walk, because `has_path` is library code with no body here. Validation is therefore not executable in the model.
- `RoadGraph.RemoveLast`: `remove_edge(u, v)` without a key drops the most recently added parallel edge, and the body does the same. The contract does not say which one goes. The proved results about `remove_edges_from(list(edges(n)))` do not depend on which parallel edge goes first.
- `RoadGraph.Lookup`: the graph library keeps `(u, v, key)` unique. The model does not carry that invariant and returns the first matching edge.
- Removal of edges that lead into a barrier node is not modelled, because the code removes outgoing edges only (see above).
