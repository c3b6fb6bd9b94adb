/**
 * The road-graph builder (lab.py, build_internal_representation).
 *
 * The specification functions describe the builder as a fold over the way
 * records followed by a fold over the node records; the method
 * `BuildInternalRepresentation` runs the source's nested loops over
 * mutable dictionaries and is proved to compute that fold.  What the fold
 * means is proved in module BuilderProps.
 */
module Builder {
  import opened Common
  import opened RoadData
  import opened HighwayTables

  /** The exceptions the builder can raise. */
  datatype BuildError =
    | EmptyWay(wayId: int)               // `way['nodes'][-1]` on an empty list
    | UnknownSpeedLimit(highway: string) // default-speed lookup of a category with no entry

  /** A way is accepted when it has a `highway` tag whose value is allowed. */
  predicate Accepted(cfg: Config, w: Way)
  {
    w.tags.highway.Some? && w.tags.highway.value in cfg.allowed
  }

  predicate IsOneway(w: Way)
  {
    w.tags.oneway == Some("yes")
  }

  /** The speed every edge of an accepted way gets, if it can be determined. */
  function WaySpeed(cfg: Config, w: Way): (r: Option<int>)
    requires Accepted(cfg, w)
    ensures w.tags.maxspeedMph.Some? ==> r == w.tags.maxspeedMph
    ensures w.tags.maxspeedMph.None? ==> (r.Some? <==> w.tags.highway.value in cfg.defaultSpeed)
    ensures w.tags.maxspeedMph.None? && w.tags.highway.value in cfg.defaultSpeed ==> r == Some(cfg.defaultSpeed[w.tags.highway.value])
  {
    if w.tags.maxspeedMph.Some? then w.tags.maxspeedMph
    else if w.tags.highway.value in cfg.defaultSpeed then Some(cfg.defaultSpeed[w.tags.highway.value])
    else None
  }

  /**
   * The exception processing this way raises, if any: an accepted way with
   * no nodes fails on its last-node lookup, and one with at least one
   * consecutive pair fails when its speed cannot be determined.
   */
  function WayFailure(cfg: Config, w: Way): Option<BuildError>
  {
    if !Accepted(cfg, w) then None
    else if |w.nodes| == 0 then Some(EmptyWay(w.id))
    else if |w.nodes| >= 2 && WaySpeed(cfg, w).None? then Some(UnknownSpeedLimit(w.tags.highway.value))
    else None
  }

  /** `Some(max(old, s))`, or `Some(s)` when there was no old weight. */
  function MaxWith(prev: Option<int>, s: int): Option<int>
  {
    if prev.Some? then Some(Max(s, prev.value)) else Some(s)
  }

  /** Create the directed edge u -> v with speed s, or raise its speed to s. */
  function Merge(nb: Adjacency, u: NodeId, v: NodeId, s: int): (r: Adjacency)
    ensures forall a, b :: Weight(r, a, b) == if a == u && b == v then MaxWith(Weight(nb, a, b), s) else Weight(nb, a, b)
    ensures r.Keys == nb.Keys + {u}
  {
    var inner := if u in nb then nb[u] else map[];
    nb[u := inner[v := if v in inner then Max(s, inner[v]) else s]]
  }

  /** The edges one consecutive pair contributes. */
  function AddPair(nb: Adjacency, u: NodeId, v: NodeId, s: int, oneway: bool): Adjacency
  {
    if oneway then Merge(nb, u, v, s) else Merge(Merge(nb, u, v, s), v, u, s)
  }

  /** The edges of every consecutive pair of `ns`, taken left to right. */
  function AddWayEdges(nb: Adjacency, ns: seq<NodeId>, s: int, oneway: bool): Adjacency
  {
    if |ns| < 2 then nb
    else AddPair(AddWayEdges(nb, ns[..|ns| - 1], s, oneway), ns[|ns| - 2], ns[|ns| - 1], s, oneway)
  }

  /** The set of the nodes of a way, gathered left to right. */
  function NodesOf(ns: seq<NodeId>): set<NodeId>
  {
    if |ns| == 0 then {} else NodesOf(ns[..|ns| - 1]) + {ns[|ns| - 1]}
  }

  /** The way set after the pair loop has visited index i. */
  lemma NodesOfPrefix(ws: set<NodeId>, ns: seq<NodeId>, i: nat)
    requires i < |ns|
    ensures ws + NodesOf(ns[..i]) + {ns[i]} == ws + NodesOf(ns[..i + 1])
  {
    assert ns[..i + 1][..i] == ns[..i];
  }

  lemma AddWayEdgesPrefix(nb: Adjacency, ns: seq<NodeId>, i: nat, s: int, oneway: bool)
    requires i + 1 < |ns|
    ensures AddWayEdges(nb, ns[..i + 2], s, oneway) == AddPair(AddWayEdges(nb, ns[..i + 1], s, oneway), ns[i], ns[i + 1], s, oneway)
  {
    assert ns[..i + 2][..i + 1] == ns[..i + 1];
  }

  /** The dictionaries the way loop fills. */
  datatype WayState = WayState(neighbors: Adjacency, waySet: set<NodeId>)

  /** The speed used for the edges of an accepted way that does not fail. */
  function EdgeSpeed(cfg: Config, w: Way): int
    requires Accepted(cfg, w)
  {
    match WaySpeed(cfg, w)
    case Some(s) => s
    case None => 0
  }

  function ProcessWay(cfg: Config, st: WayState, w: Way): Result<WayState, BuildError>
  {
    match WayFailure(cfg, w)
    case Some(e) => Failure(e)
    case None =>
      if !Accepted(cfg, w) then Success(st)
      else Success(WayState(AddWayEdges(st.neighbors, w.nodes, EdgeSpeed(cfg, w), IsOneway(w)),
                            st.waySet + NodesOf(w.nodes)))
  }

  /** The way loop: the ways processed in order, stopping at the first exception. */
  function ProcessWays(cfg: Config, ways: seq<Way>): Result<WayState, BuildError>
  {
    if |ways| == 0 then Success(WayState(map[], {}))
    else
      match ProcessWays(cfg, ways[..|ways| - 1])
      case Failure(e) => Failure(e)
      case Success(st) => ProcessWay(cfg, st, ways[|ways| - 1])
  }

  /** The nodeSet dictionary together with its key insertion order. */
  datatype NodeTable = NodeTable(nodes: map<NodeId, Node>, order: seq<NodeId>)

  /**
   * The node loop: every record whose id is a way node is stored under its
   * id, a later record replacing an earlier one while keeping its position.
   */
  function FilterNodes(records: seq<Node>, waySet: set<NodeId>): NodeTable
  {
    if |records| == 0 then NodeTable(map[], [])
    else
      var t0 := FilterNodes(records[..|records| - 1], waySet);
      var r := records[|records| - 1];
      if r.id in waySet then
        NodeTable(t0.nodes[r.id := r], if r.id in t0.nodes then t0.order else t0.order + [r.id])
      else t0
  }

  /** The whole builder as a function of its inputs. */
  function Build(cfg: Config, records: seq<Node>, ways: seq<Way>): Result<Graph, BuildError>
  {
    match ProcessWays(cfg, ways)
    case Failure(e) => Failure(e)
    case Success(st) =>
      var t := FilterNodes(records, st.waySet);
      Success(Graph(t.nodes, t.order, st.neighbors, st.waySet))
  }

  lemma {:induction false} FailureStops(cfg: Config, ways: seq<Way>, k: nat)
    requires k <= |ways| && ProcessWays(cfg, ways[..k]).Failure?
    ensures ProcessWays(cfg, ways) == ProcessWays(cfg, ways[..k])
    decreases |ways| - k
  {
    if k < |ways| {
      assert ways[..k + 1][..k] == ways[..k];
      FailureStops(cfg, ways, k + 1);
    } else {
      assert ways[..k] == ways;
    }
  }

  /** One edge update, written as the source's nested membership tests. */
  method MergeEdge(neighbors: Adjacency, u: NodeId, v: NodeId, highwayValue: int) returns (r: Adjacency)
    ensures r == Merge(neighbors, u, v, highwayValue)
  {
    if u in neighbors {
      if v in neighbors[u] {
        var changeValue := Max(highwayValue, neighbors[u][v]);
        r := neighbors[u := neighbors[u][v := changeValue]];
      } else {
        r := neighbors[u := neighbors[u][v := highwayValue]];
      }
    } else {
      var dict1 := map[v := highwayValue];
      r := neighbors[u := dict1];
    }
  }

  /**
   * Builds the routing graph from node and way records: the ways are
   * filtered, their consecutive pairs merged into `neighbors`, their nodes
   * gathered in `waySet`, and then the node records of way nodes kept.
   */
  method BuildInternalRepresentation(cfg: Config, nodeRecords: seq<Node>, ways: seq<Way>)
    returns (r: Result<Graph, BuildError>)
    ensures r == Build(cfg, nodeRecords, ways)
  {
    var waySet: set<NodeId> := {};
    var neighbors: Adjacency := map[];
    for k := 0 to |ways|
      invariant ProcessWays(cfg, ways[..k]) == Success(WayState(neighbors, waySet))
    {
      assert ways[..k + 1][..k] == ways[..k];
      var step := AddWay(cfg, neighbors, waySet, ways[k]);
      if step.Failure? {
        FailureStops(cfg, ways, k + 1);
        return Failure(step.error);
      }
      neighbors, waySet := step.value.neighbors, step.value.waySet;
    }
    assert ways[..|ways|] == ways;
    var nodeSet, order := KeepWayNodes(nodeRecords, waySet);
    return Success(Graph(nodeSet, order, neighbors, waySet));
  }

  /** The body of the way loop for one way. */
  method AddWay(cfg: Config, neighbors0: Adjacency, waySet0: set<NodeId>, way: Way)
    returns (r: Result<WayState, BuildError>)
    ensures r == ProcessWay(cfg, WayState(neighbors0, waySet0), way)
  {
    if way.tags.highway.Some? {
      if way.tags.highway.value in cfg.allowed {
        if |way.nodes| == 0 {
          return Failure(EmptyWay(way.id));
        }
        r := AddAcceptedWay(cfg, neighbors0, waySet0, way);
        return;
      }
    }
    return Success(WayState(neighbors0, waySet0));
  }

  /** The pair loop of an accepted way that has at least one node. */
  method AddAcceptedWay(cfg: Config, neighbors0: Adjacency, waySet0: set<NodeId>, way: Way)
    returns (r: Result<WayState, BuildError>)
    requires Accepted(cfg, way) && |way.nodes| > 0
    ensures r == ProcessWay(cfg, WayState(neighbors0, waySet0), way)
  {
    var ns := way.nodes;
    var neighbors := neighbors0;
    ghost var speed := EdgeSpeed(cfg, way);
    var waySet := waySet0 + {ns[|ns| - 1]};
    ghost var ws1 := waySet;
    for i := 0 to |ns| - 1
      invariant waySet == ws1 + NodesOf(ns[..i])
      invariant neighbors == AddWayEdges(neighbors0, ns[..i + 1], speed, IsOneway(way))
      invariant i > 0 ==> WaySpeed(cfg, way).Some?
    {
      NodesOfPrefix(ws1, ns, i);
      waySet := waySet + {ns[i]};
      var lookup := SpeedLimit(cfg, way);
      if lookup.None? {
        return Failure(UnknownSpeedLimit(way.tags.highway.value));
      }
      var highwayValue := lookup.value;
      AddWayEdgesPrefix(neighbors0, ns, i, speed, IsOneway(way));
      neighbors := AddPairEdges(neighbors, ns[i], ns[i + 1], highwayValue,
                                way.tags.oneway.Some? && way.tags.oneway.value == "yes");
    }
    assert ns[..|ns|] == ns;
    NodesOfPrefix(waySet0, ns, |ns| - 1);
    assert waySet == waySet0 + NodesOf(ns);
    assert WayFailure(cfg, way).None?;
    return Success(WayState(neighbors, waySet));
  }

  /**
   * The speed of one pair's edges, computed inside the pair loop as the
   * source does: the way's own limit, else the default for its highway
   * type; a highway type with no default is a lookup failure (None).
   * `WaySpeed` is the same lookup as a function, for the specification and
   * the lemmas; this method is the statement the loop executes, proved to
   * agree with it.
   */
  method SpeedLimit(cfg: Config, way: Way) returns (r: Option<int>)
    requires Accepted(cfg, way)
    ensures r == WaySpeed(cfg, way)
  {
    if way.tags.maxspeedMph.Some? {
      return Some(way.tags.maxspeedMph.value);
    } else if way.tags.highway.value in cfg.defaultSpeed {
      return Some(cfg.defaultSpeed[way.tags.highway.value]);
    }
    return None;
  }

  /** The forward edge of a pair, and the reverse edge unless the way is one-way. */
  method AddPairEdges(neighbors: Adjacency, u: NodeId, v: NodeId, highwayValue: int, oneway: bool)
    returns (r: Adjacency)
    ensures r == AddPair(neighbors, u, v, highwayValue, oneway)
  {
    if oneway {
      r := MergeEdge(neighbors, u, v, highwayValue);
    } else {
      r := MergeEdge(neighbors, u, v, highwayValue);
      r := MergeEdge(r, v, u, highwayValue);
    }
  }

  /** The node loop: keep the records whose id is in `waySet`. */
  method KeepWayNodes(nodeRecords: seq<Node>, waySet: set<NodeId>) returns (nodeSet: map<NodeId, Node>, order: seq<NodeId>)
    ensures NodeTable(nodeSet, order) == FilterNodes(nodeRecords, waySet)
  {
    nodeSet := map[];
    order := [];
    for j := 0 to |nodeRecords|
      invariant FilterNodes(nodeRecords[..j], waySet) == NodeTable(nodeSet, order)
    {
      assert nodeRecords[..j + 1][..j] == nodeRecords[..j];
      var node := nodeRecords[j];
      if node.id in waySet {
        if node.id !in nodeSet {
          order := order + [node.id];
        }
        nodeSet := nodeSet[node.id := node];
      }
    }
    assert nodeRecords[..|nodeRecords|] == nodeRecords;
  }
}
