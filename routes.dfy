/**
 * Route queries between two coordinates: snap each coordinate to its
 * nearest node, search between the two nodes, and turn the node path back
 * into coordinates.
 */
module Routes {
  import opened Common
  import opened RoadData
  import opened SearchSpec
  import opened Search

  /** The distance from `loc` to the node at position j of the node table. */
  function DistanceTo(g: Graph, dist: Distance, loc: Coord, j: int): real
    requires 0 <= j < |g.order|
  {
    dist(loc, Loc(g, g.order[j]))
  }

  /**
   * Position k of the node table holds a node nearest to `loc`, and every
   * node before it is strictly farther: ties go to the earliest node.
   */
  ghost predicate IsEarliestNearest(g: Graph, dist: Distance, loc: Coord, k: int)
  {
    && 0 <= k < |g.order|
    && (forall j :: 0 <= j < |g.order| ==> DistanceTo(g, dist, loc, k) <= DistanceTo(g, dist, loc, j))
    && (forall j :: 0 <= j < k ==> DistanceTo(g, dist, loc, j) > DistanceTo(g, dist, loc, k))
  }

  /** `r` is `listNodes` with every node replaced by its coordinates; None stays None. */
  ghost predicate Reprojects(g: Graph, listNodes: Option<seq<NodeId>>, r: Option<seq<Coord>>)
  {
    match listNodes
    case None => r.None?
    case Some(p) => r.Some? && |r.value| == |p| && forall i :: 0 <= i < |p| ==> r.value[i] == Loc(g, p[i])
  }

  /**
   * What a route query returns: the reprojection of a correct answer
   * between the nodes nearest to the two coordinates.
   */
  ghost predicate IsRoute(g: Graph, dist: Distance, s: Strategy, loc1: Coord, loc2: Coord, r: Option<seq<Coord>>)
  {
    exists k1, k2, res ::
      && IsEarliestNearest(g, dist, loc1, k1)
      && IsEarliestNearest(g, dist, loc2, k2)
      && IsAnswer(g, dist, s, g.order[k1], g.order[k2], res)
      && Reprojects(g, res, r)
  }

  /**
   * The nearest-node scan: both running minima start at the first node of
   * the table, and a node replaces the saved one only when it is strictly
   * closer.
   */
  method NearestNodes(g: Graph, dist: Distance, loc1: Coord, loc2: Coord)
    returns (savedNode1: Node, savedNode2: Node, ghost k1: int, ghost k2: int)
    requires |g.order| > 0
    requires forall j :: 0 <= j < |g.order| ==> g.order[j] in g.nodes && g.order[j] in g.waySet
    ensures IsEarliestNearest(g, dist, loc1, k1) && savedNode1 == g.nodes[g.order[k1]]
    ensures IsEarliestNearest(g, dist, loc2, k2) && savedNode2 == g.nodes[g.order[k2]]
  {
    var node1 := g.nodes[g.order[0]];
    var minDistance1 := dist(loc1, Location(node1));
    var minDistance2 := dist(loc2, Location(node1));
    savedNode1, savedNode2 := node1, node1;
    k1, k2 := 0, 0;
    for i := 0 to |g.order|
      invariant 0 <= k1 < |g.order| && k1 <= i && savedNode1 == g.nodes[g.order[k1]]
      invariant 0 <= k2 < |g.order| && k2 <= i && savedNode2 == g.nodes[g.order[k2]]
      invariant minDistance1 == DistanceTo(g, dist, loc1, k1) && minDistance2 == DistanceTo(g, dist, loc2, k2)
      invariant forall j :: 0 <= j < i ==> minDistance1 <= DistanceTo(g, dist, loc1, j)
      invariant forall j :: 0 <= j < i ==> minDistance2 <= DistanceTo(g, dist, loc2, j)
      invariant forall j :: 0 <= j < k1 ==> DistanceTo(g, dist, loc1, j) > minDistance1
      invariant forall j :: 0 <= j < k2 ==> DistanceTo(g, dist, loc2, j) > minDistance2
    {
      var node := g.order[i];
      if node in g.waySet {
        var distance1 := dist(loc1, Location(g.nodes[node]));
        if distance1 < minDistance1 {
          minDistance1 := distance1;
          savedNode1 := g.nodes[node];
          k1 := i;
        }
        var distance2 := dist(loc2, Location(g.nodes[node]));
        if distance2 < minDistance2 {
          minDistance2 := distance2;
          savedNode2 := g.nodes[node];
          k2 := i;
        }
      }
    }
  }

  /** Turns a node path into the list of its nodes' coordinates; None passes through. */
  method Reproject(g: Graph, listNodes: Option<seq<NodeId>>) returns (r: Option<seq<Coord>>)
    requires listNodes.Some? ==> forall i :: 0 <= i < |listNodes.value| ==> listNodes.value[i] in g.nodes
    ensures Reprojects(g, listNodes, r)
  {
    if listNodes.None? {
      return None;
    }
    var p := listNodes.value;
    var listLocations: seq<Coord> := [];
    for i := 0 to |p|
      invariant |listLocations| == i
      invariant forall j :: 0 <= j < i ==> listLocations[j] == Loc(g, p[j])
    {
      listLocations := listLocations + [Location(g.nodes[p[i]])];
    }
    return Some(listLocations);
  }

  /** Shortest route by distance between the nodes nearest to two coordinates. */
  method FindShortPath(g: Graph, dist: Distance, loc1: Coord, loc2: Coord) returns (r: Option<seq<Coord>>)
    requires WellFormed(g) && |g.order| > 0 && Laws(g, dist, ShortestDistance)
    ensures IsRoute(g, dist, ShortestDistance, loc1, loc2, r)
  {
    var savedNode1, savedNode2;
    ghost var k1, k2;
    OrderedNodesHaveRecords(g);
    savedNode1, savedNode2, k1, k2 := NearestNodes(g, dist, loc1, loc2);
    var listNodes := FindShortPathNodes(g, dist, savedNode1.id, savedNode2.id);
    PathNodesHaveRecords(g, dist, ShortestDistance, savedNode1.id, savedNode2.id, listNodes);
    r := Reproject(g, listNodes);
  }

  /** The same query answered by the heuristic search. */
  method FindShortPathHeuristics(g: Graph, dist: Distance, loc1: Coord, loc2: Coord) returns (r: Option<seq<Coord>>)
    requires WellFormed(g) && |g.order| > 0 && Laws(g, dist, ShortestDistanceHeuristic)
    ensures IsRoute(g, dist, ShortestDistanceHeuristic, loc1, loc2, r)
  {
    var savedNode1, savedNode2;
    ghost var k1, k2;
    OrderedNodesHaveRecords(g);
    savedNode1, savedNode2, k1, k2 := NearestNodes(g, dist, loc1, loc2);
    var listNodes := FindShortPathNodesHeuristics(g, dist, savedNode1.id, savedNode2.id);
    PathNodesHaveRecords(g, dist, ShortestDistanceHeuristic, savedNode1.id, savedNode2.id, listNodes);
    r := Reproject(g, listNodes);
  }

  /** Fastest route, charging each edge its length divided by its speed limit. */
  method FindFastPath(g: Graph, dist: Distance, loc1: Coord, loc2: Coord) returns (r: Option<seq<Coord>>)
    requires WellFormed(g) && |g.order| > 0 && Laws(g, dist, Fastest)
    ensures IsRoute(g, dist, Fastest, loc1, loc2, r)
  {
    var savedNode1, savedNode2;
    ghost var k1, k2;
    OrderedNodesHaveRecords(g);
    savedNode1, savedNode2, k1, k2 := NearestNodes(g, dist, loc1, loc2);
    var node1 := savedNode1.id;
    var node2 := savedNode2.id;
    var listNodes := BestFirstSearch(g, dist, Fastest, node1, node2);
    PathNodesHaveRecords(g, dist, Fastest, node1, node2, listNodes);
    r := Reproject(g, listNodes);
  }

  // ---------------------------------------------------------------------
  // Properties

  /**
   * Every position of the node table holds a way node with a record under
   * its own id, so the scan's `node in waySet` test never fails.
   */
  lemma OrderedNodesHaveRecords(g: Graph)
    requires WellFormed(g)
    ensures forall j :: 0 <= j < |g.order| ==> g.order[j] in g.nodes && g.order[j] in g.waySet && g.nodes[g.order[j]].id == g.order[j]
  {
    forall j | 0 <= j < |g.order| ensures g.order[j] in g.nodes && g.order[j] in g.waySet {
      var x := g.order[j];
      assert x in g.order;
      assert x in g.order <==> x in g.nodes;
    }
  }

  /** Every node on an answer path has a record, so reprojection cannot fail. */
  lemma PathNodesHaveRecords(g: Graph, dist: Distance, s: Strategy, start: NodeId, goal: NodeId, r: Option<seq<NodeId>>)
    requires Closed(g) && start in g.nodes
    requires IsAnswer(g, dist, s, start, goal, r)
    ensures r.Some? ==> forall i :: 0 <= i < |r.value| ==> r.value[i] in g.nodes
  {
    if r.Some? {
      var p := r.value;
      forall i | 0 <= i < |p| ensures p[i] in g.nodes {
        if i > 0 {
          assert HasEdge(g.neighbors, p[i - 1], p[i]);
        }
      }
    }
  }

  /** The earliest nearest node is unique. */
  lemma EarliestNearestUnique(g: Graph, dist: Distance, loc: Coord, k1: int, k2: int)
    requires IsEarliestNearest(g, dist, loc, k1) && IsEarliestNearest(g, dist, loc, k2)
    ensures k1 == k2
  {
    assert DistanceTo(g, dist, loc, k1) <= DistanceTo(g, dist, loc, k2);
    assert DistanceTo(g, dist, loc, k2) <= DistanceTo(g, dist, loc, k1);
  }

  /** The earliest nearest position holds a node no farther than any node with a record. */
  lemma EarliestNearestIsNearest(g: Graph, dist: Distance, loc: Coord, k: int, x: NodeId)
    requires WellFormed(g) && IsEarliestNearest(g, dist, loc, k) && x in g.nodes
    ensures dist(loc, Loc(g, g.order[k])) <= dist(loc, Location(g.nodes[x]))
  {
    var j :| 0 <= j < |g.order| && g.order[j] == x;
    assert DistanceTo(g, dist, loc, k) <= DistanceTo(g, dist, loc, j);
  }

  /**
   * A route found by any of the three queries starts at the coordinates of
   * a node nearest to `loc1` and ends at those of a node nearest to `loc2`.
   */
  lemma RouteEndpoints(g: Graph, dist: Distance, s: Strategy, loc1: Coord, loc2: Coord, r: Option<seq<Coord>>)
    requires WellFormed(g) && IsRoute(g, dist, s, loc1, loc2, r)
    ensures r.Some? ==> |r.value| > 0
    ensures r.Some? ==> forall x :: x in g.nodes ==> dist(loc1, r.value[0]) <= dist(loc1, Location(g.nodes[x]))
    ensures r.Some? ==> forall x :: x in g.nodes ==> dist(loc2, r.value[|r.value| - 1]) <= dist(loc2, Location(g.nodes[x]))
    ensures r.Some? ==> exists k1 :: IsEarliestNearest(g, dist, loc1, k1) && r.value[0] == Location(g.nodes[g.order[k1]])
    ensures r.Some? ==> exists k2 :: IsEarliestNearest(g, dist, loc2, k2) && r.value[|r.value| - 1] == Location(g.nodes[g.order[k2]])
  {
    var k1, k2, res :| && IsEarliestNearest(g, dist, loc1, k1)
                       && IsEarliestNearest(g, dist, loc2, k2)
                       && IsAnswer(g, dist, s, g.order[k1], g.order[k2], res)
                       && Reprojects(g, res, r);
    if r.Some? {
      var p := res.value;
      assert r.value[0] == Loc(g, p[0]);
      assert r.value[|r.value| - 1] == Loc(g, p[|p| - 1]);
      forall x | x in g.nodes
        ensures dist(loc1, r.value[0]) <= dist(loc1, Location(g.nodes[x]))
        ensures dist(loc2, r.value[|r.value| - 1]) <= dist(loc2, Location(g.nodes[x]))
      {
        EarliestNearestIsNearest(g, dist, loc1, k1, x);
        EarliestNearestIsNearest(g, dist, loc2, k2, x);
      }
    }
  }

  /**
   * A route query returns no route exactly when the node nearest to the
   * second coordinate cannot be reached from the node nearest to the first.
   */
  lemma NoRouteIffUnreachable(g: Graph, dist: Distance, s: Strategy, loc1: Coord, loc2: Coord, r: Option<seq<Coord>>, k1: int, k2: int)
    requires IsRoute(g, dist, s, loc1, loc2, r)
    requires IsEarliestNearest(g, dist, loc1, k1) && IsEarliestNearest(g, dist, loc2, k2)
    ensures r.None? <==> !Reachable(g.neighbors, g.order[k1], g.order[k2])
  {
    var j1, j2, res :| && IsEarliestNearest(g, dist, loc1, j1)
                       && IsEarliestNearest(g, dist, loc2, j2)
                       && IsAnswer(g, dist, s, g.order[j1], g.order[j2], res)
                       && Reprojects(g, res, r);
    EarliestNearestUnique(g, dist, loc1, j1, k1);
    EarliestNearestUnique(g, dist, loc2, j2, k2);
  }
}
