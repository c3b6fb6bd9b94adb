/**
 * A worked example: two residential ways, the second one-way, built with
 * the standard tables, and the only route the searches can return on the
 * resulting graph.
 */
module ExampleGraph {
  import opened Common
  import opened RoadData
  import opened HighwayTables
  import opened Builder
  import opened SearchSpec

  const W1: Way := Way(1, [1, 2, 3], Tags(Some("residential"), None, None))
  const W2: Way := Way(2, [3, 4], Tags(Some("residential"), None, Some("yes")))
  /** A footpath: not an allowed highway type. */
  const W3: Way := Way(3, [4, 5], Tags(Some("footway"), None, None))

  const Records: seq<Node> := [Node(1, 0.0, 0.0), Node(2, 0.0, 1.0), Node(5, 1.0, 1.0), Node(3, 0.0, 2.0), Node(4, 0.0, 3.0)]

  const ExpectedNeighbors: Adjacency := map[1 := map[2 := 25], 2 := map[1 := 25, 3 := 25], 3 := map[2 := 25, 4 := 25]]

  const Expected: Graph :=
    Graph(map[1 := Records[0], 2 := Records[1], 3 := Records[3], 4 := Records[4]], [1, 2, 3, 4], ExpectedNeighbors, {1, 2, 3, 4})

  lemma ExampleSpeeds()
    ensures WaySpeed(Standard, W1) == Some(25) && WaySpeed(Standard, W2) == Some(25)
    ensures WayFailure(Standard, W1).None? && WayFailure(Standard, W2).None? && WayFailure(Standard, W3).None?
    ensures Accepted(Standard, W1) && Accepted(Standard, W2) && !Accepted(Standard, W3)
    ensures EdgeSpeed(Standard, W1) == 25 && EdgeSpeed(Standard, W2) == 25
    ensures !IsOneway(W1) && IsOneway(W2)
  {
    assert DefaultSpeedLimitMph["residential"] == 25;
  }

  lemma FirstWayEdges()
    ensures AddWayEdges(map[], W1.nodes, 25, false) == map[1 := map[2 := 25], 2 := map[1 := 25, 3 := 25], 3 := map[2 := 25]]
  {
    assert [1, 2][..1] == [1];
    assert [1, 2, 3][..2] == [1, 2];
    var a := AddWayEdges(map[], [1, 2], 25, false);
    assert a == AddPair(map[], 1, 2, 25, false);
    assert Merge(map[], 1, 2, 25) == map[1 := map[2 := 25]];
    assert a == map[1 := map[2 := 25], 2 := map[1 := 25]];
    var b := Merge(a, 2, 3, 25);
    assert b == map[1 := map[2 := 25], 2 := map[1 := 25, 3 := 25]];
    assert AddWayEdges(map[], [1, 2, 3], 25, false) == Merge(b, 3, 2, 25);
  }

  lemma SecondWayEdges(nb: Adjacency)
    requires nb == map[1 := map[2 := 25], 2 := map[1 := 25, 3 := 25], 3 := map[2 := 25]]
    ensures AddWayEdges(nb, W2.nodes, 25, true) == ExpectedNeighbors
  {
    assert [3, 4][..1] == [3];
    assert AddWayEdges(nb, [3, 4], 25, true) == Merge(nb, 3, 4, 25);
  }

  lemma ExampleNodesOf()
    ensures NodesOf(W1.nodes) == {1, 2, 3} && NodesOf(W2.nodes) == {3, 4}
  {
    assert [1, 2, 3][..2] == [1, 2] && [1, 2][..1] == [1] && [1][..0] == [];
    assert NodesOf([1]) == {1};
    assert NodesOf([1, 2]) == {1, 2};
    assert [3, 4][..1] == [3] && [3][..0] == [];
    assert NodesOf([3]) == {3};
  }

  const AfterFirst: WayState := WayState(map[1 := map[2 := 25], 2 := map[1 := 25, 3 := 25], 3 := map[2 := 25]], {1, 2, 3})

  lemma ExampleFirstWay()
    ensures ProcessWays(Standard, [W1]) == Success(AfterFirst)
  {
    ExampleSpeeds();
    FirstWayEdges();
    ExampleNodesOf();
    assert [W1][..0] == [];
    assert {} + {1, 2, 3} == {1, 2, 3};
  }

  lemma ExampleSecondWay()
    ensures ProcessWay(Standard, AfterFirst, W2) == Success(WayState(ExpectedNeighbors, {1, 2, 3, 4}))
  {
    ExampleSpeeds();
    ExampleNodesOf();
    SecondWayEdges(AfterFirst.neighbors);
    assert {1, 2, 3} + {3, 4} == {1, 2, 3, 4};
  }

  lemma ExampleWays()
    ensures ProcessWays(Standard, [W1, W2, W3]) == Success(WayState(ExpectedNeighbors, {1, 2, 3, 4}))
  {
    ExampleFirstWay();
    ExampleSecondWay();
    assert [W1, W2][..1] == [W1];
    assert ProcessWays(Standard, [W1, W2]) == Success(WayState(ExpectedNeighbors, {1, 2, 3, 4}));
    assert [W1, W2, W3][..2] == [W1, W2];
    ExampleSpeeds();
  }

  lemma ExampleNodes()
    ensures FilterNodes(Records, {1, 2, 3, 4}) ==
      NodeTable(map[1 := Records[0], 2 := Records[1], 3 := Records[3], 4 := Records[4]], [1, 2, 3, 4])
  {
    var ws := {1, 2, 3, 4};
    var n1, n2, n5, n3, n4 := Records[0], Records[1], Records[2], Records[3], Records[4];
    assert Records[..4] == [n1, n2, n5, n3];
    assert [n1, n2, n5, n3][..3] == [n1, n2, n5];
    assert [n1, n2, n5][..2] == [n1, n2];
    assert [n1, n2][..1] == [n1];
    assert [n1][..0] == [];
    assert FilterNodes([n1], ws) == NodeTable(map[1 := n1], [1]);
    assert FilterNodes([n1, n2], ws) == NodeTable(map[1 := n1, 2 := n2], [1, 2]);
    assert FilterNodes([n1, n2, n5], ws) == NodeTable(map[1 := n1, 2 := n2], [1, 2]);
    assert FilterNodes([n1, n2, n5, n3], ws) == NodeTable(map[1 := n1, 2 := n2, 3 := n3], [1, 2, 3]);
  }

  /**
   * Edges 1 <-> 2, 2 <-> 3 and 3 -> 4 at the residential default of 25 mph;
   * the footpath adds nothing, so node 5's record is dropped.
   */
  lemma ExampleBuild()
    ensures Build(Standard, Records, [W1, W2, W3]) == Success(Expected)
  {
    ExampleWays();
    ExampleNodes();
  }

  /** The example graph has exactly one loop-free path from node 1 to node 4. */
  lemma OnlyLoopFreePath(p: seq<NodeId>)
    requires IsPathFromTo(ExpectedNeighbors, p, 1, 4) && NoDuplicates(p)
    ensures p == [1, 2, 3, 4]
  {
    var nb := ExpectedNeighbors;
    assert |p| >= 2;
    assert HasEdge(nb, p[0], p[1]);
    assert p[1] == 2;
    assert |p| >= 3;
    assert HasEdge(nb, p[1], p[2]);
    assert p[2] != p[0];
    assert p[2] == 3;
    assert |p| >= 4;
    assert HasEdge(nb, p[2], p[3]);
    assert p[3] != p[1];
    assert p[3] == 4;
  }

  /**
   * On the example graph every search, whatever the distance function,
   * answers the query from node 1 to node 4 with the path [1, 2, 3, 4].
   */
  lemma ExampleRoute(dist: Distance, s: Strategy, r: Option<seq<NodeId>>)
    requires IsAnswer(Expected, dist, s, 1, 4, r)
    ensures r == Some([1, 2, 3, 4])
  {
    var nb := ExpectedNeighbors;
    assert HasEdge(nb, 1, 2) && HasEdge(nb, 2, 3) && HasEdge(nb, 3, 4);
    assert IsPathFromTo(nb, [1, 2, 3, 4], 1, 4);
    OnlyLoopFreePath(r.value);
  }
}
