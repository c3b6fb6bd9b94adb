/**
 * What a route query over the road graph means: the cost each search
 * charges along a path, the estimate the heuristic search adds, and the
 * answer every search must return.
 */
module SearchSpec {
  import opened Common
  import opened RoadData

  /**
   * The three searches share one loop and differ only in what they charge:
   * distance, distance ordered by distance-plus-estimate, or travel time.
   */
  datatype Strategy = ShortestDistance | ShortestDistanceHeuristic | Fastest

  /** The great-circle distance between two coordinates, taken as a parameter. */
  type Distance = (Coord, Coord) -> real

  /** The coordinates of a node that has a record (the origin otherwise). */
  function Loc(g: Graph, u: NodeId): Coord
  {
    if u in g.nodes then Location(g.nodes[u]) else Coord(0.0, 0.0)
  }

  /**
   * What a search charges for the edge u -> v: its length, or for the fast
   * search its length divided by the edge's speed limit.
   */
  function Step(g: Graph, dist: Distance, s: Strategy, u: NodeId, v: NodeId): real
  {
    var d := dist(Loc(g, u), Loc(g, v));
    // The `!= 0` test only keeps the division defined: the source would raise
    // ZeroDivisionError at lab.py:558, which `Laws` rules out for the fast search.
    if s == Fastest && HasEdge(g.neighbors, u, v) && g.neighbors[u][v] != 0 then d / (g.neighbors[u][v] as real) else d
  }

  /** The estimate added to an entry's cost to order the agenda. */
  function H(g: Graph, dist: Distance, s: Strategy, goal: NodeId, v: NodeId): real
  {
    if s == ShortestDistanceHeuristic then dist(Loc(g, v), Loc(g, goal)) else 0.0
  }

  /** The sum of the step costs along consecutive nodes of `p`. */
  function PathCost(g: Graph, dist: Distance, s: Strategy, p: seq<NodeId>): real
  {
    if |p| <= 1 then 0.0 else PathCost(g, dist, s, p[..|p| - 1]) + Step(g, dist, s, p[|p| - 2], p[|p| - 1])
  }

  /** Every consecutive pair of `p` is a directed edge. */
  ghost predicate IsPath(nb: Adjacency, p: seq<NodeId>)
  {
    |p| > 0 && forall i :: 0 <= i < |p| - 1 ==> HasEdge(nb, p[i], p[i + 1])
  }

  ghost predicate IsPathFromTo(nb: Adjacency, p: seq<NodeId>, a: NodeId, b: NodeId)
  {
    IsPath(nb, p) && p[0] == a && p[|p| - 1] == b
  }

  ghost predicate Reachable(nb: Adjacency, a: NodeId, b: NodeId)
  {
    exists p :: IsPathFromTo(nb, p, a, b)
  }

  /**
   * What the distance function and the speed limits must satisfy for the
   * searches to be optimal: distances are non-negative, the heuristic search
   * relies on the triangle inequality, and the fast search divides by
   * speed limits that are positive.
   */
  ghost predicate Laws(g: Graph, dist: Distance, s: Strategy)
  {
    && (forall a, b :: dist(a, b) >= 0.0)
    && (s == ShortestDistanceHeuristic ==> forall a, b, c :: dist(a, c) <= dist(a, b) + dist(b, c))
    && (s == Fastest ==> PositiveWeights(g.neighbors))
  }

  /**
   * What a search needs from its caller: the start node has a record (the
   * heuristic search also reads the goal's record), every edge leads to a
   * node with a record, and the laws above.
   */
  ghost predicate Searchable(g: Graph, dist: Distance, s: Strategy, start: NodeId, goal: NodeId)
  {
    && start in g.nodes
    && (s == ShortestDistanceHeuristic ==> goal in g.nodes)
    && Closed(g)
    && Laws(g, dist, s)
  }

  /**
   * A correct answer: None exactly when the goal cannot be reached, and
   * otherwise a path from start to goal that visits no node twice and costs
   * no more than any other path from start to goal.
   */
  ghost predicate IsAnswer(g: Graph, dist: Distance, s: Strategy, start: NodeId, goal: NodeId, r: Option<seq<NodeId>>)
  {
    match r
    case None => !Reachable(g.neighbors, start, goal)
    case Some(p) =>
      && IsPathFromTo(g.neighbors, p, start, goal)
      && NoDuplicates(p)
      && forall q :: IsPathFromTo(g.neighbors, q, start, goal) ==> PathCost(g, dist, s, p) <= PathCost(g, dist, s, q)
  }

  // ---------------------------------------------------------------------
  // Costs

  lemma StepNonNegative(g: Graph, dist: Distance, s: Strategy, u: NodeId, v: NodeId)
    requires Laws(g, dist, s)
    ensures Step(g, dist, s, u, v) >= 0.0
  {
    var d := dist(Loc(g, u), Loc(g, v));
    assert d >= 0.0;
    if s == Fastest && HasEdge(g.neighbors, u, v) && g.neighbors[u][v] != 0 {
      assert g.neighbors[u][v] > 0;
    }
  }

  lemma {:induction false} PathCostNonNegative(g: Graph, dist: Distance, s: Strategy, p: seq<NodeId>)
    requires Laws(g, dist, s)
    ensures PathCost(g, dist, s, p) >= 0.0
  {
    if |p| > 1 {
      PathCostNonNegative(g, dist, s, p[..|p| - 1]);
      StepNonNegative(g, dist, s, p[|p| - 2], p[|p| - 1]);
    }
  }

  /** Extending a path by one node adds exactly that edge's step cost. */
  lemma PathCostSnoc(g: Graph, dist: Distance, s: Strategy, p: seq<NodeId>, c: NodeId)
    requires |p| > 0
    ensures PathCost(g, dist, s, p + [c]) == PathCost(g, dist, s, p) + Step(g, dist, s, p[|p| - 1], c)
  {
    assert (p + [c])[..|p|] == p;
  }

  /** The cost of a path is the cost up to node i plus the cost from node i. */
  lemma {:induction false} CostSplit(g: Graph, dist: Distance, s: Strategy, p: seq<NodeId>, i: int)
    requires 0 <= i < |p|
    ensures PathCost(g, dist, s, p) == PathCost(g, dist, s, p[..i + 1]) + PathCost(g, dist, s, p[i..])
  {
    if i == |p| - 1 {
      assert p[..i + 1] == p;
      assert p[i..] == [p[i]];
    } else {
      var q := p[..|p| - 1];
      CostSplit(g, dist, s, q, i);
      assert q[..i + 1] == p[..i + 1];
      assert p[i..][..|p[i..]| - 1] == q[i..];
    }
  }

  /**
   * The estimate never drops by more than the cost paid: along any sequence
   * of nodes, the estimate at the first is at most the cost of the sequence
   * plus the estimate at the last.
   */
  lemma {:induction false} Consistent(g: Graph, dist: Distance, s: Strategy, goal: NodeId, q: seq<NodeId>)
    requires Laws(g, dist, s)
    requires |q| > 0
    ensures H(g, dist, s, goal, q[0]) <= PathCost(g, dist, s, q) + H(g, dist, s, goal, q[|q| - 1])
  {
    if |q| > 1 {
      var init := q[..|q| - 1];
      Consistent(g, dist, s, goal, init);
      var x, y := q[|q| - 2], q[|q| - 1];
      StepNonNegative(g, dist, s, x, y);
      if s == ShortestDistanceHeuristic {
        assert dist(Loc(g, x), Loc(g, goal)) <= dist(Loc(g, x), Loc(g, y)) + dist(Loc(g, y), Loc(g, goal));
      }
    }
  }

  // ---------------------------------------------------------------------
  // Paths

  lemma PathSlices(nb: Adjacency, p: seq<NodeId>, a: NodeId, b: NodeId, i: int)
    requires IsPathFromTo(nb, p, a, b)
    requires 0 <= i < |p|
    ensures IsPathFromTo(nb, p[..i + 1], a, p[i])
    ensures IsPathFromTo(nb, p[i..], p[i], b)
  {
    var pre, post := p[..i + 1], p[i..];
    forall k | 0 <= k < |pre| - 1 ensures HasEdge(nb, pre[k], pre[k + 1]) {
      assert pre[k] == p[k] && pre[k + 1] == p[k + 1];
    }
    forall k | 0 <= k < |post| - 1 ensures HasEdge(nb, post[k], post[k + 1]) {
      assert post[k] == p[i + k] && post[k + 1] == p[i + k + 1];
    }
  }

  /**
   * A path that starts inside a set of nodes and ends outside it has an
   * edge leaving the set.
   */
  lemma Crossing(p: seq<NodeId>, inside: set<NodeId>) returns (i: int)
    requires |p| > 0 && p[0] in inside && p[|p| - 1] !in inside
    ensures 1 <= i < |p| && p[i - 1] in inside && p[i] !in inside
  {
    i := 1;
    while p[i] in inside
      invariant 1 <= i < |p| && p[i - 1] in inside
      decreases |p| - i
    {
      i := i + 1;
    }
  }

  /** A path with no repeated node that returns to its start is a single node. */
  lemma LoopFreeRoundTrip(p: seq<NodeId>)
    requires |p| > 0 && NoDuplicates(p) && p[0] == p[|p| - 1]
    ensures p == [p[0]]
  {
  }

  // ---------------------------------------------------------------------
  // Answers

  /**
   * The answer is fixed up to ties: two correct answers agree on whether a
   * path exists and, when one does, on its cost.
   */
  lemma AnswersAgree(g: Graph, dist: Distance, s: Strategy, start: NodeId, goal: NodeId, r1: Option<seq<NodeId>>, r2: Option<seq<NodeId>>)
    requires IsAnswer(g, dist, s, start, goal, r1) && IsAnswer(g, dist, s, start, goal, r2)
    ensures r1.None? <==> r2.None?
    ensures r1.Some? && r2.Some? ==> PathCost(g, dist, s, r1.value) == PathCost(g, dist, s, r2.value)
  {
    if r1.Some? {
      assert IsPathFromTo(g.neighbors, r1.value, start, goal);
    }
    if r2.Some? {
      assert IsPathFromTo(g.neighbors, r2.value, start, goal);
    }
  }

  /** When start and goal coincide, the only correct answer is the one-node path. */
  lemma AnswerFromStartToItself(g: Graph, dist: Distance, s: Strategy, start: NodeId, r: Option<seq<NodeId>>)
    requires IsAnswer(g, dist, s, start, start, r)
    ensures r == Some([start])
  {
    assert IsPathFromTo(g.neighbors, [start], start, start);
    LoopFreeRoundTrip(r.value);
  }

  /** The plain and the heuristic search charge the same for every path. */
  lemma {:induction false} DistanceCostsAgree(g: Graph, dist: Distance, p: seq<NodeId>)
    ensures PathCost(g, dist, ShortestDistance, p) == PathCost(g, dist, ShortestDistanceHeuristic, p)
  {
    if |p| > 1 {
      DistanceCostsAgree(g, dist, p[..|p| - 1]);
    }
  }

  /**
   * Optimality parity: the plain search and the heuristic search find a
   * path in the same cases, and the paths they find have the same length.
   */
  lemma HeuristicParity(g: Graph, dist: Distance, start: NodeId, goal: NodeId, r1: Option<seq<NodeId>>, r2: Option<seq<NodeId>>)
    requires IsAnswer(g, dist, ShortestDistance, start, goal, r1)
    requires IsAnswer(g, dist, ShortestDistanceHeuristic, start, goal, r2)
    ensures r1.None? <==> r2.None?
    ensures r1.Some? && r2.Some? ==> PathCost(g, dist, ShortestDistance, r1.value) == PathCost(g, dist, ShortestDistance, r2.value)
  {
    if r1.Some? {
      assert IsPathFromTo(g.neighbors, r1.value, start, goal);
    }
    if r2.Some? {
      assert IsPathFromTo(g.neighbors, r2.value, start, goal);
    }
    if r1.Some? && r2.Some? {
      DistanceCostsAgree(g, dist, r1.value);
      DistanceCostsAgree(g, dist, r2.value);
    }
  }
}
