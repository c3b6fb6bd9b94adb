/**
 * The best-first search loop shared by `find_short_path_nodes`,
 * `find_short_path_nodes_heuristics` and the search inside `find_fast_path`:
 * pop the first entry with the smallest key, drop it if its node is
 * expanded, return its path if it is the goal, else expand it.
 */
module Search {
  import opened Common
  import opened RoadData
  import opened SearchSpec
  import opened SearchState

  /**
   * The linear scan for the entry to pop: the first index whose key is
   * smallest, since only a strictly smaller key replaces the running minimum.
   */
  method SelectMin(agenda: seq<Entry>) returns (minIndex: int)
    requires |agenda| > 0
    ensures 0 <= minIndex < |agenda|
    ensures forall j :: 0 <= j < |agenda| ==> agenda[minIndex].key <= agenda[j].key
    ensures forall j :: 0 <= j < minIndex ==> agenda[j].key > agenda[minIndex].key
  {
    var minKey := agenda[0].key;
    minIndex := 0;
    for i := 0 to |agenda|
      invariant 0 <= minIndex < |agenda| && minIndex <= i
      invariant minKey == agenda[minIndex].key
      invariant forall j :: 0 <= j < i ==> minKey <= agenda[j].key
      invariant forall j :: 0 <= j < minIndex ==> agenda[j].key > minKey
    {
      if agenda[i].key < minKey {
        minKey := agenda[i].key;
        minIndex := i;
      }
    }
  }

  /**
   * The entry for one unexpanded child: the child's record gives its
   * location, the parent's location and the child's give the step distance,
   * and the goal's record gives the estimate.
   */
  method ChildEntry(g: Graph, dist: Distance, s: Strategy, goal: NodeId, parent: Entry, children: NodeId) returns (e: Entry)
    requires parent.node in g.nodes && HasEdge(g.neighbors, parent.node, children) && children in g.nodes
    requires s == ShortestDistanceHeuristic ==> goal in g.nodes
    requires s == Fastest ==> g.neighbors[parent.node][children] > 0
    ensures e == Child(g, dist, s, goal, parent, children)
  {
    var location1 := Location(g.nodes[parent.node]);
    var location2 := Location(g.nodes[children]);
    var getDistance := dist(location1, location2);
    var cost := getDistance + parent.cost;
    if s == Fastest {
      var speed := g.neighbors[parent.node][children];
      var time := getDistance / (speed as real);
      cost := time + parent.cost;
    }
    var key := cost;
    if s == ShortestDistanceHeuristic {
      var heuristicDistance := dist(location2, Location(g.nodes[goal]));
      key := getDistance + parent.cost + heuristicDistance;
    }
    e := Entry(children, parent.path + [children], cost, key);
  }

  /**
   * Appends one entry for each neighbour of `parent.node` that is not
   * expanded, in whatever order the neighbour table yields them; the path is
   * the parent's path plus the child, the cost grows by the step cost, and
   * the heuristic search adds the child's distance to the goal to the key.
   */
  method PushChildren(g: Graph, dist: Distance, s: Strategy, goal: NodeId,
                      agenda: seq<Entry>, expanded: set<NodeId>, parent: Entry) returns (r: seq<Entry>)
    requires Closed(g) && parent.node in g.nodes && parent.node in g.neighbors
    requires s == ShortestDistanceHeuristic ==> goal in g.nodes
    requires s == Fastest ==> PositiveWeights(g.neighbors)
    ensures |r| >= |agenda| && r == agenda + r[|agenda|..]
    ensures ArePushed(g, dist, s, goal, parent, expanded, r[|agenda|..])
    ensures |r| - |agenda| == |g.neighbors[parent.node].Keys - expanded|
  {
    var currentNode := parent.node;
    r := agenda;
    ghost var pushed: seq<Entry> := [];
    var remaining := g.neighbors[currentNode].Keys;
    PushedNone(g, dist, s, goal, parent, expanded);
    while remaining != {}
      invariant remaining <= g.neighbors[currentNode].Keys
      invariant r == agenda + pushed
      invariant PushedFor(g, dist, s, goal, parent, expanded, g.neighbors[currentNode].Keys - remaining, pushed)
      decreases remaining
    {
      ghost var some := PickOne(remaining);  // a witness that the choice below exists
      var children :| children in remaining;
      ghost var done := g.neighbors[currentNode].Keys - remaining;
      remaining := remaining - {children};
      assert g.neighbors[currentNode].Keys - remaining == done + {children};
      if children in expanded {
        PushedSkip(g, dist, s, goal, parent, expanded, done, pushed, children);
        continue;
      }
      assert HasEdge(g.neighbors, currentNode, children);
      var entry := ChildEntry(g, dist, s, goal, parent, children);
      PushedAdd(g, dist, s, goal, parent, expanded, done, pushed, children);
      AppendAfter(agenda, pushed, entry);
      r := r + [entry];
      pushed := pushed + [entry];
    }
    PushedAll(g, dist, s, goal, parent, expanded, pushed);
    assert r[|agenda|..] == pushed;
  }

  /**
   * Some element of a non-empty set. `PushChildren` calls it only so that
   * the verifier has a witness for the `:|` choice that follows it; the
   * element it returns is not used.
   */
  lemma PickOne(s: set<NodeId>) returns (x: NodeId)
    requires s != {}
    ensures x in s
  {
    if forall y :: y !in s {
      assert false;
    }
    x :| x in s;
  }

  /**
   * The search. `expanded` holds the nodes already expanded; the ghost map
   * `gExp` records the cost at which each was expanded. The answer is a
   * cheapest loop-free path from start to goal, or None exactly when the
   * goal cannot be reached.
   */
  method BestFirstSearch(g: Graph, dist: Distance, s: Strategy, start: NodeId, goal: NodeId)
    returns (r: Option<seq<NodeId>>)
    requires Searchable(g, dist, s, start, goal)
    ensures IsAnswer(g, dist, s, start, goal, r)
  {
    var agenda := [Entry(start, [start], 0.0, 0.0)];
    var expanded: set<NodeId> := {};
    ghost var gExp: map<NodeId, real> := map[];
    InitialInv(g, dist, s, start, goal);
    while agenda != []
      invariant SearchInv(g, dist, s, start, goal, agenda, expanded, gExp)
      decreases |g.nodes.Keys - expanded|, |agenda|
    {
      var minIndex := SelectMin(agenda);
      var current := agenda[minIndex];
      ghost var before := agenda;
      agenda := agenda[..minIndex] + agenda[minIndex + 1..];
      assert agenda == Remove(before, minIndex);
      if current.node in expanded {
        SkipPreserves(g, dist, s, start, goal, before, expanded, gExp, minIndex);
      } else if current.node == goal {
        FoundIsAnswer(g, dist, s, start, goal, before, expanded, gExp, minIndex);
        return Some(current.path);
      } else {
        assert current in before;
        assert g.nodes.Keys - (expanded + {current.node}) == (g.nodes.Keys - expanded) - {current.node};
        ghost var expandedBefore := expanded;
        expanded := expanded + {current.node};
        ghost var rest := agenda;
        ghost var pushed: seq<Entry> := [];
        if current.node in g.neighbors {
          agenda := PushChildren(g, dist, s, goal, agenda, expanded, current);
          pushed := agenda[|rest|..];
        }
        assert agenda == rest + pushed;
        ExpandPreserves(g, dist, s, start, goal, before, expandedBefore, gExp, minIndex, pushed);
        gExp := gExp[current.node := current.cost];
      }
    }
    ExhaustedIsAnswer(g, dist, s, start, goal, expanded, gExp);
    return None;
  }

  /** Uniform-cost search on distance. */
  method FindShortPathNodes(g: Graph, dist: Distance, node1: NodeId, node2: NodeId) returns (r: Option<seq<NodeId>>)
    requires Searchable(g, dist, ShortestDistance, node1, node2)
    ensures IsAnswer(g, dist, ShortestDistance, node1, node2, r)
  {
    r := BestFirstSearch(g, dist, ShortestDistance, node1, node2);
  }

  /** The same search ordered by distance so far plus distance to the goal. */
  method FindShortPathNodesHeuristics(g: Graph, dist: Distance, node1: NodeId, node2: NodeId) returns (r: Option<seq<NodeId>>)
    requires Searchable(g, dist, ShortestDistanceHeuristic, node1, node2)
    ensures IsAnswer(g, dist, ShortestDistanceHeuristic, node1, node2, r)
  {
    r := BestFirstSearch(g, dist, ShortestDistanceHeuristic, node1, node2);
  }
}
