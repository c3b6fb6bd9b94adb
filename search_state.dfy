/**
 * The agenda and expanded set of the best-first search, the invariant they
 * keep from one iteration to the next, and why each iteration preserves it.
 */
module SearchState {
  import opened Common
  import opened RoadData
  import opened SearchSpec

  /**
   * One agenda entry: the node reached, the path that reached it, the cost
   * of that path and the key the agenda is ordered by.
   */
  datatype Entry = Entry(node: NodeId, path: seq<NodeId>, cost: real, key: real)

  /** The entry the agenda starts with. */
  function Initial(start: NodeId): Entry
  {
    Entry(start, [start], 0.0, 0.0)
  }

  /** The entry pushed for child `c` when `parent` is expanded. */
  function Child(g: Graph, dist: Distance, s: Strategy, goal: NodeId, parent: Entry, c: NodeId): Entry
  {
    var cost := parent.cost + Step(g, dist, s, parent.node, c);
    Entry(c, parent.path + [c], cost, if s == ShortestDistanceHeuristic then cost + dist(Loc(g, c), Loc(g, goal)) else cost)
  }

  /** The agenda after popping index m. */
  function Remove(agenda: seq<Entry>, m: int): (r: seq<Entry>)
    requires 0 <= m < |agenda|
    ensures |r| == |agenda| - 1
    ensures forall j :: 0 <= j < |agenda| && j != m ==> agenda[j] in r
    ensures forall e :: e in r ==> e in agenda
  {
    agenda[..m] + agenda[m + 1..]
  }

  lemma AppendAfter(agenda: seq<Entry>, pushed: seq<Entry>, e: Entry)
    ensures agenda + pushed + [e] == agenda + (pushed + [e])
  {
  }

  /** Index m holds a smallest key of the agenda. */
  ghost predicate IsMinKey(agenda: seq<Entry>, m: int)
  {
    0 <= m < |agenda| && forall j :: 0 <= j < |agenda| ==> agenda[m].key <= agenda[j].key
  }

  /**
   * An entry describes a path from start to its node with no repeated node,
   * whose nodes before the last are all expanded, and whose cost is the
   * path's cost.
   */
  ghost predicate EntryOk(g: Graph, dist: Distance, s: Strategy, start: NodeId, expanded: set<NodeId>, e: Entry)
  {
    && IsPathFromTo(g.neighbors, e.path, start, e.node)
    && NoDuplicates(e.path)
    && (forall i :: 0 <= i < |e.path| - 1 ==> e.path[i] in expanded)
    && e.cost == PathCost(g, dist, s, e.path)
    && e.node in g.nodes
  }

  ghost predicate Keyed(g: Graph, dist: Distance, s: Strategy, goal: NodeId, e: Entry)
  {
    e.key == e.cost + H(g, dist, s, goal, e.node)
  }

  /**
   * `gExp` records the cost at which each node was expanded; no path to an
   * expanded node is cheaper.
   */
  ghost predicate Settled(g: Graph, dist: Distance, s: Strategy, start: NodeId, expanded: set<NodeId>, gExp: map<NodeId, real>)
  {
    && gExp.Keys == expanded
    && forall x, p :: x in expanded && IsPathFromTo(g.neighbors, p, start, x) ==> gExp[x] <= PathCost(g, dist, s, p)
  }

  /**
   * Every edge from an expanded node to one that is not expanded has an
   * agenda entry for its target, at most as costly as going through that
   * edge.
   */
  ghost predicate Frontier(g: Graph, dist: Distance, s: Strategy, agenda: seq<Entry>, expanded: set<NodeId>, gExp: map<NodeId, real>)
  {
    forall x, y :: x in expanded && HasEdge(g.neighbors, x, y) && y !in expanded ==>
      x in gExp && exists e :: e in agenda && e.node == y && e.cost <= gExp[x] + Step(g, dist, s, x, y)
  }

  /**
   * Every agenda entry is well-formed. Before the first expansion the agenda
   * is the initial entry alone; afterwards the start node is expanded and
   * every entry's key is its cost plus the estimate at its node.
   */
  ghost predicate AgendaOk(g: Graph, dist: Distance, s: Strategy, start: NodeId, goal: NodeId,
                           agenda: seq<Entry>, expanded: set<NodeId>)
  {
    && (forall e :: e in agenda ==> EntryOk(g, dist, s, start, expanded, e))
    && ((expanded == {} && agenda == [Initial(start)]) ||
        (start in expanded && forall e :: e in agenda ==> Keyed(g, dist, s, goal, e)))
  }

  /**
   * The search invariant, as one predicate: each iteration re-establishes it
   * through one of the lemmas below rather than part by part.  It is a name
   * for `SearchInvParts` and nothing more; the extra layer keeps the verifier
   * from unfolding the five parts inside the search loop, where only the
   * lemmas need to see them.
   */
  ghost predicate SearchInv(g: Graph, dist: Distance, s: Strategy, start: NodeId, goal: NodeId,
                            agenda: seq<Entry>, expanded: set<NodeId>, gExp: map<NodeId, real>)
  {
    SearchInvParts(g, dist, s, start, goal, agenda, expanded, gExp)
  }

  /** The goal is never expanded, and the three parts above hold. */
  ghost predicate SearchInvParts(g: Graph, dist: Distance, s: Strategy, start: NodeId, goal: NodeId,
                                 agenda: seq<Entry>, expanded: set<NodeId>, gExp: map<NodeId, real>)
  {
    && expanded <= g.nodes.Keys
    && goal !in expanded
    && AgendaOk(g, dist, s, start, goal, agenda, expanded)
    && Settled(g, dist, s, start, expanded, gExp)
    && Frontier(g, dist, s, agenda, expanded, gExp)
  }

  /** The children pushed when `parent` is expanded: one per unexpanded neighbour. */
  ghost predicate ArePushed(g: Graph, dist: Distance, s: Strategy, goal: NodeId, parent: Entry, expanded: set<NodeId>, pushed: seq<Entry>)
  {
    && (forall e :: e in pushed ==>
          exists c :: HasEdge(g.neighbors, parent.node, c) && c !in expanded && e == Child(g, dist, s, goal, parent, c))
    && (forall c :: HasEdge(g.neighbors, parent.node, c) && c !in expanded ==> Child(g, dist, s, goal, parent, c) in pushed)
  }

  /**
   * After the neighbours in `done` have been visited, `extra` holds one
   * child entry for each of them that is not expanded, and nothing else.
   */
  ghost predicate PushedFor(g: Graph, dist: Distance, s: Strategy, goal: NodeId, parent: Entry,
                            expanded: set<NodeId>, done: set<NodeId>, extra: seq<Entry>)
  {
    && (forall e :: e in extra ==> exists c :: c in done && c !in expanded && e == Child(g, dist, s, goal, parent, c))
    && (forall c :: c in done && c !in expanded ==> Child(g, dist, s, goal, parent, c) in extra)
    && |extra| == |done - expanded|
  }

  lemma PushedNone(g: Graph, dist: Distance, s: Strategy, goal: NodeId, parent: Entry, expanded: set<NodeId>)
    ensures PushedFor(g, dist, s, goal, parent, expanded, {}, [])
  {
    assert {} - expanded == {};
  }

  /** Visiting an expanded neighbour pushes nothing. */
  lemma PushedSkip(g: Graph, dist: Distance, s: Strategy, goal: NodeId, parent: Entry,
                   expanded: set<NodeId>, done: set<NodeId>, extra: seq<Entry>, c: NodeId)
    requires PushedFor(g, dist, s, goal, parent, expanded, done, extra)
    requires c in expanded
    ensures PushedFor(g, dist, s, goal, parent, expanded, done + {c}, extra)
  {
    assert (done + {c}) - expanded == done - expanded;
  }

  /** Visiting a new neighbour that is not expanded pushes its child entry. */
  lemma PushedAdd(g: Graph, dist: Distance, s: Strategy, goal: NodeId, parent: Entry,
                  expanded: set<NodeId>, done: set<NodeId>, extra: seq<Entry>, c: NodeId)
    requires PushedFor(g, dist, s, goal, parent, expanded, done, extra)
    requires c !in expanded && c !in done
    ensures PushedFor(g, dist, s, goal, parent, expanded, done + {c}, extra + [Child(g, dist, s, goal, parent, c)])
  {
    assert (done + {c}) - expanded == (done - expanded) + {c};
  }

  /** Once every neighbour is visited, the pushed entries are the children. */
  lemma PushedAll(g: Graph, dist: Distance, s: Strategy, goal: NodeId, parent: Entry,
                  expanded: set<NodeId>, extra: seq<Entry>)
    requires parent.node in g.neighbors
    requires PushedFor(g, dist, s, goal, parent, expanded, g.neighbors[parent.node].Keys, extra)
    ensures ArePushed(g, dist, s, goal, parent, expanded, extra)
  {
  }

  // ---------------------------------------------------------------------
  // Establishing the invariant

  lemma InitialInv(g: Graph, dist: Distance, s: Strategy, start: NodeId, goal: NodeId)
    requires Searchable(g, dist, s, start, goal)
    ensures SearchInv(g, dist, s, start, goal, [Initial(start)], {}, map[])
  {
    assert IsPathFromTo(g.neighbors, [start], start, start);
  }

  // ---------------------------------------------------------------------
  // The popped entry is optimal

  /**
   * An entry with the smallest key whose node is not yet expanded reached
   * that node by a cheapest path: any other path must leave the expanded
   * set through an edge whose target already has an entry whose key is no
   * smaller.
   */
  lemma PopIsOptimal(g: Graph, dist: Distance, s: Strategy, start: NodeId, goal: NodeId,
                     agenda: seq<Entry>, expanded: set<NodeId>, gExp: map<NodeId, real>, m: int)
    requires Searchable(g, dist, s, start, goal)
    requires SearchInv(g, dist, s, start, goal, agenda, expanded, gExp)
    requires IsMinKey(agenda, m) && agenda[m].node !in expanded
    ensures forall p :: IsPathFromTo(g.neighbors, p, start, agenda[m].node) ==> agenda[m].cost <= PathCost(g, dist, s, p)
  {
    var u := agenda[m].node;
    forall p | IsPathFromTo(g.neighbors, p, start, u)
      ensures agenda[m].cost <= PathCost(g, dist, s, p)
    {
      if expanded == {} {
        assert agenda[m] == Initial(start);
        PathCostNonNegative(g, dist, s, p);
      } else {
        var i := Crossing(p, expanded);
        var x, y := p[i - 1], p[i];
        assert HasEdge(g.neighbors, x, y);
        var e' :| e' in agenda && e'.node == y && e'.cost <= gExp[x] + Step(g, dist, s, x, y);
        PathSlices(g.neighbors, p, start, u, i - 1);
        assert p[..i - 1 + 1] == p[..i];
        ThroughFrontier(g, dist, s, goal, p, i, e', agenda[m], gExp[x]);
      }
    }
  }

  /**
   * The arithmetic step of the argument above: a path that leaves the
   * expanded set at node i costs at least what an entry for node i promises,
   * so an entry whose key is no larger costs no more than the path.
   */
  lemma ThroughFrontier(g: Graph, dist: Distance, s: Strategy, goal: NodeId, p: seq<NodeId>, i: int,
                        crossing: Entry, popped: Entry, settledCost: real)
    requires Laws(g, dist, s)
    requires 1 <= i < |p|
    requires crossing.node == p[i] && popped.node == p[|p| - 1]
    requires settledCost <= PathCost(g, dist, s, p[..i])
    requires crossing.cost <= settledCost + Step(g, dist, s, p[i - 1], p[i])
    requires Keyed(g, dist, s, goal, crossing) && Keyed(g, dist, s, goal, popped)
    requires popped.key <= crossing.key
    ensures popped.cost <= PathCost(g, dist, s, p)
  {
    assert p[..i + 1] == p[..i] + [p[i]];
    PathCostSnoc(g, dist, s, p[..i], p[i]);
    CostSplit(g, dist, s, p, i);
    Consistent(g, dist, s, goal, p[i..]);
  }

  // ---------------------------------------------------------------------
  // Each iteration keeps the invariant

  /** Popping an entry whose node is already expanded keeps the invariant. */
  lemma SkipPreserves(g: Graph, dist: Distance, s: Strategy, start: NodeId, goal: NodeId,
                      agenda: seq<Entry>, expanded: set<NodeId>, gExp: map<NodeId, real>, m: int)
    requires SearchInv(g, dist, s, start, goal, agenda, expanded, gExp)
    requires 0 <= m < |agenda| && agenda[m].node in expanded
    ensures SearchInv(g, dist, s, start, goal, Remove(agenda, m), expanded, gExp)
  {
    var rest := Remove(agenda, m);
    forall x, y | x in expanded && HasEdge(g.neighbors, x, y) && y !in expanded
      ensures x in gExp && exists e :: e in rest && e.node == y && e.cost <= gExp[x] + Step(g, dist, s, x, y)
    {
      var e :| e in agenda && e.node == y && e.cost <= gExp[x] + Step(g, dist, s, x, y);
      var j :| 0 <= j < |agenda| && agenda[j] == e;
      assert e in rest;
    }
  }

  /** A child of an expanded entry is itself a well-formed entry. */
  lemma ChildOk(g: Graph, dist: Distance, s: Strategy, start: NodeId, goal: NodeId,
                expanded: set<NodeId>, parent: Entry, c: NodeId)
    requires Closed(g)
    requires EntryOk(g, dist, s, start, expanded, parent) && parent.node in expanded
    requires HasEdge(g.neighbors, parent.node, c) && c !in expanded
    ensures EntryOk(g, dist, s, start, expanded, Child(g, dist, s, goal, parent, c))
    ensures Keyed(g, dist, s, goal, Child(g, dist, s, goal, parent, c))
  {
    var p := parent.path;
    var q := p + [c];
    forall i | 0 <= i < |q| - 1 ensures HasEdge(g.neighbors, q[i], q[i + 1]) {
      if i < |p| - 1 {
        assert q[i] == p[i] && q[i + 1] == p[i + 1];
      }
    }
    forall i | 0 <= i < |q| - 1 ensures q[i] in expanded {
      if i < |p| - 1 {
        assert q[i] == p[i];
      }
    }
    forall i, j | 0 <= i < j < |q| ensures q[i] != q[j] {
      if j < |p| {
        assert q[i] == p[i] && q[j] == p[j];
      } else {
        assert q[i] in expanded;
      }
    }
    PathCostSnoc(g, dist, s, p, c);
  }

  /** The entries that stay on the agenda are still well-formed once `u` is expanded. */
  lemma RestOk(g: Graph, dist: Distance, s: Strategy, start: NodeId, goal: NodeId,
               agenda: seq<Entry>, expanded: set<NodeId>, gExp: map<NodeId, real>, m: int)
    requires SearchInv(g, dist, s, start, goal, agenda, expanded, gExp)
    requires 0 <= m < |agenda| && agenda[m].node !in expanded
    ensures forall e :: e in Remove(agenda, m) ==> EntryOk(g, dist, s, start, expanded + {agenda[m].node}, e)
    ensures start in expanded + {agenda[m].node}
    ensures forall e :: e in Remove(agenda, m) ==> Keyed(g, dist, s, goal, e)
  {
    if expanded == {} {
      assert Remove(agenda, m) == [];
    }
  }

  /**
   * Expanding the popped node, recording its cost and pushing its children
   * keeps the invariant, provided the popped entry has a smallest key.
   */
  lemma ExpandPreserves(g: Graph, dist: Distance, s: Strategy, start: NodeId, goal: NodeId,
                        agenda: seq<Entry>, expanded: set<NodeId>, gExp: map<NodeId, real>, m: int, pushed: seq<Entry>)
    requires Searchable(g, dist, s, start, goal)
    requires SearchInv(g, dist, s, start, goal, agenda, expanded, gExp)
    requires IsMinKey(agenda, m) && agenda[m].node !in expanded && agenda[m].node != goal
    requires ArePushed(g, dist, s, goal, agenda[m], expanded + {agenda[m].node}, pushed)
    ensures SearchInv(g, dist, s, start, goal, Remove(agenda, m) + pushed,
                      expanded + {agenda[m].node}, gExp[agenda[m].node := agenda[m].cost])
  {
    var parent := agenda[m];
    var u := parent.node;
    var rest := Remove(agenda, m);
    var next := rest + pushed;
    var expanded' := expanded + {u};
    var gExp' := gExp[u := parent.cost];
    PopIsOptimal(g, dist, s, start, goal, agenda, expanded, gExp, m);
    RestOk(g, dist, s, start, goal, agenda, expanded, gExp, m);
    assert parent in agenda;
    assert EntryOk(g, dist, s, start, expanded', parent);
    forall e | e in next
      ensures EntryOk(g, dist, s, start, expanded', e) && Keyed(g, dist, s, goal, e)
    {
      if e !in rest {
        var c :| HasEdge(g.neighbors, u, c) && c !in expanded' && e == Child(g, dist, s, goal, parent, c);
        ChildOk(g, dist, s, start, goal, expanded', parent, c);
      }
    }
    assert Settled(g, dist, s, start, expanded', gExp');
    forall x, y | x in expanded' && HasEdge(g.neighbors, x, y) && y !in expanded'
      ensures x in gExp' && exists e :: e in next && e.node == y && e.cost <= gExp'[x] + Step(g, dist, s, x, y)
    {
      if x == u {
        var e := Child(g, dist, s, goal, parent, y);
        assert e in pushed;
        assert e in next;
      } else {
        var e :| e in agenda && e.node == y && e.cost <= gExp[x] + Step(g, dist, s, x, y);
        var j :| 0 <= j < |agenda| && agenda[j] == e;
        assert e in rest;
        assert e in next;
      }
    }
  }

  // ---------------------------------------------------------------------
  // How the loop ends

  /** When the goal is popped unexpanded, its entry's path is a correct answer. */
  lemma FoundIsAnswer(g: Graph, dist: Distance, s: Strategy, start: NodeId, goal: NodeId,
                      agenda: seq<Entry>, expanded: set<NodeId>, gExp: map<NodeId, real>, m: int)
    requires Searchable(g, dist, s, start, goal)
    requires SearchInv(g, dist, s, start, goal, agenda, expanded, gExp)
    requires IsMinKey(agenda, m) && agenda[m].node == goal
    ensures IsAnswer(g, dist, s, start, goal, Some(agenda[m].path))
  {
    PopIsOptimal(g, dist, s, start, goal, agenda, expanded, gExp, m);
    assert EntryOk(g, dist, s, start, expanded, agenda[m]);
  }

  /**
   * When the agenda runs empty the expanded set is closed under edges, holds
   * the start and misses the goal, so no path reaches the goal.
   */
  lemma ExhaustedIsAnswer(g: Graph, dist: Distance, s: Strategy, start: NodeId, goal: NodeId,
                          expanded: set<NodeId>, gExp: map<NodeId, real>)
    requires SearchInv(g, dist, s, start, goal, [], expanded, gExp)
    ensures IsAnswer(g, dist, s, start, goal, None)
  {
    if p :| IsPathFromTo(g.neighbors, p, start, goal) {
      var i := Crossing(p, expanded);
      assert false;
    }
  }
}
