/**
 * What the road-graph builder guarantees: which ways count, which nodes
 * are kept, which directed edges exist and with what speed, when it
 * raises, and that the result does not depend on the order of the ways.
 */
module BuilderProps {
  import opened Common
  import opened RoadData
  import opened HighwayTables
  import opened Builder

  /**
   * Some consecutive pair of `ns` touches u -> v: as written, or reversed
   * when the way is not one-way.
   */
  ghost predicate PairOnWay(ns: seq<NodeId>, oneway: bool, u: NodeId, v: NodeId)
  {
    exists i :: 0 <= i < |ns| - 1 && ((ns[i] == u && ns[i + 1] == v) || (!oneway && ns[i] == v && ns[i + 1] == u))
  }

  /** Way `w` offers speed `s` for the directed edge u -> v. */
  ghost predicate WayContributes(cfg: Config, w: Way, u: NodeId, v: NodeId, s: int)
  {
    Accepted(cfg, w) && WaySpeed(cfg, w) == Some(s) && PairOnWay(w.nodes, IsOneway(w), u, v)
  }

  ghost predicate Contributes(cfg: Config, ways: seq<Way>, u: NodeId, v: NodeId, s: int)
  {
    exists k :: 0 <= k < |ways| && WayContributes(cfg, ways[k], u, v, s)
  }

  /** `x` is a node of some accepted way. */
  ghost predicate OnAcceptedWay(cfg: Config, ways: seq<Way>, x: NodeId)
  {
    exists k :: 0 <= k < |ways| && Accepted(cfg, ways[k]) && x in ways[k].nodes
  }

  /** No later record carries the id of record j. */
  ghost predicate IsLastRecord(records: seq<Node>, j: int)
    requires 0 <= j < |records|
  {
    forall j' :: j < j' < |records| ==> records[j'].id != records[j].id
  }

  // ---------------------------------------------------------------------
  // One way

  lemma {:induction false} NodesOfMembers(ns: seq<NodeId>, x: NodeId)
    ensures x in NodesOf(ns) <==> x in ns
  {
    if |ns| > 0 {
      NodesOfMembers(ns[..|ns| - 1], x);
      assert ns == ns[..|ns| - 1] + [ns[|ns| - 1]];
    }
  }

  lemma PairOnWaySnoc(ns: seq<NodeId>, oneway: bool, u: NodeId, v: NodeId)
    requires |ns| >= 2
    ensures PairOnWay(ns, oneway, u, v) <==>
      PairOnWay(ns[..|ns| - 1], oneway, u, v) ||
      (ns[|ns| - 2] == u && ns[|ns| - 1] == v) || (!oneway && ns[|ns| - 2] == v && ns[|ns| - 1] == u)
  {
    var init := ns[..|ns| - 1];
    if PairOnWay(ns, oneway, u, v) {
      var i :| 0 <= i < |ns| - 1 && ((ns[i] == u && ns[i + 1] == v) || (!oneway && ns[i] == v && ns[i + 1] == u));
      if i < |ns| - 2 {
        assert init[i] == ns[i] && init[i + 1] == ns[i + 1];
      }
    }
    if PairOnWay(init, oneway, u, v) {
      var i :| 0 <= i < |init| - 1 && ((init[i] == u && init[i + 1] == v) || (!oneway && init[i] == v && init[i + 1] == u));
      assert ns[i] == init[i] && ns[i + 1] == init[i + 1];
    }
  }

  /**
   * Adding the pairs of one way raises exactly the edges those pairs touch
   * to the way's speed and leaves every other edge as it was.
   */
  lemma {:induction false} AddWayEdgesWeight(nb: Adjacency, ns: seq<NodeId>, s: int, oneway: bool, u: NodeId, v: NodeId)
    ensures Weight(AddWayEdges(nb, ns, s, oneway), u, v) ==
      if PairOnWay(ns, oneway, u, v) then MaxWith(Weight(nb, u, v), s) else Weight(nb, u, v)
  {
    if |ns| >= 2 {
      AddWayEdgesWeight(nb, ns[..|ns| - 1], s, oneway, u, v);
      PairOnWaySnoc(ns, oneway, u, v);
    }
  }

  lemma {:induction false} AddWayEdgesNonEmpty(nb: Adjacency, ns: seq<NodeId>, s: int, oneway: bool)
    requires NonEmptyInner(nb)
    ensures NonEmptyInner(AddWayEdges(nb, ns, s, oneway))
  {
    if |ns| >= 2 {
      var nb1 := AddWayEdges(nb, ns[..|ns| - 1], s, oneway);
      AddWayEdgesNonEmpty(nb, ns[..|ns| - 1], s, oneway);
      MergeNonEmpty(nb1, ns[|ns| - 2], ns[|ns| - 1], s);
      MergeNonEmpty(Merge(nb1, ns[|ns| - 2], ns[|ns| - 1], s), ns[|ns| - 1], ns[|ns| - 2], s);
    }
  }

  lemma MergeNonEmpty(nb: Adjacency, u: NodeId, v: NodeId, s: int)
    requires NonEmptyInner(nb)
    ensures NonEmptyInner(Merge(nb, u, v, s))
  {
    var r := Merge(nb, u, v, s);
    forall a | a in r ensures exists b :: b in r[a] {
      if a == u {
        assert Weight(r, u, v).Some?;
      } else {
        var b :| b in nb[a];
        assert Weight(nb, a, b).Some?;
        assert Weight(r, a, b).Some?;
      }
    }
  }

  // ---------------------------------------------------------------------
  // The way loop

  lemma ContributesSnoc(cfg: Config, ways: seq<Way>, u: NodeId, v: NodeId, s: int)
    requires |ways| > 0
    ensures Contributes(cfg, ways, u, v, s) <==>
      Contributes(cfg, ways[..|ways| - 1], u, v, s) || WayContributes(cfg, ways[|ways| - 1], u, v, s)
  {
    var init := ways[..|ways| - 1];
    if Contributes(cfg, init, u, v, s) {
      var k :| 0 <= k < |init| && WayContributes(cfg, init[k], u, v, s);
      assert ways[k] == init[k];
    }
    if Contributes(cfg, ways, u, v, s) {
      var k :| 0 <= k < |ways| && WayContributes(cfg, ways[k], u, v, s);
      if k < |ways| - 1 {
        assert init[k] == ways[k];
      }
    }
  }

  lemma OnAcceptedWaySnoc(cfg: Config, ways: seq<Way>, x: NodeId)
    requires |ways| > 0
    ensures OnAcceptedWay(cfg, ways, x) <==>
      OnAcceptedWay(cfg, ways[..|ways| - 1], x) || (Accepted(cfg, ways[|ways| - 1]) && x in ways[|ways| - 1].nodes)
  {
    var init := ways[..|ways| - 1];
    if OnAcceptedWay(cfg, init, x) {
      var k :| 0 <= k < |init| && Accepted(cfg, init[k]) && x in init[k].nodes;
      assert ways[k] == init[k];
    }
    if OnAcceptedWay(cfg, ways, x) {
      var k :| 0 <= k < |ways| && Accepted(cfg, ways[k]) && x in ways[k].nodes;
      if k < |ways| - 1 {
        assert init[k] == ways[k];
      }
    }
  }

  /**
   * The way loop succeeds exactly when no way raises, and when it raises,
   * the exception is that of the first way that does.
   */
  lemma {:induction false} ProcessWaysOutcome(cfg: Config, ways: seq<Way>)
    ensures ProcessWays(cfg, ways).Success? <==> forall k :: 0 <= k < |ways| ==> WayFailure(cfg, ways[k]).None?
    ensures ProcessWays(cfg, ways).Failure? ==>
      exists k :: 0 <= k < |ways| && WayFailure(cfg, ways[k]) == Some(ProcessWays(cfg, ways).error) &&
        forall j :: 0 <= j < k ==> WayFailure(cfg, ways[j]).None?
  {
    if |ways| > 0 {
      var init := ways[..|ways| - 1];
      ProcessWaysOutcome(cfg, init);
      assert forall k :: 0 <= k < |init| ==> init[k] == ways[k];
      if ProcessWays(cfg, init).Failure? {
        var k :| 0 <= k < |init| && WayFailure(cfg, init[k]) == Some(ProcessWays(cfg, init).error) &&
          forall j :: 0 <= j < k ==> WayFailure(cfg, init[j]).None?;
        assert WayFailure(cfg, ways[k]) == Some(ProcessWays(cfg, ways).error);
      } else if ProcessWays(cfg, ways).Failure? {
        assert WayFailure(cfg, ways[|ways| - 1]) == Some(ProcessWays(cfg, ways).error);
      }
    }
  }

  /** The way set holds exactly the nodes of the accepted ways. */
  lemma {:induction false} ProcessWaysNodes(cfg: Config, ways: seq<Way>, x: NodeId)
    requires ProcessWays(cfg, ways).Success?
    ensures x in ProcessWays(cfg, ways).value.waySet <==> OnAcceptedWay(cfg, ways, x)
  {
    if |ways| > 0 {
      var init := ways[..|ways| - 1];
      var w := ways[|ways| - 1];
      ProcessWaysNodes(cfg, init, x);
      OnAcceptedWaySnoc(cfg, ways, x);
      NodesOfMembers(w.nodes, x);
    }
  }

  /**
   * The weight of u -> v after the way loop: absent exactly when no
   * accepted way contributes to it, and otherwise the largest speed
   * contributed.
   */
  lemma {:induction false} ProcessWaysWeight(cfg: Config, ways: seq<Way>, u: NodeId, v: NodeId)
    requires ProcessWays(cfg, ways).Success?
    ensures var w := Weight(ProcessWays(cfg, ways).value.neighbors, u, v);
      && (w.None? <==> forall s :: !Contributes(cfg, ways, u, v, s))
      && (w.Some? ==> Contributes(cfg, ways, u, v, w.value))
      && (w.Some? ==> forall s :: Contributes(cfg, ways, u, v, s) ==> s <= w.value)
  {
    if |ways| > 0 {
      var init := ways[..|ways| - 1];
      var last := ways[|ways| - 1];
      var st := ProcessWays(cfg, init).value;
      ProcessWaysWeight(cfg, init, u, v);
      forall s ensures Contributes(cfg, ways, u, v, s) <==>
        Contributes(cfg, init, u, v, s) || WayContributes(cfg, last, u, v, s)
      {
        ContributesSnoc(cfg, ways, u, v, s);
      }
      if Accepted(cfg, last) {
        AddWayEdgesWeight(st.neighbors, last.nodes, EdgeSpeed(cfg, last), IsOneway(last), u, v);
        forall s | WayContributes(cfg, last, u, v, s) ensures s == EdgeSpeed(cfg, last) { }
        if PairOnWay(last.nodes, IsOneway(last), u, v) {
          assert WayContributes(cfg, last, u, v, EdgeSpeed(cfg, last));
        }
      }
    }
  }

  lemma {:induction false} ProcessWaysNonEmpty(cfg: Config, ways: seq<Way>)
    requires ProcessWays(cfg, ways).Success?
    ensures NonEmptyInner(ProcessWays(cfg, ways).value.neighbors)
  {
    if |ways| > 0 {
      var init := ways[..|ways| - 1];
      var last := ways[|ways| - 1];
      ProcessWaysNonEmpty(cfg, init);
      if Accepted(cfg, last) {
        AddWayEdgesNonEmpty(ProcessWays(cfg, init).value.neighbors, last.nodes, EdgeSpeed(cfg, last), IsOneway(last));
      }
    }
  }

  // ---------------------------------------------------------------------
  // The node loop

  /**
   * The node loop keeps exactly the records whose id is a way node, each
   * under its own id, and lists each kept id once in `order`.
   */
  lemma {:induction false} FilterNodesKeys(records: seq<Node>, ws: set<NodeId>)
    ensures var t := FilterNodes(records, ws);
      && (forall x :: x in t.nodes <==> x in ws && exists j :: 0 <= j < |records| && records[j].id == x)
      && (forall x :: x in t.nodes ==> t.nodes[x].id == x)
      && (forall x :: x in t.order <==> x in t.nodes)
      && NoDuplicates(t.order)
  {
    if |records| > 0 {
      var init := records[..|records| - 1];
      FilterNodesKeys(init, ws);
      assert forall j :: 0 <= j < |init| ==> init[j] == records[j];
    }
  }

  /** A kept record is the last record carrying its id. */
  lemma {:induction false} FilterNodesLastWins(records: seq<Node>, ws: set<NodeId>, x: NodeId)
    requires x in FilterNodes(records, ws).nodes
    ensures exists j :: 0 <= j < |records| && records[j] == FilterNodes(records, ws).nodes[x] && IsLastRecord(records, j)
  {
    var init := records[..|records| - 1];
    var r := records[|records| - 1];
    FilterNodesKeys(init, ws);
    if r.id == x {
      assert records[|records| - 1] == FilterNodes(records, ws).nodes[x];
    } else {
      FilterNodesLastWins(init, ws, x);
      var j :| 0 <= j < |init| && init[j] == FilterNodes(init, ws).nodes[x] && IsLastRecord(init, j);
      assert records[j] == init[j];
    }
  }

  // ---------------------------------------------------------------------
  // The builder as a whole

  /**
   * The builder raises exactly when some way raises, and then with the
   * exception of the first such way.
   */
  lemma BuildOutcome(cfg: Config, records: seq<Node>, ways: seq<Way>)
    ensures Build(cfg, records, ways).Success? <==> forall k :: 0 <= k < |ways| ==> WayFailure(cfg, ways[k]).None?
    ensures Build(cfg, records, ways).Failure? ==>
      exists k :: 0 <= k < |ways| && WayFailure(cfg, ways[k]) == Some(Build(cfg, records, ways).error) &&
        forall j :: 0 <= j < k ==> WayFailure(cfg, ways[j]).None?
  {
    ProcessWaysOutcome(cfg, ways);
  }

  /**
   * With the source's own tables the default-speed lookup never fails: the
   * only exception left is an accepted way with no nodes.
   */
  lemma StandardOnlyFailsOnEmptyWay(records: seq<Node>, ways: seq<Way>)
    ensures Build(Standard, records, ways).Failure? ==> Build(Standard, records, ways).error.EmptyWay?
    ensures Build(Standard, records, ways).Success? <==>
      forall k :: 0 <= k < |ways| ==> !(Accepted(Standard, ways[k]) && |ways[k].nodes| == 0)
  {
    StandardIsConsistent();
    BuildOutcome(Standard, records, ways);
  }

  /** The way set holds exactly the nodes of accepted ways, last nodes included. */
  lemma BuildWaySet(cfg: Config, records: seq<Node>, ways: seq<Way>, x: NodeId)
    requires Build(cfg, records, ways).Success?
    ensures x in Build(cfg, records, ways).value.waySet <==> OnAcceptedWay(cfg, ways, x)
  {
    ProcessWaysNodes(cfg, ways, x);
  }

  /**
   * The node set holds exactly the records of way nodes, each under its
   * own id and as given by the last record with that id; `order` lists
   * its keys once each.
   */
  lemma BuildNodeSet(cfg: Config, records: seq<Node>, ways: seq<Way>)
    requires Build(cfg, records, ways).Success?
    ensures var g := Build(cfg, records, ways).value;
      && (forall x :: x in g.nodes <==> OnAcceptedWay(cfg, ways, x) && exists j :: 0 <= j < |records| && records[j].id == x)
      && (forall x :: x in g.nodes ==> g.nodes[x].id == x)
      && (forall x :: x in g.nodes ==>
            exists j :: 0 <= j < |records| && records[j] == g.nodes[x] && IsLastRecord(records, j))
      && (forall x :: x in g.order <==> x in g.nodes)
      && NoDuplicates(g.order)
      && g.nodes.Keys <= g.waySet
  {
    var st := ProcessWays(cfg, ways).value;
    FilterNodesKeys(records, st.waySet);
    forall x ensures x in st.waySet <==> OnAcceptedWay(cfg, ways, x) {
      ProcessWaysNodes(cfg, ways, x);
    }
    forall x | x in FilterNodes(records, st.waySet).nodes
      ensures exists j :: 0 <= j < |records| && records[j] == FilterNodes(records, st.waySet).nodes[x] && IsLastRecord(records, j)
    {
      FilterNodesLastWins(records, st.waySet, x);
    }
  }

  /**
   * The edge a -> b exists exactly when some accepted way contributes it,
   * and its speed is the largest speed contributed: a one-way pair (u, v)
   * contributes only u -> v, any other pair both u -> v and v -> u, and no
   * other edge is ever created.
   */
  lemma BuildEdge(cfg: Config, records: seq<Node>, ways: seq<Way>, u: NodeId, v: NodeId)
    requires Build(cfg, records, ways).Success?
    ensures var nb := Build(cfg, records, ways).value.neighbors;
      && (HasEdge(nb, u, v) <==> exists s :: Contributes(cfg, ways, u, v, s))
      && (HasEdge(nb, u, v) ==> Contributes(cfg, ways, u, v, nb[u][v]))
      && (HasEdge(nb, u, v) ==> forall s :: Contributes(cfg, ways, u, v, s) ==> s <= nb[u][v])
  {
    ProcessWaysWeight(cfg, ways, u, v);
  }

  lemma AdjacencyExtensional(a: Adjacency, b: Adjacency)
    requires NonEmptyInner(a) && NonEmptyInner(b)
    requires forall u, v :: Weight(a, u, v) == Weight(b, u, v)
    ensures a == b
  {
    forall u | u in a ensures u in b {
      var v :| v in a[u];
      assert Weight(a, u, v).Some?;
    }
    forall u | u in b ensures u in a {
      var v :| v in b[u];
      assert Weight(b, u, v).Some?;
    }
    forall u | u in a ensures a[u] == b[u] {
      forall v ensures v in a[u] <==> v in b[u] {
        assert Weight(a, u, v) == Weight(b, u, v);
      }
      forall v | v in a[u] ensures a[u][v] == b[u][v] {
        assert Weight(a, u, v) == Weight(b, u, v);
      }
      assert a[u].Keys == b[u].Keys;
    }
    assert a.Keys == b.Keys;
  }

  /**
   * The builder's result depends on the ways only through their multiset:
   * reordering the ways changes neither whether it succeeds nor, when it
   * does, any part of the graph, because conflicting speeds merge by max.
   */
  lemma BuildOrderIndependent(cfg: Config, records: seq<Node>, ways1: seq<Way>, ways2: seq<Way>)
    requires multiset(ways1) == multiset(ways2)
    ensures Build(cfg, records, ways1).Success? <==> Build(cfg, records, ways2).Success?
    ensures Build(cfg, records, ways1).Success? ==> Build(cfg, records, ways1) == Build(cfg, records, ways2)
  {
    assert forall w :: w in ways1 <==> w in ways2 by {
      forall w ensures w in ways1 <==> w in ways2 {
        assert w in ways1 <==> w in multiset(ways1);
        assert w in ways2 <==> w in multiset(ways2);
      }
    }
    BuildOutcome(cfg, records, ways1);
    BuildOutcome(cfg, records, ways2);
    if Build(cfg, records, ways1).Success? {
      forall k | 0 <= k < |ways2| ensures WayFailure(cfg, ways2[k]).None? {
        assert ways2[k] in ways1;
      }
    }
    if Build(cfg, records, ways2).Success? {
      forall k | 0 <= k < |ways1| ensures WayFailure(cfg, ways1[k]).None? {
        assert ways1[k] in ways2;
      }
    }
    if Build(cfg, records, ways1).Success? {
      SameWaysSameState(cfg, ways1, ways2);
    }
  }

  /** Two successful runs over the same ways, in any order, build the same state. */
  lemma SameWaysSameState(cfg: Config, ways1: seq<Way>, ways2: seq<Way>)
    requires forall w :: w in ways1 <==> w in ways2
    requires ProcessWays(cfg, ways1).Success? && ProcessWays(cfg, ways2).Success?
    ensures ProcessWays(cfg, ways1) == ProcessWays(cfg, ways2)
  {
    var st1 := ProcessWays(cfg, ways1).value;
    var st2 := ProcessWays(cfg, ways2).value;
    forall x ensures x in st1.waySet <==> x in st2.waySet {
      ProcessWaysNodes(cfg, ways1, x);
      ProcessWaysNodes(cfg, ways2, x);
      SameWaysSameNodes(cfg, ways1, ways2, x);
    }
    assert st1.waySet == st2.waySet;
    forall u, v ensures Weight(st1.neighbors, u, v) == Weight(st2.neighbors, u, v) {
      ProcessWaysWeight(cfg, ways1, u, v);
      ProcessWaysWeight(cfg, ways2, u, v);
      forall s ensures Contributes(cfg, ways1, u, v, s) <==> Contributes(cfg, ways2, u, v, s) {
        SameWaysSameContributions(cfg, ways1, ways2, u, v, s);
      }
    }
    ProcessWaysNonEmpty(cfg, ways1);
    ProcessWaysNonEmpty(cfg, ways2);
    AdjacencyExtensional(st1.neighbors, st2.neighbors);
  }

  lemma SameWaysSameNodes(cfg: Config, ways1: seq<Way>, ways2: seq<Way>, x: NodeId)
    requires forall w :: w in ways1 <==> w in ways2
    ensures OnAcceptedWay(cfg, ways1, x) <==> OnAcceptedWay(cfg, ways2, x)
  {
    if OnAcceptedWay(cfg, ways1, x) {
      var k :| 0 <= k < |ways1| && Accepted(cfg, ways1[k]) && x in ways1[k].nodes;
      assert ways1[k] in ways2;
      var k2 :| 0 <= k2 < |ways2| && ways2[k2] == ways1[k];
    }
    if OnAcceptedWay(cfg, ways2, x) {
      var k :| 0 <= k < |ways2| && Accepted(cfg, ways2[k]) && x in ways2[k].nodes;
      assert ways2[k] in ways1;
      var k1 :| 0 <= k1 < |ways1| && ways1[k1] == ways2[k];
    }
  }

  lemma SameWaysSameContributions(cfg: Config, ways1: seq<Way>, ways2: seq<Way>, u: NodeId, v: NodeId, s: int)
    requires forall w :: w in ways1 <==> w in ways2
    ensures Contributes(cfg, ways1, u, v, s) <==> Contributes(cfg, ways2, u, v, s)
  {
    if Contributes(cfg, ways1, u, v, s) {
      var k :| 0 <= k < |ways1| && WayContributes(cfg, ways1[k], u, v, s);
      assert ways1[k] in ways2;
      var k2 :| 0 <= k2 < |ways2| && ways2[k2] == ways1[k];
    }
    if Contributes(cfg, ways2, u, v, s) {
      var k :| 0 <= k < |ways2| && WayContributes(cfg, ways2[k], u, v, s);
      assert ways2[k] in ways1;
      var k1 :| 0 <= k1 < |ways1| && ways1[k1] == ways2[k];
    }
  }

  /**
   * When every way node has a record, the built graph is what the route
   * queries need: in particular every edge ends at a node with a record,
   * and every node record is a way node (so the nearest-node scan's
   * `node in waySet` test always holds).
   */
  lemma BuildWellFormed(cfg: Config, records: seq<Node>, ways: seq<Way>)
    requires Build(cfg, records, ways).Success?
    requires forall x :: x in Build(cfg, records, ways).value.waySet ==> exists j :: 0 <= j < |records| && records[j].id == x
    ensures WellFormed(Build(cfg, records, ways).value)
  {
    var g := Build(cfg, records, ways).value;
    BuildNodeSet(cfg, records, ways);
    forall u, v | HasEdge(g.neighbors, u, v) ensures v in g.nodes {
      BuildEdge(cfg, records, ways, u, v);
      var k :| 0 <= k < |ways| && WayContributes(cfg, ways[k], u, v, g.neighbors[u][v]);
      var ns := ways[k].nodes;
      var i :| 0 <= i < |ns| - 1 && ((ns[i] == u && ns[i + 1] == v) || (!IsOneway(ways[k]) && ns[i] == v && ns[i + 1] == u));
      assert v in ns;
      BuildWaySet(cfg, records, ways, v);
    }
  }

  /**
   * With consistent tables and positive explicit speed tags, every edge
   * weight is positive, so the travel-time metric never divides by zero.
   */
  lemma BuildPositiveWeights(cfg: Config, records: seq<Node>, ways: seq<Way>)
    requires Consistent(cfg)
    requires forall k :: 0 <= k < |ways| && ways[k].tags.maxspeedMph.Some? ==> ways[k].tags.maxspeedMph.value > 0
    requires Build(cfg, records, ways).Success?
    ensures PositiveWeights(Build(cfg, records, ways).value.neighbors)
  {
    var nb := Build(cfg, records, ways).value.neighbors;
    forall u, v | HasEdge(nb, u, v) ensures nb[u][v] > 0 {
      BuildEdge(cfg, records, ways, u, v);
    }
  }
}
