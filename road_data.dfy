/**
 * The records the road-graph builder consumes and the routing graph it produces.
 */
module RoadData {
  import opened Common

  /** Node identifiers are opaque; integers stand for them. */
  type NodeId = int

  /** A (latitude, longitude) pair in degrees. */
  datatype Coord = Coord(lat: real, lon: real)

  /** A node record `{id, lat, lon}`. */
  datatype Node = Node(id: NodeId, lat: real, lon: real)

  function Location(n: Node): Coord
  {
    Coord(n.lat, n.lon)
  }

  /** The three tags the builder reads; a tag that is absent is `None`. */
  datatype Tags = Tags(highway: Option<string>, maxspeedMph: Option<int>, oneway: Option<string>)

  /** A way record `{id, nodes, tags}`. */
  datatype Way = Way(id: int, nodes: seq<NodeId>, tags: Tags)

  /** `neighbors[a][b]` is the speed limit (mph) of the directed edge a -> b. */
  type Adjacency = map<NodeId, map<NodeId, int>>

  predicate HasEdge(nb: Adjacency, u: NodeId, v: NodeId)
  {
    u in nb && v in nb[u]
  }

  /** The stored weight of a -> b, if that edge exists. */
  function Weight(nb: Adjacency, u: NodeId, v: NodeId): Option<int>
  {
    if HasEdge(nb, u, v) then Some(nb[u][v]) else None
  }

  /** Every key of the adjacency has at least one outgoing edge. */
  ghost predicate NonEmptyInner(nb: Adjacency)
  {
    forall u :: u in nb ==> exists v :: v in nb[u]
  }

  /**
   * The triple the builder returns (nodeSet, neighbors, waySet), plus `order`:
   * the iteration order of the nodeSet dictionary, i.e. the order in which
   * its keys were first inserted.
   */
  datatype Graph = Graph(nodes: map<NodeId, Node>, order: seq<NodeId>, neighbors: Adjacency, waySet: set<NodeId>)

  /** Every edge ends at a node that has a record. */
  ghost predicate Closed(g: Graph)
  {
    forall u, v :: HasEdge(g.neighbors, u, v) ==> v in g.nodes
  }

  ghost predicate PositiveWeights(nb: Adjacency)
  {
    forall u, v :: HasEdge(nb, u, v) ==> nb[u][v] > 0
  }

  /**
   * What the route queries rely on: `order` enumerates the node keys once
   * each, every record sits under its own id, node records are a subset of
   * the way nodes, and every edge target has a record.
   */
  ghost predicate WellFormed(g: Graph)
  {
    && (forall x :: x in g.order <==> x in g.nodes)
    && NoDuplicates(g.order)
    && (forall x :: x in g.nodes ==> g.nodes[x].id == x)
    && g.nodes.Keys <= g.waySet
    && Closed(g)
  }
}
