/**
 The set-based undirected graph: a set of integer vertices and a set of
 ordered integer pairs as edges, where every undirected edge is stored in
 both orientations. Each operation is a pure update of the two sets.
 */
module SetGraph {

  /** An ordered pair of vertices; the undirected edge {a, b} is stored as (a, b) and (b, a). */
  type Edge = (int, int)

  datatype Graph = Graph(vertices: set<int>, edges: set<Edge>)

  /** The graph a default-constructed object holds: no vertices, no edges. */
  const Empty: Graph := Graph({}, {})

  /** True when vertex `v` is the first or the second component of `e`. */
  predicate Touches(e: Edge, v: int)
  {
    e.0 == v || e.1 == v
  }

  /** Every stored orientation has its reverse stored too. */
  predicate Symmetric(edges: set<Edge>)
  {
    forall e :: e in edges ==> (e.1, e.0) in edges
  }

  /** Every edge joins two vertices of the graph. */
  predicate Closed(g: Graph)
  {
    forall e :: e in g.edges ==> e.0 in g.vertices && e.1 in g.vertices
  }

  /** Adds one vertex; the edge set is untouched. */
  function InsertVertex(g: Graph, v: int): (r: Graph)
    ensures v in r.vertices
    ensures forall u :: u != v ==> (u in r.vertices <==> u in g.vertices)
    ensures r.edges == g.edges
  {
    g.(vertices := g.vertices + {v})
  }

  /** Removes a vertex and, in cascade, every edge having it as an endpoint. */
  function EraseVertex(g: Graph, v: int): (r: Graph)
    ensures v !in r.vertices
    ensures forall u :: u != v ==> (u in r.vertices <==> u in g.vertices)
    ensures forall e :: e in r.edges ==> e in g.edges && !Touches(e, v)
    ensures forall e :: e in g.edges && !Touches(e, v) ==> e in r.edges
  {
    Graph(g.vertices - {v}, set e | e in g.edges && !Touches(e, v))
  }

  /** Adds both orientations of the edge; endpoints are not required to be vertices. */
  function InsertEdge(g: Graph, v1: int, v2: int): (r: Graph)
    ensures (v1, v2) in r.edges && (v2, v1) in r.edges
    ensures forall e :: e != (v1, v2) && e != (v2, v1) ==> (e in r.edges <==> e in g.edges)
    ensures r.vertices == g.vertices
  {
    g.(edges := g.edges + {(v1, v2), (v2, v1)})
  }

  /** Removes both orientations of the edge; absent orientations are ignored. */
  function EraseEdge(g: Graph, v1: int, v2: int): (r: Graph)
    ensures (v1, v2) !in r.edges && (v2, v1) !in r.edges
    ensures forall e :: e != (v1, v2) && e != (v2, v1) ==> (e in r.edges <==> e in g.edges)
    ensures r.vertices == g.vertices
  {
    g.(edges := g.edges - {(v1, v2), (v2, v1)})
  }

  /**
   Vertex erasure as `eraseVertex` in graph.h performs it: remove the vertex,
   then walk the edge set once and drop every edge that touches it. The walk
   order is irrelevant; the result is the set-level EraseVertex.
   */
  method EraseVertexByScan(g: Graph, v: int) returns (r: Graph)
    ensures r == EraseVertex(g, v)
  {
    var edges := g.edges;
    var pending := g.edges;
    while pending != {}
      invariant pending <= edges <= g.edges
      invariant forall e :: e in g.edges && e !in pending ==> (e in edges <==> !Touches(e, v))
      decreases pending
    {
      var e :| e in pending;
      if Touches(e, v) {
        edges := edges - {e};
      }
      pending := pending - {e};
    }
    r := Graph(g.vertices - {v}, edges);
    assert r.edges == EraseVertex(g, v).edges;
  }
}
