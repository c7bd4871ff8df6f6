/**
 The descriptor-based graph: a counter of the largest vertex descriptor handed
 out, a container of vertex records and a container of edge records. Both
 containers are hash sets whose hashing and equality look only at the
 record's descriptor, so each is modelled as a map from descriptor to record.
 An edge's descriptor is its ordered (source, target) pair.
 */
module DescriptorGraph {

  type VertexDescriptor = nat

  /** The ordered pair (source, target); (s, t) and (t, s) are different descriptors. */
  type EdgeDescriptor = (VertexDescriptor, VertexDescriptor)

  /** A lookup result: a record, or the containers' end position. */
  datatype Option<T> = None | Some(value: T)

  datatype Vertex<VP> = Vertex(descriptor: VertexDescriptor, property: VP)

  datatype Edge<EP> = Edge(source: VertexDescriptor, target: VertexDescriptor, property: EP)
  {
    /** The edge's identity: its ordered (source, target) pair. */
    function Descriptor(): EdgeDescriptor
    {
      (source, target)
    }
  }

  datatype Graph<VP(==), EP(==)> = Graph(
    maxVd: nat,
    vertices: map<VertexDescriptor, Vertex<VP>>,
    edges: map<EdgeDescriptor, Edge<EP>>)

  /** Each record is stored under its own descriptor, as a descriptor-hashed set stores it. */
  predicate Valid<VP(==), EP(==)>(g: Graph<VP, EP>)
  {
    && (forall vd :: vd in g.vertices ==> g.vertices[vd].descriptor == vd)
    && (forall ed :: ed in g.edges ==> g.edges[ed].Descriptor() == ed)
  }

  /** Two vertex records are the same container element when their descriptors agree. */
  predicate VertexEq<VP>(u: Vertex<VP>, v: Vertex<VP>)
  {
    u.descriptor == v.descriptor
  }

  /** Two edge records are the same container element when their ordered descriptors agree. */
  predicate EdgeEq<EP>(e: Edge<EP>, f: Edge<EP>)
  {
    e.Descriptor() == f.Descriptor()
  }

  /** A freshly constructed graph: counter 0, no records. */
  function New<VP(==), EP(==)>(): (g: Graph<VP, EP>)
    ensures Valid(g)
    ensures g.maxVd == 0
    ensures NumVertices(g) == 0 && NumEdges(g) == 0
  {
    Graph(0, map[], map[])
  }

  /** Number of vertex records held. */
  function NumVertices<VP(==), EP(==)>(g: Graph<VP, EP>): nat
  {
    |g.vertices|
  }

  /** Number of edge records held. */
  function NumEdges<VP(==), EP(==)>(g: Graph<VP, EP>): nat
  {
    |g.edges|
  }

  /** The vertex record with descriptor `vd`, if one is held. */
  function FindVertex<VP(==), EP(==)>(g: Graph<VP, EP>, vd: VertexDescriptor): (r: Option<Vertex<VP>>)
    ensures r.Some? ==> r.value in g.vertices.Values
    ensures Valid(g) ==> (r.Some? ==> r.value.descriptor == vd)
  {
    if vd in g.vertices then Some(g.vertices[vd]) else None
  }

  /** The edge record with ordered descriptor `ed`, if one is held. */
  function FindEdge<VP(==), EP(==)>(g: Graph<VP, EP>, ed: EdgeDescriptor): (r: Option<Edge<EP>>)
    ensures r.Some? ==> r.value in g.edges.Values
    ensures Valid(g) ==> (r.Some? ==> r.value.source == ed.0 && r.value.target == ed.1)
  {
    if ed in g.edges then Some(g.edges[ed]) else None
  }

  /** Releases every record and resets the descriptor counter. */
  function Clear<VP(==), EP(==)>(g: Graph<VP, EP>): (r: Graph<VP, EP>)
    ensures Valid(r)
    ensures r.maxVd == 0
    ensures NumVertices(r) == 0 && NumEdges(r) == 0
    ensures forall vd :: FindVertex(r, vd).None?
    ensures forall ed :: FindEdge(r, ed).None?
  {
    Graph(0, map[], map[])
  }

  // ---------------------------------------------------------------------------
  // The modifiers, which in graph.h are placeholders with no effect.

  /** Returns the current counter as the "new" descriptor; nothing is stored and the counter does not move. */
  function InsertVertex<VP(==), EP(==)>(g: Graph<VP, EP>, vp: VP): (r: (Graph<VP, EP>, VertexDescriptor))
    ensures r.1 == g.maxVd && r.0.maxVd == g.maxVd
    ensures NumVertices(r.0) == NumVertices(g) && NumEdges(r.0) == NumEdges(g)
    ensures forall vd :: FindVertex(r.0, vd) == FindVertex(g, vd)
    ensures forall ed :: FindEdge(r.0, ed) == FindEdge(g, ed)
  {
    (g, g.maxVd)
  }

  /** Returns (sd, td) as the edge descriptor; nothing is stored. */
  function InsertEdge<VP(==), EP(==)>(g: Graph<VP, EP>, sd: VertexDescriptor, td: VertexDescriptor, ep: EP)
    : (r: (Graph<VP, EP>, EdgeDescriptor))
    ensures r.1 == (sd, td)
    ensures r.0.maxVd == g.maxVd
    ensures NumVertices(r.0) == NumVertices(g) && NumEdges(r.0) == NumEdges(g)
    ensures forall vd :: FindVertex(r.0, vd) == FindVertex(g, vd)
    ensures forall ed :: FindEdge(r.0, ed) == FindEdge(g, ed)
  {
    (g, (sd, td))
  }

  /** Stores nothing in either orientation. */
  function InsertEdgeUndirected<VP(==), EP(==)>(g: Graph<VP, EP>, sd: VertexDescriptor, td: VertexDescriptor, ep: EP)
    : (r: Graph<VP, EP>)
    ensures r.maxVd == g.maxVd
    ensures NumVertices(r) == NumVertices(g) && NumEdges(r) == NumEdges(g)
    ensures forall vd :: FindVertex(r, vd) == FindVertex(g, vd)
    ensures forall ed :: FindEdge(r, ed) == FindEdge(g, ed)
  {
    g
  }

  /** Removes nothing: the vertex and its incident edges stay. */
  function EraseVertex<VP(==), EP(==)>(g: Graph<VP, EP>, vd: VertexDescriptor): (r: Graph<VP, EP>)
    ensures r.maxVd == g.maxVd
    ensures NumVertices(r) == NumVertices(g) && NumEdges(r) == NumEdges(g)
    ensures forall u :: FindVertex(r, u) == FindVertex(g, u)
    ensures forall ed :: FindEdge(r, ed) == FindEdge(g, ed)
  {
    g
  }

  /** Removes nothing: the edge stays. */
  function EraseEdge<VP(==), EP(==)>(g: Graph<VP, EP>, ed: EdgeDescriptor): (r: Graph<VP, EP>)
    ensures r.maxVd == g.maxVd
    ensures NumVertices(r) == NumVertices(g) && NumEdges(r) == NumEdges(g)
    ensures forall vd :: FindVertex(r, vd) == FindVertex(g, vd)
    ensures forall f :: FindEdge(r, f) == FindEdge(g, f)
  {
    g
  }
}
