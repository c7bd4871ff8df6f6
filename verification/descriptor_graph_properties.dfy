/**
 Properties of the descriptor-based graph: lookup by descriptor agrees with a
 search by descriptor equality, the counts are numbers of distinct records,
 edge lookup is orientation-sensitive, clear returns the constructed state,
 and the placeholder modifiers store nothing.
 */
module DescriptorGraphProperties {
  import opened DescriptorGraph

  /** A map that stores every value under its own key holds as many distinct values as keys. */
  lemma {:induction false} KeyedValuesCount<K, V>(m: map<K, V>, key: V -> K)
    requires forall k :: k in m ==> key(m[k]) == k
    ensures |m.Values| == |m|
    decreases |m|
  {
    if |m| > 0 {
      var k :| k in m;
      var rest := m - {k};
      KeyedValuesCount(rest, key);
      forall v | v in m.Values
        ensures v in rest.Values + {m[k]}
      {
        var j :| j in m && m[j] == v;
        if j != k {
          assert j in rest && rest[j] == v;
        }
      }
      assert m.Values == rest.Values + {m[k]};
      assert m[k] !in rest.Values;
    }
  }

  /** num_vertices is the number of distinct vertex records in the container. */
  lemma NumVerticesCountsRecords<VP, EP>(g: Graph<VP, EP>)
    requires Valid(g)
    ensures NumVertices(g) == |g.vertices.Values|
  {
    KeyedValuesCount(g.vertices, (v: Vertex<VP>) => v.descriptor);
  }

  /** num_edges is the number of distinct edge records in the container. */
  lemma NumEdgesCountsRecords<VP, EP>(g: Graph<VP, EP>)
    requires Valid(g)
    ensures NumEdges(g) == |g.edges.Values|
  {
    KeyedValuesCount(g.edges, (e: Edge<EP>) => e.Descriptor());
  }

  /** num_vertices is zero exactly when no vertex descriptor can be found. */
  lemma NumVerticesZeroIff<VP, EP>(g: Graph<VP, EP>)
    ensures NumVertices(g) == 0 <==> forall vd :: FindVertex(g, vd).None?
  {
    if NumVertices(g) != 0 {
      var vd :| vd in g.vertices;
      assert FindVertex(g, vd).Some?;
    }
  }

  /** num_edges is zero exactly when no edge descriptor can be found. */
  lemma NumEdgesZeroIff<VP, EP>(g: Graph<VP, EP>)
    ensures NumEdges(g) == 0 <==> forall ed :: FindEdge(g, ed).None?
  {
    if NumEdges(g) != 0 {
      var ed :| ed in g.edges;
      assert FindEdge(g, ed).Some?;
    }
  }

  /** find_vertex returns exactly the held record whose descriptor equals the probe's. */
  lemma FindVertexIsDescriptorSearch<VP, EP>(g: Graph<VP, EP>, vd: VertexDescriptor, probe: Vertex<VP>)
    requires Valid(g) && probe.descriptor == vd
    ensures forall v :: FindVertex(g, vd) == Some(v) <==> v in g.vertices.Values && VertexEq(v, probe)
  {
  }

  /** find_edge returns exactly the held record whose ordered descriptor equals the probe's. */
  lemma FindEdgeIsDescriptorSearch<VP, EP>(g: Graph<VP, EP>, ed: EdgeDescriptor, probe: Edge<EP>)
    requires Valid(g) && probe.Descriptor() == ed
    ensures forall e :: FindEdge(g, ed) == Some(e) <==> e in g.edges.Values && EdgeEq(e, probe)
  {
  }

  /** Vertex equality is an equivalence relation on vertex records. */
  lemma VertexEqIsEquivalence<VP>(u: Vertex<VP>, v: Vertex<VP>, w: Vertex<VP>)
    ensures VertexEq(u, u)
    ensures VertexEq(u, v) ==> VertexEq(v, u)
    ensures VertexEq(u, v) && VertexEq(v, w) ==> VertexEq(u, w)
  {
  }

  /** Vertex equality ignores the payload, so a probe built with a default property finds the held record. */
  lemma VertexEqIgnoresPayload<VP>(u: Vertex<VP>, v: Vertex<VP>, p: VP)
    ensures VertexEq(u, v) <==> VertexEq(u.(property := p), v)
  {
  }

  /** Edge equality is an equivalence relation on edge records. */
  lemma EdgeEqIsEquivalence<EP>(e: Edge<EP>, f: Edge<EP>, h: Edge<EP>)
    ensures EdgeEq(e, e)
    ensures EdgeEq(e, f) ==> EdgeEq(f, e)
    ensures EdgeEq(e, f) && EdgeEq(f, h) ==> EdgeEq(e, h)
  {
  }

  /** Edge equality ignores the payload, so a probe built with a default property finds the held record. */
  lemma EdgeEqIgnoresPayload<EP>(e: Edge<EP>, f: Edge<EP>, p: EP)
    ensures EdgeEq(e, f) <==> EdgeEq(e.(property := p), f)
  {
  }

  /** An edge and its reversal are equal records only when they form a self-loop. */
  lemma EdgeEqOrientation<EP>(s: VertexDescriptor, t: VertexDescriptor, p: EP, q: EP)
    ensures EdgeEq(Edge(s, t, p), Edge(t, s, q)) <==> s == t
  {
  }

  /** Looking an edge up by its reversed descriptor never finds the edge itself unless it is a self-loop. */
  lemma FindEdgeReversed<VP, EP>(g: Graph<VP, EP>, s: VertexDescriptor, t: VertexDescriptor)
    requires Valid(g) && s != t
    ensures FindEdge(g, (t, s)).Some? ==> FindEdge(g, (t, s)) != FindEdge(g, (s, t))
  {
  }

  /** A graph holding only the edge (0, 1) finds it under (0, 1) and finds nothing under (1, 0). */
  lemma FindEdgeOrientationExample(p: int)
    ensures var g := Graph(0, map[0 := Vertex(0, p), 1 := Vertex(1, p)], map[(0, 1) := Edge(0, 1, p)]);
      && Valid(g)
      && FindEdge(g, (0, 1)) == Some(Edge(0, 1, p))
      && FindEdge(g, (1, 0)) == None
  {
  }

  /** Clearing a graph yields the state of a freshly constructed one. */
  lemma ClearIsNew<VP, EP>(g: Graph<VP, EP>)
    ensures Clear(g) == New<VP, EP>()
  {
  }

  /** After clear, no vertex and no edge that was held can be found again. */
  lemma ClearForgetsRecords<VP, EP>(g: Graph<VP, EP>, vd: VertexDescriptor, ed: EdgeDescriptor)
    ensures FindVertex(g, vd).Some? ==> FindVertex(Clear(g), vd).None?
    ensures FindEdge(g, ed).Some? ==> FindEdge(Clear(g), ed).None?
  {
  }

  /** insert_vertex never hands out a fresh descriptor: two calls in a row return the same one. */
  lemma InsertVertexRepeatsDescriptor<VP, EP>(g: Graph<VP, EP>, a: VP, b: VP)
    ensures var (g1, d1) := InsertVertex(g, a);
      var (_, d2) := InsertVertex(g1, b);
      d1 == d2
  {
  }

  /** On a fresh graph, the descriptors the inserters return name nothing that can be found. */
  lemma InsertedNothingFound<VP, EP>(vp: VP, sd: VertexDescriptor, td: VertexDescriptor, ep: EP)
    ensures var (g1, vd) := InsertVertex(New<VP, EP>(), vp);
      FindVertex(g1, vd).None? && NumVertices(g1) == 0
    ensures var (g2, ed) := InsertEdge(New<VP, EP>(), sd, td, ep);
      FindEdge(g2, ed).None? && NumEdges(g2) == 0
    ensures var g3 := InsertEdgeUndirected(New<VP, EP>(), sd, td, ep);
      FindEdge(g3, (sd, td)).None? && FindEdge(g3, (td, sd)).None?
  {
  }

  /** erase_vertex leaves the vertex and every edge starting at it in place. */
  lemma EraseVertexKeepsIncidentEdges<VP, EP>(g: Graph<VP, EP>, vd: VertexDescriptor, td: VertexDescriptor)
    requires FindVertex(g, vd).Some? && FindEdge(g, (vd, td)).Some?
    ensures FindVertex(EraseVertex(g, vd), vd).Some?
    ensures FindEdge(EraseVertex(g, vd), (vd, td)).Some?
  {
  }
}
