# Undirected graph ADT of `graph.h`, modelled in Dafny

`graph.h` holds two graph classes. This project models both as immutable values with pure update functions.

- **Set-based graph** (`graph.h:18-80`), module `SetGraph`. The state is a set of integer vertices and a set of ordered integer pairs. Each undirected edge is stored in both orientations. `insertVertex` adds a vertex. `eraseVertex` removes it and every edge that touches it. `insertEdge` stores `(v1,v2)` and `(v2,v1)` without checking that the endpoints are vertices. `eraseEdge` drops both orientations. Module `SetGraphProperties` proves these things:
  - edge-set symmetry is preserved by every call and by any sequence of calls;
  - the "every edge joins two vertices" invariant is preserved when edge insertions name present vertices, and only then;
  - idempotence of all four updates, orientation-independence of the edge calls and the insert/erase inverse laws;
  - edge counts, where a self-loop is stored once;
  - the scenario run by the file's `main`.
- **Descriptor-based graph** (`graph.h:151-340`), module `DescriptorGraph`. The state is the counter `m_max_vd`, a container of vertex records and a container of edge records. Both containers hash and compare records by descriptor only, so each is a map from descriptor to record. `Valid` says every record sits under its own descriptor. An edge's descriptor is the ordered pair `(source, target)`, so lookup depends on orientation. The modifiers in this half are placeholders in the source. They are modelled as exactly that: they change nothing, `insert_vertex` returns the current counter and `insert_edge` returns `(sd, td)`. Module `DescriptorGraphProperties` proves these things:
  - map lookup agrees with a search by descriptor equality;
  - the equality functors are equivalences that ignore the payload;
  - the counts are numbers of distinct records;
  - `clear` returns the freshly constructed state;
  - the placeholders never store anything.

`Edge.Descriptor`, `VertexEq` and `EdgeEq` are plain definitions of `descriptor()`, `vertex_eq` and `edge_eq`. Their properties are stated by the `VertexEqIsEquivalence`, `VertexEqIgnoresPayload`, `EdgeEqIsEquivalence`, `EdgeEqIgnoresPayload` and `EdgeEqOrientation` rows.

The source does not compile as written. `main` names an undeclared `Graph`, and a stray `public:` sits at namespace scope. The set half also stores `pair<int,int>` in an `unordered_set` with no hash for it. The descriptor half has no class header of its own. So neither half compiles alone either. The model treats the two halves as independent and gives both plain set semantics.

In the descriptor half, no code path ever adds a record. Every inserter is a placeholder, and the stream reader only calls those placeholders. So every descriptor graph the source can reach is empty. The lookup and counting properties describe what the containers would do if they held records; `FindEdgeOrientationExample` builds such contents directly.

The modifiers of the descriptor half are marked `@todo` (`graph.h:201`). The comments at `graph.h:241` and `graph.h:266` say that descriptors are "assigned during insertion" and that `m_max_vd` is the largest one assigned. The code does neither: `insert_vertex` does not allocate a fresh descriptor, and the counter never moves. The model follows the code.

Other behaviour of the code, modelled as written:
- The set half's `insertEdge` does not reject unknown endpoints.
- Erasing an absent edge is a silent no-op. Erasing an absent vertex is not an error, but it still drops every edge touching it, since edges may name non-vertices (`EraseAbsentVertex`, `EraseAbsentVertexExample`).
- A duplicate edge insertion is a silent no-op (`InsertEdgeIdempotent`).

## Model

| member | source | states |
|---|---|---|
| SetGraph.InsertVertex | graph.h:28-31 | the vertex becomes a member, every other vertex keeps its membership, the edge set is unchanged |
| SetGraph.EraseVertex | graph.h:34-48 | the vertex is gone, every other vertex keeps its membership, no remaining edge touches it, every edge not touching it survives, and no edge is added |
| SetGraph.EraseVertexByScan | graph.h:34-48 | the source's single pass over the edge set, which drops each touching edge, computes exactly the set-level erasure, whatever the iteration order |
| SetGraph.InsertEdge | graph.h:51-55 | both orientations become members, no other edge changes, the vertex set is unchanged (endpoints are not checked) |
| SetGraph.EraseEdge | graph.h:58-62 | neither orientation remains, no other edge changes, the vertex set is unchanged |
| SetGraphProperties.InsertVertexPreservesSymmetry | graph.h:28-31 | a symmetric edge set stays symmetric after a vertex insertion |
| SetGraphProperties.InsertEdgePreservesSymmetry | graph.h:51-55 | a symmetric edge set stays symmetric after an edge insertion |
| SetGraphProperties.EraseEdgePreservesSymmetry | graph.h:58-62 | a symmetric edge set stays symmetric after an edge erasure |
| SetGraphProperties.EraseVertexPreservesSymmetry | graph.h:34-48 | a symmetric edge set stays symmetric after the cascading vertex erasure |
| SetGraphProperties.ApplyPreservesSymmetry | graph.h:28-62 | each of the four calls preserves symmetry |
| SetGraphProperties.RunPreservesSymmetry | graph.h:28-62 | any sequence of calls preserves symmetry |
| SetGraphProperties.InsertEdgeClosedIff | graph.h:51-55 | starting from a graph whose edges join vertices, an edge insertion keeps that so if and only if both endpoints are vertices |
| SetGraphProperties.EraseVertexPreservesClosed | graph.h:34-48 | the cascade leaves no edge pointing at the erased vertex, so edges keep joining vertices |
| SetGraphProperties.ApplyPreservesClosed | graph.h:28-62 | each call whose edge insertion names present vertices keeps edges joining vertices |
| SetGraphProperties.RunPreservesClosed | graph.h:28-62 | a sequence of such calls keeps edges joining vertices |
| SetGraphProperties.InsertVertexIdempotent | graph.h:28-31 | inserting a vertex twice equals inserting it once |
| SetGraphProperties.EraseVertexIdempotent | graph.h:34-48 | erasing a vertex twice equals erasing it once |
| SetGraphProperties.InsertEdgeIdempotent | graph.h:51-55 | a duplicate edge insertion is a no-op |
| SetGraphProperties.EraseEdgeIdempotent | graph.h:58-62 | erasing an edge twice equals erasing it once |
| SetGraphProperties.EdgeCallsIgnoreOrientation | graph.h:51-62 | `insertEdge(v1,v2)` equals `insertEdge(v2,v1)`, and likewise for `eraseEdge` |
| SetGraphProperties.InsertThenEraseEdge | graph.h:51-62 | insert-then-erase of an edge gives the original edge set minus both orientations |
| SetGraphProperties.InsertThenEraseRestores | graph.h:51-62 | when neither orientation was present, insert-then-erase restores the graph |
| SetGraphProperties.EraseThenInsertRestores | graph.h:51-62 | on a symmetric graph, erasing a present edge and inserting it again restores the graph |
| SetGraphProperties.InsertThenEraseVertexRestores | graph.h:28-48 | inserting a new vertex that no edge touches and erasing it restores the graph |
| SetGraphProperties.EraseAbsentVertex | graph.h:34-48 | erasing a vertex that is not present keeps the vertex set, and leaves the graph unchanged if and only if no edge touches that vertex |
| SetGraphProperties.EraseAbsentVertexExample | graph.h:34-55 | from empty, inserting edge (1,2) and then erasing the never-inserted vertex 1 drops both orientations and yields the empty graph |
| SetGraphProperties.InsertEdgeCount | graph.h:51-55 | on a symmetric graph a new edge adds two stored pairs, a new self-loop one |
| SetGraphProperties.EraseEdgeCount | graph.h:58-62 | on a symmetric graph erasing a present edge removes two stored pairs, a self-loop one |
| SetGraphProperties.DriverScenario | graph.h:84-94 | from empty: after the setup the graph has vertices 1, 2, 3 and the four pairs of (1,2), (2,3); erasing 2 leaves vertices {1,3} and no edges; erasing (1,2) then changes nothing |
| DescriptorGraph.New | graph.h:151 | a constructed graph is well formed, has counter 0 and holds no vertex and no edge |
| DescriptorGraphProperties.NumVerticesZeroIff | graph.h:174 | `num_vertices` is 0 if and only if `find_vertex` finds no descriptor at all |
| DescriptorGraphProperties.NumEdgesZeroIff | graph.h:175 | `num_edges` is 0 if and only if `find_edge` finds no descriptor at all |
| DescriptorGraph.FindVertex | graph.h:177-187 | a found vertex is a held record, and in a well-formed graph it carries the probed descriptor |
| DescriptorGraph.FindEdge | graph.h:189-199 | a found edge is a held record, and in a well-formed graph its source and target are the probed pair in that order |
| DescriptorGraph.Clear | graph.h:223-232 | counter reset to 0, both counts 0, and no vertex or edge descriptor is found afterwards |
| DescriptorGraph.InsertVertex | graph.h:202-205 | returns the current counter, the counter does not move, and counts and every lookup are unchanged |
| DescriptorGraph.InsertEdge | graph.h:206-210 | returns `(sd, td)`, and counter, counts and every lookup are unchanged |
| DescriptorGraph.InsertEdgeUndirected | graph.h:211-214 | counter, counts and every lookup are unchanged |
| DescriptorGraph.EraseVertex | graph.h:215-217 | counter, counts and every lookup, including the erased vertex's, are unchanged |
| DescriptorGraph.EraseEdge | graph.h:218-220 | counter, counts and every lookup, including the erased edge's, are unchanged |
| DescriptorGraphProperties.NumVerticesCountsRecords | graph.h:174 | in a well-formed graph `num_vertices` is the number of distinct vertex records held |
| DescriptorGraphProperties.NumEdgesCountsRecords | graph.h:175 | in a well-formed graph `num_edges` is the number of distinct edge records held |
| DescriptorGraphProperties.FindVertexIsDescriptorSearch | graph.h:177-187 | lookup returns a record if and only if it is held and equal to the probe under descriptor equality |
| DescriptorGraphProperties.FindEdgeIsDescriptorSearch | graph.h:189-199 | lookup returns an edge if and only if it is held and equal to the probe under ordered-descriptor equality |
| DescriptorGraphProperties.VertexEqIsEquivalence | graph.h:318-324 | `VertexEq`, the model of `vertex_eq`, is reflexive, symmetric and transitive, as a hash container requires of its key equality |
| DescriptorGraphProperties.VertexEqIgnoresPayload | graph.h:177-181 | `VertexEq` ignores the property, so the probe `find_vertex` builds with a default `VertexProperty()` matches the held record with that descriptor |
| DescriptorGraphProperties.EdgeEqIsEquivalence | graph.h:326-332 | `EdgeEq`, the model of `edge_eq`, is reflexive, symmetric and transitive |
| DescriptorGraphProperties.EdgeEqIgnoresPayload | graph.h:189-193 | `EdgeEq` ignores the property, so the probe `find_edge` builds with a default `EdgeProperty()` matches the held record with that descriptor |
| DescriptorGraphProperties.EdgeEqOrientation | graph.h:286-288 | under `EdgeEq` over `Edge.Descriptor`, the ordered pair of `descriptor()`, an edge equals its reversal if and only if it is a self-loop |
| DescriptorGraphProperties.FindEdgeReversed | graph.h:189-199 | for distinct endpoints, a record found under `(t,s)` is never the record found under `(s,t)` |
| DescriptorGraphProperties.FindEdgeOrientationExample | graph.h:189-199 | a graph holding only edge (0,1) finds it under (0,1) and finds nothing under (1,0) |
| DescriptorGraphProperties.ClearIsNew | graph.h:223-232 | clearing any graph yields the freshly constructed graph |
| DescriptorGraphProperties.ClearForgetsRecords | graph.h:223-232 | every vertex found before `clear` is not found after it, and separately every edge found before `clear` is not found after it |
| DescriptorGraphProperties.InsertVertexRepeatsDescriptor | graph.h:202-205 | two successive `insert_vertex` calls return the same descriptor |
| DescriptorGraphProperties.InsertedNothingFound | graph.h:202-214 | on a fresh graph the descriptors returned by the inserters name nothing that can be found, and the counts stay 0 |
| DescriptorGraphProperties.EraseVertexKeepsIncidentEdges | graph.h:215-217 | after `erase_vertex` the vertex and the edges starting at it are still found |

## Left out

- `printGraph` (`graph.h:65-79`) and the stream operators (`graph.h:344-378`): console and stream I/O. This includes the second `reserve` call on the vertex container with the edge count, which affects capacity only.
- Iterators (`graph.h:162-171`, `255-258`): the containers are unordered, so iteration order is unspecified and the model does not depend on it.
- The per-vertex adjacency container `m_out_edges` (`graph.h:268`): no code ever populates it.
- `vertex_hash`, `edge_hash` and raw-pointer ownership (`new`/`delete`, the destructor and the deleted copy operations): these are abstracted into maps keyed by descriptor. The `Valid` predicate is the property the hashing and equality functors give the containers.
- `edge_comp` (`graph.h:334-340`): it is referenced only by commented-out container typedefs.
- Breadth-first and depth-first search and the vector-backed graph variant: these live in other files and are not part of this model.
- Descriptor width: `size_t` descriptors are modelled as unbounded naturals. No modelled operation does arithmetic on them, so wrap-around cannot arise.
- The property payloads `VertexProperty`/`EdgeProperty` are opaque type parameters. Lookup probes are built with a default property in the source. Here a probe is any record carrying the probed descriptor.
