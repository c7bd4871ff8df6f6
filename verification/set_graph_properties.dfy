/**
 Properties of the set-based graph: the symmetry and closedness invariants,
 idempotence and inverse laws of the four updates, edge counts, and the
 scenario run by the file's driver.
 */
module SetGraphProperties {
  import opened SetGraph

  /** One call on the graph object. */
  datatype Op =
    | InsertVertexOp(v: int)
    | EraseVertexOp(v: int)
    | InsertEdgeOp(v1: int, v2: int)
    | EraseEdgeOp(v1: int, v2: int)

  function Apply(g: Graph, op: Op): Graph
  {
    match op
    case InsertVertexOp(v) => InsertVertex(g, v)
    case EraseVertexOp(v) => EraseVertex(g, v)
    case InsertEdgeOp(v1, v2) => InsertEdge(g, v1, v2)
    case EraseEdgeOp(v1, v2) => EraseEdge(g, v1, v2)
  }

  /** The graph after performing `ops` in order, starting from `g`. */
  function Run(g: Graph, ops: seq<Op>): Graph
    decreases |ops|
  {
    if |ops| == 0 then g else Run(Apply(g, ops[0]), ops[1..])
  }

  /** An edge insertion between two present vertices (or any other call). */
  predicate Guarded(g: Graph, op: Op)
  {
    op.InsertEdgeOp? ==> op.v1 in g.vertices && op.v2 in g.vertices
  }

  /** Every edge insertion in `ops` names vertices present at the time of the call. */
  predicate GuardedRun(g: Graph, ops: seq<Op>)
    decreases |ops|
  {
    |ops| == 0 || (Guarded(g, ops[0]) && GuardedRun(Apply(g, ops[0]), ops[1..]))
  }

  // ---------------------------------------------------------------------------
  // Symmetry of the edge set

  lemma InsertVertexPreservesSymmetry(g: Graph, v: int)
    requires Symmetric(g.edges)
    ensures Symmetric(InsertVertex(g, v).edges)
  {
  }

  lemma InsertEdgePreservesSymmetry(g: Graph, v1: int, v2: int)
    requires Symmetric(g.edges)
    ensures Symmetric(InsertEdge(g, v1, v2).edges)
  {
  }

  lemma EraseEdgePreservesSymmetry(g: Graph, v1: int, v2: int)
    requires Symmetric(g.edges)
    ensures Symmetric(EraseEdge(g, v1, v2).edges)
  {
  }

  lemma EraseVertexPreservesSymmetry(g: Graph, v: int)
    requires Symmetric(g.edges)
    ensures Symmetric(EraseVertex(g, v).edges)
  {
  }

  lemma ApplyPreservesSymmetry(g: Graph, op: Op)
    requires Symmetric(g.edges)
    ensures Symmetric(Apply(g, op).edges)
  {
  }

  /** Any sequence of calls on a symmetric edge set leaves it symmetric. */
  lemma {:induction false} RunPreservesSymmetry(g: Graph, ops: seq<Op>)
    requires Symmetric(g.edges)
    ensures Symmetric(Run(g, ops).edges)
    decreases |ops|
  {
    if |ops| > 0 {
      ApplyPreservesSymmetry(g, ops[0]);
      RunPreservesSymmetry(Apply(g, ops[0]), ops[1..]);
    }
  }

  // ---------------------------------------------------------------------------
  // Closedness: every edge joins present vertices

  /** Inserting an edge keeps every edge between vertices exactly when both endpoints are present. */
  lemma InsertEdgeClosedIff(g: Graph, v1: int, v2: int)
    requires Closed(g)
    ensures Closed(InsertEdge(g, v1, v2)) <==> v1 in g.vertices && v2 in g.vertices
  {
  }

  lemma EraseVertexPreservesClosed(g: Graph, v: int)
    requires Closed(g)
    ensures Closed(EraseVertex(g, v))
  {
  }

  lemma ApplyPreservesClosed(g: Graph, op: Op)
    requires Closed(g) && Guarded(g, op)
    ensures Closed(Apply(g, op))
  {
  }

  /** Calls that only insert edges between present vertices keep every edge between vertices. */
  lemma {:induction false} RunPreservesClosed(g: Graph, ops: seq<Op>)
    requires Closed(g) && GuardedRun(g, ops)
    ensures Closed(Run(g, ops))
    decreases |ops|
  {
    if |ops| > 0 {
      ApplyPreservesClosed(g, ops[0]);
      RunPreservesClosed(Apply(g, ops[0]), ops[1..]);
    }
  }

  // ---------------------------------------------------------------------------
  // Idempotence and orientation

  lemma InsertVertexIdempotent(g: Graph, v: int)
    ensures InsertVertex(InsertVertex(g, v), v) == InsertVertex(g, v)
  {
  }

  lemma EraseVertexIdempotent(g: Graph, v: int)
    ensures EraseVertex(EraseVertex(g, v), v) == EraseVertex(g, v)
  {
  }

  /** A duplicate edge insertion is a silent no-op. */
  lemma InsertEdgeIdempotent(g: Graph, v1: int, v2: int)
    ensures InsertEdge(InsertEdge(g, v1, v2), v1, v2) == InsertEdge(g, v1, v2)
  {
  }

  lemma EraseEdgeIdempotent(g: Graph, v1: int, v2: int)
    ensures EraseEdge(EraseEdge(g, v1, v2), v1, v2) == EraseEdge(g, v1, v2)
  {
  }

  /** The set-based graph is undirected: the argument order of an edge call is irrelevant. */
  lemma EdgeCallsIgnoreOrientation(g: Graph, v1: int, v2: int)
    ensures InsertEdge(g, v1, v2) == InsertEdge(g, v2, v1)
    ensures EraseEdge(g, v1, v2) == EraseEdge(g, v2, v1)
  {
  }

  // ---------------------------------------------------------------------------
  // Inverse laws

  /** Inserting then erasing an edge removes exactly its two orientations from the original. */
  lemma InsertThenEraseEdge(g: Graph, v1: int, v2: int)
    ensures EraseEdge(InsertEdge(g, v1, v2), v1, v2) == EraseEdge(g, v1, v2)
    ensures EraseEdge(InsertEdge(g, v1, v2), v1, v2).edges == g.edges - {(v1, v2), (v2, v1)}
  {
  }

  /** Inserting a new edge and erasing it restores the graph. */
  lemma InsertThenEraseRestores(g: Graph, v1: int, v2: int)
    requires (v1, v2) !in g.edges && (v2, v1) !in g.edges
    ensures EraseEdge(InsertEdge(g, v1, v2), v1, v2) == g
  {
  }

  /** Erasing an edge that was present and inserting it again restores a symmetric graph. */
  lemma EraseThenInsertRestores(g: Graph, v1: int, v2: int)
    requires Symmetric(g.edges) && (v1, v2) in g.edges
    ensures InsertEdge(EraseEdge(g, v1, v2), v1, v2) == g
  {
  }

  /** A vertex inserted afresh and erased again leaves the graph as it was, once no edge touches it. */
  lemma InsertThenEraseVertexRestores(g: Graph, v: int)
    requires v !in g.vertices
    requires forall e :: e in g.edges ==> !Touches(e, v)
    ensures EraseVertex(InsertVertex(g, v), v) == g
  {
  }

  /**
   Erasing a vertex that is not present keeps the vertex set, yet it is a no-op
   only when no edge touches that vertex: edges may name non-vertices, and the
   cascade drops them all the same.
   */
  lemma EraseAbsentVertex(g: Graph, v: int)
    requires v !in g.vertices
    ensures EraseVertex(g, v).vertices == g.vertices
    ensures EraseVertex(g, v) == g <==> forall e :: e in g.edges ==> !Touches(e, v)
  {
    if EraseVertex(g, v) == g {
      forall e | e in g.edges
        ensures !Touches(e, v)
      {
        assert e in EraseVertex(g, v).edges;
      }
    }
  }

  /** From the empty graph, inserting edge (1,2) and erasing the never-inserted vertex 1 drops both orientations. */
  lemma EraseAbsentVertexExample()
    ensures var g := InsertEdge(Empty, 1, 2);
      && 1 !in g.vertices
      && g.edges == {(1, 2), (2, 1)}
      && EraseVertex(g, 1) == Empty
  {
    var g := InsertEdge(Empty, 1, 2);
    assert EraseVertex(g, 1).edges == {};
  }

  // ---------------------------------------------------------------------------
  // Edge counts

  /** A new undirected edge adds two stored orientations, a new self-loop only one. */
  lemma InsertEdgeCount(g: Graph, v1: int, v2: int)
    requires Symmetric(g.edges) && (v1, v2) !in g.edges
    ensures |InsertEdge(g, v1, v2).edges| == |g.edges| + (if v1 == v2 then 1 else 2)
  {
  }

  /** Erasing a present undirected edge removes two stored orientations, a self-loop only one. */
  lemma EraseEdgeCount(g: Graph, v1: int, v2: int)
    requires Symmetric(g.edges) && (v1, v2) in g.edges
    ensures |EraseEdge(g, v1, v2).edges| == |g.edges| - (if v1 == v2 then 1 else 2)
  {
  }

  // ---------------------------------------------------------------------------
  // The driver scenario

  /** The calls made by the file's driver, up to its first erasure. */
  const DriverSetup: seq<Op> := [
    InsertVertexOp(1), InsertVertexOp(2), InsertVertexOp(3),
    InsertEdgeOp(1, 2), InsertEdgeOp(2, 3)
  ]

  /**
   Starting from an empty graph: after the setup the graph has vertices 1, 2, 3
   and the four orientations of edges (1,2) and (2,3); erasing vertex 2 leaves
   vertices {1, 3} and no edges; the final erasure of edge (1,2) changes nothing.
   */
  lemma DriverScenario()
    ensures Run(Empty, DriverSetup) == Graph({1, 2, 3}, {(1, 2), (2, 1), (2, 3), (3, 2)})
    ensures Run(Empty, DriverSetup + [EraseVertexOp(2)]) == Graph({1, 3}, {})
    ensures Run(Empty, DriverSetup + [EraseVertexOp(2), EraseEdgeOp(1, 2)]) == Graph({1, 3}, {})
  {
    var g0 := Graph({1, 2, 3}, {(1, 2), (2, 1), (2, 3), (3, 2)});
    assert Run(Empty, DriverSetup) == g0 by {
      RunOne(Empty, DriverSetup);
      RunOne(InsertVertex(Empty, 1), DriverSetup[1..]);
      RunOne(Graph({1, 2}, {}), DriverSetup[2..]);
      RunOne(Graph({1, 2, 3}, {}), DriverSetup[3..]);
      RunOne(Graph({1, 2, 3}, {(1, 2), (2, 1)}), DriverSetup[4..]);
    }
    var g1 := EraseVertex(g0, 2);
    assert g1 == Graph({1, 3}, {});
    RunAppend(Empty, DriverSetup, [EraseVertexOp(2)]);
    RunAppend(Empty, DriverSetup, [EraseVertexOp(2), EraseEdgeOp(1, 2)]);
    RunOne(g0, [EraseVertexOp(2), EraseEdgeOp(1, 2)]);
    RunOne(g1, [EraseEdgeOp(1, 2)]);
    assert EraseEdge(g1, 1, 2) == g1;
  }

  /** Unfolds one step of Run. */
  lemma RunOne(g: Graph, ops: seq<Op>)
    requires |ops| > 0
    ensures Run(g, ops) == Run(Apply(g, ops[0]), ops[1..])
  {
  }

  /** Running two sequences of calls one after the other is running their concatenation. */
  lemma {:induction false} RunAppend(g: Graph, xs: seq<Op>, ys: seq<Op>)
    ensures Run(g, xs + ys) == Run(Run(g, xs), ys)
    decreases |xs|
  {
    if |xs| == 0 {
      assert xs + ys == ys;
    } else {
      assert (xs + ys)[1..] == xs[1..] + ys;
      RunAppend(Apply(g, xs[0]), xs[1..], ys);
    }
  }
}
