/**
 * The adjacency of the road graph as a value: each vertex's outgoing and
 * incoming edge sets and each edge's two ends. linkReduce's splices
 * (network.py:84-98) are functions on it here, and the methods of the `Net`
 * class that splice in place are proved against these functions.
 */
module Splicing {
  import opened Elements

  /** Every vertex's edge sets and every edge's ends, as the vertex and edge fields hold them. */
  datatype Graph = Graph(outs: map<Vertex, set<Edge>>, ins: map<Vertex, set<Edge>>,
                         src: map<Edge, Vertex>, tgt: map<Edge, Vertex>)

  /** The outgoing edges of `v`; none for a vertex the snapshot does not hold. */
  function Outs(g: Graph, v: Vertex): set<Edge>
  {
    if v in g.outs then g.outs[v] else {}
  }

  /** The incoming edges of `v`; none for a vertex the snapshot does not hold. */
  function Ins(g: Graph, v: Vertex): set<Edge>
  {
    if v in g.ins then g.ins[v] else {}
  }

  /** The graph with every edge turned round. */
  function Flip(g: Graph): Graph
  {
    Graph(g.ins, g.outs, g.tgt, g.src)
  }

  /** The edges a forward splice of `edge` moves: those leaving its target. */
  function Moved(g: Graph, edge: Edge): set<Edge>
  {
    if edge in g.tgt then Outs(g, g.tgt[edge]) else {}
  }

  /**
   * network.py:86-90, one forward splice: the edges leaving the connector's
   * target now leave `node`, and the connector no longer does.
   */
  function SpliceOut(g: Graph, node: Vertex, edge: Edge): Graph
  {
    var moved := Moved(g, edge);
    g.(outs := g.outs[node := (Outs(g, node) + moved) - {edge}],
       src := map e | e in g.src :: if e in moved then node else g.src[e])
  }

  /**
   * network.py:93-97, one backward splice: the edges entering the
   * connector's source now enter `node`, and the connector no longer does.
   * It is the forward splice of the turned-round graph.
   */
  function SpliceIn(g: Graph, node: Vertex, edge: Edge): Graph
  {
    Flip(SpliceOut(Flip(g), node, edge))
  }

  /** Forward splices of `cands` at `node`, in list order. */
  function SpliceOutAll(g: Graph, node: Vertex, cands: seq<Edge>): Graph
  {
    if cands == [] then g
    else SpliceOut(SpliceOutAll(g, node, cands[..|cands| - 1]), node, cands[|cands| - 1])
  }

  /** Backward splices of `cands` at `node`, in list order. */
  function SpliceInAll(g: Graph, node: Vertex, cands: seq<Edge>): Graph
  {
    Flip(SpliceOutAll(Flip(g), node, cands))
  }

  /** One more forward splice at the end of the list. */
  lemma SpliceOutAllSnoc(g: Graph, node: Vertex, cands: seq<Edge>, k: nat)
    requires k < |cands|
    ensures SpliceOutAll(g, node, cands[..k + 1]) == SpliceOut(SpliceOutAll(g, node, cands[..k]), node, cands[k])
  {
    assert cands[..k + 1][..k] == cands[..k];
  }

  /** One more backward splice at the end of the list. */
  lemma SpliceInAllSnoc(g: Graph, node: Vertex, cands: seq<Edge>, k: nat)
    requires k < |cands|
    ensures SpliceInAll(g, node, cands[..k + 1]) == SpliceIn(SpliceInAll(g, node, cands[..k]), node, cands[k])
  {
    SpliceOutAllSnoc(Flip(g), node, cands, k);
    assert Flip(Flip(SpliceOutAll(Flip(g), node, cands[..k]))) == SpliceOutAll(Flip(g), node, cands[..k]);
  }

  /** What one forward splice changes: `node`'s outgoing edges and the sources of the moved edges. */
  lemma SpliceOutStep(g: Graph, node: Vertex, edge: Edge)
    ensures var r := SpliceOut(g, node, edge);
      && r.ins == g.ins && r.tgt == g.tgt && r.src.Keys == g.src.Keys
      && (forall v :: v != node ==> Outs(r, v) == Outs(g, v))
      && Outs(r, node) == (Outs(g, node) + Moved(g, edge)) - {edge}
      && (forall l :: l in g.src ==> r.src[l] == if l in Moved(g, edge) then node else g.src[l])
  {
  }

  /** Forward splices leave every edge's target where it was. */
  lemma {:induction false} SpliceOutAllTargets(g: Graph, node: Vertex, cands: seq<Edge>)
    ensures SpliceOutAll(g, node, cands).tgt == g.tgt
  {
    if cands != [] {
      SpliceOutAllTargets(g, node, cands[..|cands| - 1]);
    }
  }

  /** Backward splices leave every edge's source where it was. */
  lemma SpliceInAllSources(g: Graph, node: Vertex, cands: seq<Edge>)
    ensures SpliceInAll(g, node, cands).src == g.src
  {
    SpliceOutAllTargets(Flip(g), node, cands);
  }

  /** The edges some forward splice of `cands` moves, each taken from the graph as it is at that splice. */
  function MovedAll(g: Graph, node: Vertex, cands: seq<Edge>): set<Edge>
  {
    if cands == [] then {}
    else
      var front := cands[..|cands| - 1];
      MovedAll(g, node, front) + Moved(SpliceOutAll(g, node, front), cands[|cands| - 1])
  }

  /**
   * Forward splices change only `node`'s outgoing edges and the sources of
   * the edges they move: every other vertex's edge sets and every edge's
   * target stay as they were; an edge known to the graph starts at `node`
   * afterwards exactly when some splice moved it, and otherwise keeps its
   * source.
   */
  lemma {:induction false} SpliceOutAllMeaning(g: Graph, node: Vertex, cands: seq<Edge>)
    ensures var r := SpliceOutAll(g, node, cands);
      && r.ins == g.ins && r.tgt == g.tgt && r.src.Keys == g.src.Keys
      && (forall v :: v != node ==> Outs(r, v) == Outs(g, v))
      && (forall l :: l in g.src ==> r.src[l] == if l in MovedAll(g, node, cands) then node else g.src[l])
  {
    if cands != [] {
      var front := cands[..|cands| - 1];
      SpliceOutAllMeaning(g, node, front);
      SpliceOutStep(SpliceOutAll(g, node, front), node, cands[|cands| - 1]);
    }
  }

  /**
   * After forward splices an edge that is no connector leaves `node` exactly
   * when it did before or some splice moved it; a connector that no splice
   * moved no longer leaves `node`.
   */
  lemma {:induction false} SpliceOutAllOuts(g: Graph, node: Vertex, cands: seq<Edge>)
    ensures var r := SpliceOutAll(g, node, cands);
      && (forall l :: l !in cands ==> (l in Outs(r, node) <==> l in Outs(g, node) || l in MovedAll(g, node, cands)))
      && (forall l :: l in cands && l !in MovedAll(g, node, cands) ==> l !in Outs(r, node))
  {
    if cands != [] {
      var front, last := cands[..|cands| - 1], cands[|cands| - 1];
      assert cands == front + [last];
      SpliceOutAllOuts(g, node, front);
      SpliceOutStep(SpliceOutAll(g, node, front), node, last);
    }
  }

  /** The edges some backward splice of `cands` moves. */
  function MovedInAll(g: Graph, node: Vertex, cands: seq<Edge>): set<Edge>
  {
    MovedAll(Flip(g), node, cands)
  }

  /**
   * Backward splices change only `node`'s incoming edges and the targets of
   * the edges they move: an edge that is no connector enters `node`
   * afterwards exactly when it did before or some splice moved it, a
   * connector that no splice moved no longer enters `node`, an edge known to
   * the graph ends at `node` exactly when some splice moved it, and nothing
   * else changes.
   */
  lemma SpliceInAllMeaning(g: Graph, node: Vertex, cands: seq<Edge>)
    ensures var r := SpliceInAll(g, node, cands);
      && r.outs == g.outs && r.src == g.src && r.tgt.Keys == g.tgt.Keys
      && (forall v :: v != node ==> Ins(r, v) == Ins(g, v))
      && (forall l :: l in g.tgt ==> r.tgt[l] == if l in MovedInAll(g, node, cands) then node else g.tgt[l])
      && (forall l :: l !in cands ==> (l in Ins(r, node) <==> l in Ins(g, node) || l in MovedInAll(g, node, cands)))
      && (forall l :: l in cands && l !in MovedInAll(g, node, cands) ==> l !in Ins(r, node))
  {
    SpliceOutAllMeaning(Flip(g), node, cands);
    SpliceOutAllOuts(Flip(g), node, cands);
    var r := SpliceOutAll(Flip(g), node, cands);
    assert forall v :: Ins(Flip(r), v) == Outs(r, v) && Outs(Flip(g), v) == Ins(g, v);
  }

  /** The ends `ends` gives the edges of `cands`, in order; an edge it does not know contributes nothing. */
  function Ends(ends: map<Edge, Vertex>, cands: seq<Edge>): seq<Vertex>
  {
    if cands == [] then []
    else
      var last := cands[|cands| - 1];
      Ends(ends, cands[..|cands| - 1]) + (if last in ends then [ends[last]] else [])
  }

  /** One more edge at the end of the list. */
  lemma EndsSnoc(ends: map<Edge, Vertex>, cands: seq<Edge>, k: nat)
    requires k < |cands|
    ensures Ends(ends, cands[..k + 1]) == Ends(ends, cands[..k]) + (if cands[k] in ends then [ends[cands[k]]] else [])
  {
    assert cands[..k + 1][..k] == cands[..k];
  }

  /** When `ends` knows every edge of the list, `Ends` holds the end of each, position by position. */
  lemma {:induction false} EndsMeaning(ends: map<Edge, Vertex>, cands: seq<Edge>)
    requires forall e :: e in cands ==> e in ends
    ensures |Ends(ends, cands)| == |cands|
    ensures forall i :: 0 <= i < |cands| ==> Ends(ends, cands)[i] == ends[cands[i]]
  {
    if cands != [] {
      var front := cands[..|cands| - 1];
      assert forall e :: e in front ==> e in cands;
      EndsMeaning(ends, front);
    }
  }
}
