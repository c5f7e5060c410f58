/**
 * The entities the network engine works on: vertices, edges, k-path labels and
 * paths. Their classes belong to the system's `elements` file, which is not part
 * of this model; only the fields that `Net` reads or writes are kept, and the
 * three operations `Net` calls on them (Vertex.update, Path.getPathLength and
 * Path.updateSumOverlap) take their inner formula from the caller.
 */
module Elements {

  /** The kind tag of an edge that has a real-world identity; any other tag is a connector. */
  const RealKind: string := "real"

  /** A fresh vertex's name: its index, in decimal. */
  function DecimalString(n: nat): string
  {
    var digit := "0123456789"[n % 10];
    if n < 10 then [digit] else DecimalString(n / 10) + [digit]
  }

  /**
   * A k-path label (elements.Predecessor): the origin's label has no edge and no
   * predecessor; every other label records the edge it arrived by, the label it
   * extends at that edge's source, and its cost.
   */
  datatype Pred =
    | Origin(distance: real)
    | Label(edge: Edge, pred: Pred, distance: real)

  /**
   * The label merge inside Vertex.update: from k, the target's labels, the
   * labels at the edge's source and the edge, the target's new labels.
   */
  type LabelMerge = (nat, seq<Pred>, seq<Pred>, Edge) -> seq<Pred>

  /** The overlap term Path.updateSumOverlap adds for (own edges, other path's edges, gamma). */
  type OverlapTerm = (seq<Edge>, seq<Edge>, real) -> real

  /** The length Path.getPathLength computes from a path's edges. */
  type LengthOf = seq<Edge> -> real

  // `label` is a reserved word in Dafny; the Python attribute `label` is `name` here.
  class Vertex {
    const num: nat
    const name: string
    var inEdges: set<Edge>
    var outEdges: set<Edge>
    var preds: seq<Pred>
    var wasUpdated: bool

    constructor (num: nat)
      ensures this.num == num && name == DecimalString(num)
      ensures inEdges == {} && outEdges == {} && preds == [] && !wasUpdated
    {
      this.num := num;
      name := DecimalString(num);
      inEdges, outEdges := {}, {};
      preds, wasUpdated := [], false;
    }

    /**
     * Relaxes `edge` into this vertex: merges the labels at the edge's source
     * into this vertex's labels. Answers whether the vertex must be queued: its
     * labels changed and it was not already pending.
     */
    method Update(kPaths: nat, edge: Edge, merge: LabelMerge) returns (enqueue: bool)
      modifies this`preds, this`wasUpdated
      ensures var merged := merge(kPaths, old(preds), old(edge.source.preds), edge);
        if merged != old(preds) then
          preds == merged && wasUpdated && enqueue == !old(wasUpdated)
        else
          preds == old(preds) && wasUpdated == old(wasUpdated) && !enqueue
    {
      var merged := merge(kPaths, preds, edge.source.preds, edge);
      if merged != preds {
        enqueue := !wasUpdated;
        preds := merged;
        wasUpdated := true;
      } else {
        enqueue := false;
      }
    }
  }

  class Edge {
    const name: string
    const kind: string
    var source: Vertex
    var target: Vertex
    /** The travel times are set outside the net (elements.Edge and the readers); Net only reads them. */
    const freeflowtime: real
    const actualtime: real

    constructor (name: string, source: Vertex, target: Vertex, kind: string)
      ensures this.name == name && this.kind == kind
      ensures this.source == source && this.target == target
    {
      this.name, this.kind := name, kind;
      this.source, this.target := source, target;
    }

    predicate IsReal()
    {
      kind == RealKind
    }
  }

  /**
   * A path of an OD pair, as a value: its ends, its edges, and the figures the
   * assignment keeps for it. Each Python path object is held by exactly one
   * list of the path table, so a list of values carries the same information.
   */
  datatype Path = Path(
    source: Vertex, target: Vertex, edges: seq<Edge>,
    length: real, freepathtime: real, actpathtime: real, pathhelpacttime: real,
    sumOverlap: real, usedcounts: int, currentshortest: bool)

  /** A path as the Path constructor leaves it: no figures yet, used once, the current shortest. */
  function NewPath(source: Vertex, target: Vertex, edges: seq<Edge>): Path
  {
    Path(source, target, edges, 0.0, 0.0, 0.0, 0.0, 0.0, 1, true)
  }

  /** Path.getPathLength: the path with its length computed from its edges. */
  function GetPathLength(p: Path, lengthOf: LengthOf): Path
  {
    p.(length := lengthOf(p.edges))
  }

  /** Path.updateSumOverlap: the path with its overlap with `other` added to its running sum. */
  function UpdateSumOverlap(p: Path, other: Path, gamma: real, overlap: OverlapTerm): Path
  {
    p.(sumOverlap := p.sumOverlap + overlap(p.edges, other.edges, gamma))
  }

  /** Two path lists with the same edge lists, position by position. */
  ghost predicate SameEdges(a: seq<Path>, b: seq<Path>)
  {
    |a| == |b| && forall i :: 0 <= i < |a| ==> a[i].edges == b[i].edges
  }
}
