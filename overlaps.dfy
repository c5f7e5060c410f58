/**
 * The bookkeeping both route generators do when they file a new path for an
 * OD pair (network.py:212-219 and 277-284): the new path is appended, its
 * length is computed, and the overlap sums of the new path and of every older
 * path of the pair are updated in both directions.
 */
module Overlaps {
  import opened Elements

  /** The overlap terms of `route` against each of `others`, summed in list order. */
  function OverlapWith(route: seq<Edge>, others: seq<Path>, gamma: real, overlap: OverlapTerm): real
  {
    if others == [] then 0.0
    else OverlapWith(route, others[..|others| - 1], gamma, overlap) + overlap(route, others[|others| - 1].edges, gamma)
  }

  /** Only the other paths' edge lists enter the overlap sum. */
  lemma {:induction false} OverlapWithEdgesOnly(route: seq<Edge>, a: seq<Path>, b: seq<Path>, gamma: real, overlap: OverlapTerm)
    requires SameEdges(a, b)
    ensures OverlapWith(route, a, gamma, overlap) == OverlapWith(route, b, gamma, overlap)
  {
    if a != [] {
      assert SameEdges(a[..|a| - 1], b[..|b| - 1]);
      OverlapWithEdgesOnly(route, a[..|a| - 1], b[..|b| - 1], gamma, overlap);
    }
  }

  /**
   * network.py:215-216 and 280-281: every path of the list adds its overlap
   * with the new path.
   */
  method AddOverlapWith(ps: seq<Path>, newpath: Path, gamma: real, overlap: OverlapTerm) returns (r: seq<Path>)
    ensures |r| == |ps|
    ensures forall i :: 0 <= i < |ps| ==>
      r[i] == ps[i].(sumOverlap := ps[i].sumOverlap + overlap(ps[i].edges, newpath.edges, gamma))
  {
    r := ps;
    for i := 0 to |r|
      invariant |r| == |ps|
      invariant forall j :: 0 <= j < i ==>
        r[j] == ps[j].(sumOverlap := ps[j].sumOverlap + overlap(ps[j].edges, newpath.edges, gamma))
      invariant forall j :: i <= j < |r| ==> r[j] == ps[j]
    {
      r := r[i := UpdateSumOverlap(r[i], newpath, gamma, overlap)];
    }
  }

  /** network.py:217-219 and 282-284: the new path adds its overlap with each of the older paths. */
  method AddOverlapsOf(newpath: Path, older: seq<Path>, gamma: real, overlap: OverlapTerm) returns (r: Path)
    ensures r == newpath.(sumOverlap := newpath.sumOverlap + OverlapWith(newpath.edges, older, gamma, overlap))
  {
    r := newpath;
    for i := 0 to |older|
      invariant r == newpath.(sumOverlap := newpath.sumOverlap + OverlapWith(newpath.edges, older[..i], gamma, overlap))
    {
      assert older[..i + 1][..i] == older[..i];
      r := UpdateSumOverlap(r, older[i], gamma, overlap);
    }
    assert older[..|older|] == older;
  }

  /**
   * network.py:212-219 and 277-284: the pair's list with a new path for
   * `route` appended, its length computed. Every path of the list, the new
   * one included, adds its overlap with the new route, and the new path adds
   * its overlap with each of the older ones.
   */
  method JoinNewPath(s: Vertex, t: Vertex, route: seq<Edge>, older: seq<Path>, gamma: real,
                     overlap: OverlapTerm, lengthOf: LengthOf) returns (ps: seq<Path>)
    ensures |ps| == |older| + 1
    ensures forall i :: 0 <= i < |older| ==>
      ps[i] == older[i].(sumOverlap := older[i].sumOverlap + overlap(older[i].edges, route, gamma))
    ensures ps[|older|] == NewPath(s, t, route).(length := lengthOf(route),
      sumOverlap := overlap(route, route, gamma) + OverlapWith(route, older, gamma, overlap))
  {
    var newpath := NewPath(s, t, route);
    ps := older + [newpath];
    newpath := GetPathLength(newpath, lengthOf);
    ps := ps[|older| := newpath];
    ps := AddOverlapWith(ps, newpath, gamma, overlap);
    assert SameEdges(ps[..|older|], older);
    OverlapWithEdgesOnly(route, ps[..|older|], older, gamma, overlap);
    newpath := AddOverlapsOf(ps[|older|], ps[..|older|], gamma, overlap);
    ps := ps[|older| := newpath];
  }

}
