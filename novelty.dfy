/**
 * Net.checkSmallDiff (network.py:162-175): decides whether a candidate route
 * is new for an OD (origin-destination) pair, by comparing it with the pair's
 * existing paths in list order. It answers the pair (newPath, smallDiffPath).
 */
module Novelty {
  import opened Wrappers
  import opened Elements

  /** How one existing path judges the candidate; the first verdict other than Differs decides. */
  datatype Verdict =
    | Identical     // same edge list: (False, False)
    | NearlySame    // passes both closeness tests: (False, True)
    | ZeroDivision  // the existing path has no edges: Python 2 raises ZeroDivisionError
    | Differs       // go on with the next path

  /** How many of `edges` (counted with repetition) lie on the candidate. */
  function SharedEdgeCount(edges: seq<Edge>, candidate: set<Edge>): (n: nat)
    ensures n <= |edges|
    ensures n == 0 <==> forall i :: 0 <= i < |edges| ==> edges[i] !in candidate
  {
    if edges == [] then 0
    else SharedEdgeCount(edges[..|edges| - 1], candidate) + (if edges[|edges| - 1] in candidate then 1 else 0)
  }

  /** The summed current travel time of those of `edges` that lie on the candidate. */
  function SharedTravelTime(edges: seq<Edge>, candidate: set<Edge>): real
  {
    if edges == [] then 0.0
    else
      var last := edges[|edges| - 1];
      SharedTravelTime(edges[..|edges| - 1], candidate) + (if last in candidate then last.actualtime else 0.0)
  }

  /** network.py:167-172: counts and times the edges of an existing path that lie on the candidate. */
  method CountShared(edges: seq<Edge>, candidate: set<Edge>) returns (sameEdgeCount: nat, sameTravelTime: real)
    ensures sameEdgeCount == SharedEdgeCount(edges, candidate)
    ensures sameTravelTime == SharedTravelTime(edges, candidate)
  {
    sameEdgeCount, sameTravelTime := 0, 0.0;
    for i := 0 to |edges|
      invariant sameEdgeCount == SharedEdgeCount(edges[..i], candidate)
      invariant sameTravelTime == SharedTravelTime(edges[..i], candidate)
    {
      assert edges[..i + 1][..i] == edges[..i];
      if edges[i] in candidate {
        sameEdgeCount := sameEdgeCount + 1;
        sameTravelTime := sameTravelTime + edges[i].actualtime;
      }
    }
    assert edges[..|edges|] == edges;
  }

  function Abs(x: int): nat
  {
    if x < 0 then -x else x
  }

  function RealAbs(x: real): real
  {
    if x < 0.0 then -x else x
  }

  /** Python 2's `/` on two non-negative ints: floor division. */
  function FloorDiv(a: nat, b: nat): nat
    requires b > 0
    decreases a
  {
    if a < b then 0 else 1 + FloorDiv(a - b, b)
  }

  /**
   * The left conjunct of line 173, `abs(sameEdgeCount - len(path.edges)) /
   * len(path.edges) <= 0.1`, a floor division of two ints compared with 0.1.
   */
  function EdgeFractionTest(sameEdgeCount: nat, pathLength: nat): bool
    requires pathLength > 0
  {
    FloorDiv(Abs(sameEdgeCount - pathLength), pathLength) as real <= 0.1
  }

  /**
   * Because the division is on integers, the "at most 10% of the edges differ"
   * test only asks whether the paths share at least one edge.
   */
  lemma EdgeFractionTestIsSharing(sameEdgeCount: nat, pathLength: nat)
    requires 0 < pathLength && sameEdgeCount <= pathLength
    ensures EdgeFractionTest(sameEdgeCount, pathLength) <==> sameEdgeCount > 0
  {
    if sameEdgeCount > 0 {
      assert Abs(sameEdgeCount - pathLength) < pathLength;
      assert FloorDiv(Abs(sameEdgeCount - pathLength), pathLength) == 0;
    } else {
      assert FloorDiv(pathLength - pathLength, pathLength) == 0;
      assert FloorDiv(Abs(sameEdgeCount - pathLength), pathLength) == 1;
    }
  }

  /** One iteration of the loop at line 163 on existing path `p`. */
  function VerdictOf(p: Path, helpPath: seq<Edge>, helpPathSet: set<Edge>, pathcost: real): Verdict
  {
    if p.edges == helpPath then Identical
    else if |p.edges| == 0 then ZeroDivision
    else if EdgeFractionTest(SharedEdgeCount(p.edges, helpPathSet), |p.edges|)
         && RealAbs(SharedTravelTime(p.edges, helpPathSet) / 3600.0 - pathcost) <= 0.05
    then NearlySame
    else Differs
  }

  /**
   * The answer of Net.checkSmallDiff. None stands for the ZeroDivisionError
   * raised when an existing path with no edges is reached before any decision.
   */
  function SmallDiff(odPaths: seq<Path>, helpPath: seq<Edge>, helpPathSet: set<Edge>, pathcost: real)
    : (r: Option<(bool, bool)>)
    ensures r != Some((true, true))
    ensures odPaths == [] ==> r == Some((true, false))
  {
    if odPaths == [] then Some((true, false))
    else
      match VerdictOf(odPaths[0], helpPath, helpPathSet, pathcost)
      case Identical => Some((false, false))
      case NearlySame => Some((false, true))
      case ZeroDivision => None
      case Differs => SmallDiff(odPaths[1..], helpPath, helpPathSet, pathcost)
  }

  /** The answer a deciding verdict gives. */
  function Answer(v: Verdict): Option<(bool, bool)>
    requires v != Differs
  {
    match v
    case Identical => Some((false, false))
    case NearlySame => Some((false, true))
    case ZeroDivision => None
  }

  /**
   * network.py:162-175: scans the existing paths in list order; an identical
   * edge list answers (False, False), a path passing both closeness tests
   * (False, True), and a path with no edges fails the division.
   */
  method CheckSmallDiff(odPaths: seq<Path>, helpPath: seq<Edge>, helpPathSet: set<Edge>, pathcost: real)
    returns (r: Option<(bool, bool)>)
    ensures r == SmallDiff(odPaths, helpPath, helpPathSet, pathcost)
  {
    for i := 0 to |odPaths|
      invariant forall j :: 0 <= j < i ==> VerdictOf(odPaths[j], helpPath, helpPathSet, pathcost) == Differs
    {
      var path := odPaths[i];
      ghost var verdict := VerdictOf(path, helpPath, helpPathSet, pathcost);
      if path.edges == helpPath {
        FirstVerdictDecides(odPaths, helpPath, helpPathSet, pathcost, i);
        return Some((false, false));
      }
      var sameEdgeCount, sameTravelTime := CountShared(path.edges, helpPathSet);
      if |path.edges| == 0 {
        FirstVerdictDecides(odPaths, helpPath, helpPathSet, pathcost, i);
        return None;
      }
      if EdgeFractionTest(sameEdgeCount, |path.edges|) && RealAbs(sameTravelTime / 3600.0 - pathcost) <= 0.05 {
        assert verdict == NearlySame;
        FirstVerdictDecides(odPaths, helpPath, helpPathSet, pathcost, i);
        return Some((false, true));
      }
      assert verdict == Differs;
    }
    NewExactlyWhenAllDiffer(odPaths, helpPath, helpPathSet, pathcost);
    return Some((true, false));
  }

  /**
   * The paths are scanned in list order and the first path whose verdict is not
   * Differs decides the answer.
   */
  lemma {:induction false} FirstVerdictDecides(odPaths: seq<Path>, helpPath: seq<Edge>, helpPathSet: set<Edge>, pathcost: real, i: nat)
    requires i < |odPaths|
    requires forall j :: 0 <= j < i ==> VerdictOf(odPaths[j], helpPath, helpPathSet, pathcost) == Differs
    requires VerdictOf(odPaths[i], helpPath, helpPathSet, pathcost) != Differs
    ensures SmallDiff(odPaths, helpPath, helpPathSet, pathcost)
         == Answer(VerdictOf(odPaths[i], helpPath, helpPathSet, pathcost))
  {
    if i > 0 {
      assert odPaths[1..][i - 1] == odPaths[i];
      FirstVerdictDecides(odPaths[1..], helpPath, helpPathSet, pathcost, i - 1);
    }
  }

  /** The candidate is new exactly when every existing path's verdict is Differs. */
  lemma {:induction false} NewExactlyWhenAllDiffer(odPaths: seq<Path>, helpPath: seq<Edge>, helpPathSet: set<Edge>, pathcost: real)
    ensures SmallDiff(odPaths, helpPath, helpPathSet, pathcost) == Some((true, false))
        <==> forall j :: 0 <= j < |odPaths| ==> VerdictOf(odPaths[j], helpPath, helpPathSet, pathcost) == Differs
  {
    if odPaths != [] {
      NewExactlyWhenAllDiffer(odPaths[1..], helpPath, helpPathSet, pathcost);
      assert forall j :: 1 <= j < |odPaths| ==> odPaths[1..][j - 1] == odPaths[j];
    }
  }

  /** A candidate judged new repeats no existing path's edge list. */
  lemma NewPathIsNoDuplicate(odPaths: seq<Path>, helpPath: seq<Edge>, helpPathSet: set<Edge>, pathcost: real)
    requires SmallDiff(odPaths, helpPath, helpPathSet, pathcost) == Some((true, false))
    ensures forall j :: 0 <= j < |odPaths| ==> odPaths[j].edges != helpPath
  {
    NewExactlyWhenAllDiffer(odPaths, helpPath, helpPathSet, pathcost);
  }

  /**
   * If the first path that is not Differs repeats the candidate's edge list,
   * the answer is (False, False).
   */
  lemma IdenticalPathIsNotNew(odPaths: seq<Path>, helpPath: seq<Edge>, helpPathSet: set<Edge>, pathcost: real, i: nat)
    requires i < |odPaths| && odPaths[i].edges == helpPath
    requires forall j :: 0 <= j < i ==> VerdictOf(odPaths[j], helpPath, helpPathSet, pathcost) == Differs
    ensures SmallDiff(odPaths, helpPath, helpPathSet, pathcost) == Some((false, false))
  {
    FirstVerdictDecides(odPaths, helpPath, helpPathSet, pathcost, i);
  }

  /**
   * With the candidate's own edge set, a non-identical existing path that shares
   * an edge with it and is within 0.05 hours of its cost makes it (False, True).
   */
  lemma NearlySameWhenSharing(p: Path, helpPath: seq<Edge>, pathcost: real)
    requires p.edges != helpPath && |p.edges| > 0
    requires exists i :: 0 <= i < |p.edges| && p.edges[i] in helpPath
    requires RealAbs(SharedTravelTime(p.edges, (set e | e in helpPath)) / 3600.0 - pathcost) <= 0.05
    ensures VerdictOf(p, helpPath, (set e | e in helpPath), pathcost) == NearlySame
  {
    var n := SharedEdgeCount(p.edges, (set e | e in helpPath));
    EdgeFractionTestIsSharing(n, |p.edges|);
  }

  /** The answer depends on the existing paths' edge lists only, not on their figures. */
  lemma {:induction false} SmallDiffEdgesOnly(a: seq<Path>, b: seq<Path>, helpPath: seq<Edge>, helpPathSet: set<Edge>, pathcost: real)
    requires SameEdges(a, b)
    ensures SmallDiff(a, helpPath, helpPathSet, pathcost) == SmallDiff(b, helpPath, helpPathSet, pathcost)
  {
    if a != [] {
      assert SameEdges(a[1..], b[1..]) by {
        forall i | 0 <= i < |a[1..]| ensures a[1..][i].edges == b[1..][i].edges {
          assert a[1..][i] == a[i + 1] && b[1..][i] == b[i + 1];
        }
      }
      SmallDiffEdgesOnly(a[1..], b[1..], helpPath, helpPathSet, pathcost);
      assert a[0].edges == b[0].edges;
    }
  }
}
