/**
 * What findNewPath and calcKPaths (network.py:177-289) do to the table of
 * paths, as values: one OD pair's list update, and the runs over a demand
 * row and over the whole demand matrix, which stop at the first pair that
 * raises.
 */
module Searches {
  import opened Wrappers
  import opened Elements
  import opened Routes
  import opened Novelty
  import opened PathTable
  import opened Overlaps
  import opened KPathSets

  /** network.py:198-199: no path of the list is the current shortest any more. */
  method ClearShortest(ps: seq<Path>) returns (r: seq<Path>)
    ensures |r| == |ps|
    ensures forall i :: 0 <= i < |ps| ==> r[i] == ps[i].(currentshortest := false)
  {
    r := ps;
    for i := 0 to |r|
      invariant |r| == |ps|
      invariant forall j :: 0 <= j < i ==> r[j] == ps[j].(currentshortest := false)
      invariant forall j :: i <= j < |r| ==> r[j] == ps[j]
    {
      r := r[i := r[i].(currentshortest := false)];
    }
  }

  /**
   * network.py:210-226: files a new path for `route` at the end of the list,
   * with its overlaps, its cost as the current travel time (the helper field
   * under Lohse's procedure) and its free-flow time summed over its edges.
   */
  method FileNewPath(s: Vertex, t: Vertex, odPaths: seq<Path>, route: seq<Edge>, pathcost: real, lohse: bool,
                     gamma: real, overlap: OverlapTerm, lengthOf: LengthOf) returns (ps: seq<Path>)
    ensures ps == Joined(s, t, odPaths, route, pathcost, lohse, gamma, overlap, lengthOf)
  {
    ps := JoinNewPath(s, t, route, odPaths, gamma, overlap, lengthOf);
    var newpath := ps[|odPaths|];
    if lohse {
      newpath := newpath.(pathhelpacttime := pathcost);
    } else {
      newpath := newpath.(actpathtime := pathcost);
    }
    var total := SumFreeFlow(newpath.edges);
    newpath := newpath.(freepathtime := newpath.freepathtime + total);
    ps := ps[|odPaths| := newpath];
    ghost var spec := Joined(s, t, odPaths, route, pathcost, lohse, gamma, overlap, lengthOf);
    assert |ps| == |spec|;
    forall i | 0 <= i < |ps| ensures ps[i] == spec[i] {
    }
  }

  /** What one OD pair's search does to the pair's list, and the two flags findNewPath reports. */
  datatype Outcome = Outcome(list: seq<Path>, added: bool, ok: bool)

  /** The list with no path the current shortest. */
  function Cleared(ps: seq<Path>): (r: seq<Path>)
    ensures |r| == |ps| && forall i :: 0 <= i < |ps| ==> r[i] == ps[i].(currentshortest := false)
  {
    seq(|ps|, i requires 0 <= i < |ps| => ps[i].(currentshortest := false))
  }

  /**
   * The list with a new path for `route` filed last (network.py:210-226):
   * the older paths add their overlap with it; the new one gets its length,
   * its overlap sum, the route's cost as its current travel time (the helper
   * field under Lohse's procedure) and the route's free-flow time.
   */
  ghost function Joined(s: Vertex, t: Vertex, older: seq<Path>, route: seq<Edge>, pathcost: real, lohse: bool,
                        gamma: real, overlap: OverlapTerm, lengthOf: LengthOf): seq<Path>
  {
    var newpath := NewPath(s, t, route).(length := lengthOf(route), freepathtime := FreeFlowTime(route),
      actpathtime := if lohse then 0.0 else pathcost, pathhelpacttime := if lohse then pathcost else 0.0,
      sumOverlap := overlap(route, route, gamma) + OverlapWith(route, older, gamma, overlap));
    seq(|older|, i requires 0 <= i < |older| =>
      older[i].(sumOverlap := older[i].sumOverlap + overlap(older[i].edges, route, gamma)))
    + [newpath]
  }

  /** network.py:227-233: the path the route repeats is credited with it and made the current shortest. */
  function Credited(p: Path, pathcost: real, lohse: bool): Path
  {
    var p' := if lohse then p.(pathhelpacttime := pathcost) else p.(actpathtime := pathcost);
    p'.(usedcounts := p.usedcounts + 1, currentshortest := true)
  }

  /**
   * network.py:194-233 for one OD pair (s, t), given the real route of its
   * shortest path and that route's cost in hours: all flags are cleared, then
   * the comparison with the existing paths decides. A new route is filed as a
   * new path; an exact repeat credits the LAST path of the list (the Python
   * code updates the variable the clearing loop left behind, not the path it
   * found); a nearly-same route changes nothing more; a comparison that
   * divides by zero stops with the flags cleared.
   */
  ghost function PairOutcome(s: Vertex, t: Vertex, older: seq<Path>, route: seq<Edge>, pathcost: real, lohse: bool,
                             gamma: real, overlap: OverlapTerm, lengthOf: LengthOf): (r: Outcome)
    ensures var answer := SmallDiff(older, route, (set e | e in route), pathcost);
      && (r.ok <==> answer != None)
      && (r.added <==> answer == Some((true, false)))
    ensures |r.list| == |older| + (if r.added then 1 else 0)
    ensures forall i :: 0 <= i < |older| ==>
      r.list[i].source == older[i].source && r.list[i].target == older[i].target && r.list[i].edges == older[i].edges
    ensures forall i :: 0 <= i < |older| && r.list[i].currentshortest ==> !r.added && i == |older| - 1
    ensures r.added ==>
      var p := r.list[|older|];
      && p.source == s && p.target == t && p.edges == route && p.currentshortest && p.usedcounts == 1
      && forall i :: 0 <= i < |older| ==> older[i].edges != p.edges
  {
    var cleared := Cleared(older);
    match SmallDiff(older, route, (set e | e in route), pathcost)
    case None => Outcome(cleared, false, false)
    case Some((newPath, smallDiffPath)) =>
      if newPath then
        assert !smallDiffPath;
        NewPathIsNoDuplicate(older, route, (set e | e in route), pathcost);
        Outcome(Joined(s, t, cleared, route, pathcost, lohse, gamma, overlap, lengthOf), true, true)
      else if !smallDiffPath then
        Outcome(cleared[|older| - 1 := Credited(cleared[|older| - 1], pathcost, lohse)], false, true)
      else Outcome(cleared, false, true)
  }

  /**
   * The list update of network.py:194-233, as the Python code performs it:
   * clears the flags, compares, and then files a new path or credits the last
   * one.
   */
  method UpdatePairList(s: Vertex, t: Vertex, older: seq<Path>, helpPath: seq<Edge>, helpPathSet: set<Edge>,
                        pathcost: real, lohse: bool, gamma: real, overlap: OverlapTerm, lengthOf: LengthOf)
    returns (o: Outcome)
    requires helpPathSet == set e | e in helpPath
    ensures o == PairOutcome(s, t, older, helpPath, pathcost, lohse, gamma, overlap, lengthOf)
  {
    var odPaths := ClearShortest(older);
    var answer := CheckSmallDiff(odPaths, helpPath, helpPathSet, pathcost);
    assert SameEdges(odPaths, older);
    SmallDiffEdgesOnly(odPaths, older, helpPath, helpPathSet, pathcost);
    assert odPaths == Cleared(older);
    if answer == None {
      return Outcome(odPaths, false, false);
    }
    var (newPath, smallDiffPath) := answer.value;
    if newPath {
      var ps := FileNewPath(s, t, odPaths, helpPath, pathcost, lohse, gamma, overlap, lengthOf);
      assert answer == SmallDiff(odPaths, helpPath, helpPathSet, pathcost);
      assert answer != Some((true, true));
      assert answer == Some((true, false));
      assert SmallDiff(older, helpPath, helpPathSet, pathcost) == Some((true, false));
      return Outcome(ps, true, true);
    } else if !smallDiffPath {
      var path := odPaths[|odPaths| - 1];
      if lohse {
        path := path.(pathhelpacttime := pathcost);
      } else {
        path := path.(actpathtime := pathcost);
      }
      path := path.(usedcounts := path.usedcounts + 1, currentshortest := true);
      odPaths := odPaths[|odPaths| - 1 := path];
    }
    return Outcome(odPaths, false, true);
  }

  /** The pairs findNewPath searches: positive demand, and origin and destination named differently. */
  predicate Active(demand: real, s: Vertex, t: Vertex)
  {
    demand > 0.0 && s.name != t.name
  }

  /** The active pairs of origin s, one per destination its demand row asks for. */
  ghost function RowPairs(s: Vertex, ends: seq<Vertex>, demand: seq<real>): set<(Vertex, Vertex)>
  {
    set b | 0 <= b < |ends| && b < |demand| && Active(demand[b], s, ends[b]) :: (s, ends[b])
  }

  /** All active pairs of the demand matrix. */
  ghost function ActivePairs(starts: seq<Vertex>, ends: seq<Vertex>, demand: seq<seq<real>>): set<(Vertex, Vertex)>
  {
    set a, b | 0 <= a < |starts| && a < |demand| && 0 <= b < |ends| && b < |demand[a]|
      && Active(demand[a][b], starts[a], ends[b]) :: (starts[a], ends[b])
  }

  /** The pairs calcKPaths searches: a non-zero demand, and origin and destination named differently. */
  predicate KActive(demand: real, s: Vertex, t: Vertex)
  {
    demand != 0.0 && s.name != t.name
  }

  /** The pairs of origin s that calcKPaths searches. */
  ghost function KRowPairs(s: Vertex, ends: seq<Vertex>, demand: seq<real>): set<(Vertex, Vertex)>
  {
    set b | 0 <= b < |ends| && b < |demand| && KActive(demand[b], s, ends[b]) :: (s, ends[b])
  }

  /** All pairs of the demand matrix that calcKPaths searches. */
  ghost function KActivePairs(starts: seq<Vertex>, ends: seq<Vertex>, demand: seq<seq<real>>): set<(Vertex, Vertex)>
  {
    set a, b | 0 <= a < |starts| && a < |demand| && 0 <= b < |ends| && b < |demand[a]|
      && KActive(demand[a][b], starts[a], ends[b]) :: (starts[a], ends[b])
  }

  /** An origin's searched pairs are among the matrix's. */
  lemma KRowInActive(starts: seq<Vertex>, ends: seq<Vertex>, demand: seq<seq<real>>, i: nat)
    requires i < |starts|
    ensures KRowPairs(starts[i], ends, RowOf(demand, i)) <= KActivePairs(starts, ends, demand)
  {
    forall x | x in KRowPairs(starts[i], ends, RowOf(demand, i)) ensures x in KActivePairs(starts, ends, demand) {
      var b :| 0 <= b < |ends| && b < |RowOf(demand, i)| && KActive(RowOf(demand, i)[b], starts[i], ends[b])
        && x == (starts[i], ends[b]);
    }
  }

  /** No element occurs twice in `xs`. */
  predicate NoRepeats<T(==)>(xs: seq<T>)
  {
    forall i, j :: 0 <= i < j < |xs| ==> xs[i] != xs[j]
  }

  /** Row i of the demand matrix; a missing row reads as empty, so that every index into it raises. */
  function RowOf(matrix: seq<seq<real>>, i: nat): seq<real>
  {
    if i < |matrix| then matrix[i] else []
  }

  /** An origin's active pairs are among the matrix's. */
  lemma RowInActive(starts: seq<Vertex>, ends: seq<Vertex>, demand: seq<seq<real>>, i: nat)
    requires i < |starts|
    ensures RowPairs(starts[i], ends, RowOf(demand, i)) <= ActivePairs(starts, ends, demand)
  {
    forall x | x in RowPairs(starts[i], ends, RowOf(demand, i)) ensures x in ActivePairs(starts, ends, demand) {
      var b :| 0 <= b < |ends| && b < |RowOf(demand, i)| && Active(RowOf(demand, i)[b], starts[i], ends[b])
        && x == (starts[i], ends[b]);
    }
  }

  /** Where a run over OD pairs stands: the path table, the paths filed so far, and false once a pair raised. */
  datatype Run = Run(table: Table, count: nat, ok: bool)

  /** `next` has the keys of `table`, and its lists differ from `table`'s only at the pairs of `touched`. */
  ghost predicate ChangedOnly(table: Table, next: Table, touched: set<(Vertex, Vertex)>)
  {
    && next.Keys == table.Keys
    && (forall u :: u in table ==> next[u].Keys == table[u].Keys)
    && (forall u, v :: u in table && v in table[u] && (u, v) !in touched ==> next[u][v] == table[u][v])
  }

  /**
   * One origin's search result read as values: the cost of every vertex the
   * search reached, and the real route to each of them whose predecessor
   * chain leads back to the origin.
   */
  datatype Found = Found(dist: map<Vertex, real>, route: map<Vertex, seq<Edge>>)

  /** The search result `tree` of origin s as a Found: its distances, and RealRoute wherever the chain reaches s. */
  ghost function ReadTree(tree: ShortestPathTree, s: Vertex): (f: Found)
    reads tree.pred.Values
    ensures f.dist == tree.dist
  {
    Found(tree.dist, map t | t in tree.dist && Reaches(tree.pred, t, s) :: RealRoute(tree.pred, t, s))
  }

  /** A reached destination has a route in the result read from a search, and it is the real edges of the walk back. */
  lemma ReadTreeAt(tree: ShortestPathTree, s: Vertex, t: Vertex)
    ensures t in ReadTree(tree, s).route <==> t in tree.dist && Reaches(tree.pred, t, s)
    ensures t in ReadTree(tree, s).route ==> ReadTree(tree, s).route[t] == RealRoute(tree.pred, t, s)
  {
  }

  /**
   * network.py:193-233 on the table as a value: the pair (s, t) with origin
   * s's search result `found`. A destination the search did not reach, or a
   * pair missing from the table, raises KeyError and changes nothing; a
   * destination whose predecessor chain does not lead back to s raises
   * KeyError in the walk, after the flags were cleared; otherwise the pair's
   * list becomes PairOutcome's, at the route's cost in hours, and a filed
   * path is counted.
   */
  ghost function PairStep(table: Table, s: Vertex, t: Vertex, found: Found, gamma: real, lohse: bool,
                    overlap: OverlapTerm, lengthOf: LengthOf): (r: Run)
    ensures r.ok ==> t in found.dist && t in found.route && s in table && t in table[s]
  {
    if t !in found.dist || s !in table || t !in table[s] then Run(table, 0, false)
    else if t !in found.route then Run(WithList(table, s, t, Cleared(table[s][t])), 0, false)
    else
      var o := PairOutcome(s, t, table[s][t], found.route[t], found.dist[t] / 3600.0,
                           lohse, gamma, overlap, lengthOf);
      Run(WithList(table, s, t, o.list), if o.added then 1 else 0, o.ok)
  }
  /** A pair's step changes that pair's list at most. */
  lemma PairStepChanges(table: Table, s: Vertex, t: Vertex, found: Found, gamma: real, lohse: bool,
                        overlap: OverlapTerm, lengthOf: LengthOf)
    ensures ChangedOnly(table, PairStep(table, s, t, found, gamma, lohse, overlap, lengthOf).table, {(s, t)})
  {
  }


  /** PairStep of a pair the table lacks, or whose destination the search did not reach, raises and changes nothing. */
  lemma PairStepMissing(table: Table, s: Vertex, t: Vertex, found: Found, gamma: real, lohse: bool,
                        overlap: OverlapTerm, lengthOf: LengthOf)
    requires t !in found.dist || s !in table || t !in table[s]
    ensures PairStep(table, s, t, found, gamma, lohse, overlap, lengthOf) == Run(table, 0, false)
  {
  }

  /** PairStep of a pair the table has and the search reached along a chain back to s. */
  lemma PairStepFound(table: Table, s: Vertex, t: Vertex, found: Found, gamma: real, lohse: bool,
                      overlap: OverlapTerm, lengthOf: LengthOf)
    requires s in table && t in table[s] && t in found.dist && t in found.route
    ensures var o := PairOutcome(s, t, table[s][t], found.route[t], found.dist[t] / 3600.0,
                                 lohse, gamma, overlap, lengthOf);
      PairStep(table, s, t, found, gamma, lohse, overlap, lengthOf)
        == Run(WithList(table, s, t, o.list), if o.added then 1 else 0, o.ok)
  {
  }

  /** A pair's step only lengthens lists, and by the paths it counts. */
  lemma PairStepGrows(table: Table, s: Vertex, t: Vertex, found: Found, gamma: real, lohse: bool,
                      overlap: OverlapTerm, lengthOf: LengthOf)
    ensures var p := PairStep(table, s, t, found, gamma, lohse, overlap, lengthOf);
      Extends(table, p.table) && |Slots(p.table)| == |Slots(table)| + p.count
  {
    if t in found.dist && s in table && t in table[s] {
      if t !in found.route {
        SlotsSameLength(table, s, t, Cleared(table[s][t]));
        WithListExtends(table, s, t, Cleared(table[s][t]));
      } else {
        var o := PairOutcome(s, t, table[s][t], found.route[t], found.dist[t] / 3600.0,
                             lohse, gamma, overlap, lengthOf);
        PairStepFound(table, s, t, found, gamma, lohse, overlap, lengthOf);
        if o.added {
          SlotsOneLonger(table, s, t, o.list);
        } else {
          SlotsSameLength(table, s, t, o.list);
        }
        WithListExtends(table, s, t, o.list);
      }
    } else {
      PairStepMissing(table, s, t, found, gamma, lohse, overlap, lengthOf);
    }
  }

  /** Every destination origin s searches, and its search reached, has a predecessor chain back to s. */
  ghost predicate RowReaches(s: Vertex, ends: seq<Vertex>, demand: seq<real>, tree: ShortestPathTree)
    reads tree.pred.Values
  {
    forall j :: 0 <= j < |ends| && j < |demand| && Active(demand[j], s, ends[j]) && ends[j] in tree.dist ==>
      Reaches(tree.pred, ends[j], s)
  }

  /** Every destination origin s searches, and its search reached, has a route in `found`. */
  ghost predicate RowFound(s: Vertex, ends: seq<Vertex>, demand: seq<real>, found: Found)
  {
    forall j :: 0 <= j < |ends| && j < |demand| && Active(demand[j], s, ends[j]) && ends[j] in found.dist ==>
      ends[j] in found.route
  }

  /** Where every origin's search reaches back from its searched destinations, so do the results read as values. */
  lemma RowsFound(trees: seq<ShortestPathTree>, starts: seq<Vertex>, ends: seq<Vertex>, matrix: seq<seq<real>>,
                  founds: seq<Found>)
    requires |starts| <= |trees| && |starts| <= |founds|
    requires forall i :: 0 <= i < |starts| ==> RowReaches(starts[i], ends, RowOf(matrix, i), trees[i])
    requires forall i :: 0 <= i < |starts| ==> founds[i] == ReadTree(trees[i], starts[i])
    ensures forall i :: 0 <= i < |starts| ==> RowFound(starts[i], ends, RowOf(matrix, i), founds[i])
  {
    forall i, j | 0 <= i < |starts| && 0 <= j < |ends| && j < |RowOf(matrix, i)|
      && Active(RowOf(matrix, i)[j], starts[i], ends[j]) && ends[j] in founds[i].dist
      ensures ends[j] in founds[i].route
    {
      ReadTreeAt(trees[i], starts[i], ends[j]);
    }
  }

  /**
   * network.py:192-233, the destinations `ends` of origin s in order, with
   * `demand` its demand row: every active pair takes its PairStep, the
   * filed paths are counted, and the first pair that raises ends the run.
   * Only the row's active pairs change.
   */
  ghost function RowRun(table: Table, s: Vertex, ends: seq<Vertex>, demand: seq<real>, found: Found,
                  gamma: real, lohse: bool, overlap: OverlapTerm, lengthOf: LengthOf): (r: Run)
    requires |ends| <= |demand|
    decreases |ends|
  {
    if ends == [] then Run(table, 0, true)
    else
      var j := |ends| - 1;
      var r := RowRun(table, s, ends[..j], demand, found, gamma, lohse, overlap, lengthOf);
      if !r.ok || !Active(demand[j], s, ends[j]) then r
      else
        var p := PairStep(r.table, s, ends[j], found, gamma, lohse, overlap, lengthOf);
        Run(p.table, r.count + p.count, p.ok)
  }
  /** A row's run changes the lists of its active pairs at most. */
  lemma {:induction false} RowRunChanges(table: Table, s: Vertex, ends: seq<Vertex>, demand: seq<real>, found: Found,
                                         gamma: real, lohse: bool, overlap: OverlapTerm, lengthOf: LengthOf)
    requires |ends| <= |demand|
    ensures ChangedOnly(table, RowRun(table, s, ends, demand, found, gamma, lohse, overlap, lengthOf).table,
                        RowPairs(s, ends, demand))
    decreases |ends|
  {
    if ends != [] {
      var j := |ends| - 1;
      var r := RowRun(table, s, ends[..j], demand, found, gamma, lohse, overlap, lengthOf);
      RowRunChanges(table, s, ends[..j], demand, found, gamma, lohse, overlap, lengthOf);
      assert RowPairs(s, ends[..j], demand) <= RowPairs(s, ends, demand);
      if r.ok && Active(demand[j], s, ends[j]) {
        PairStepChanges(r.table, s, ends[j], found, gamma, lohse, overlap, lengthOf);
        assert (s, ends[j]) in RowPairs(s, ends, demand);
      }
    }
  }


  /** Running the row one destination further takes that destination's step, if it is active and nothing raised yet. */
  lemma RowRunNext(table: Table, s: Vertex, ends: seq<Vertex>, demand: seq<real>, found: Found,
                   gamma: real, lohse: bool, overlap: OverlapTerm, lengthOf: LengthOf, j: nat)
    requires j < |ends| <= |demand|
    ensures var r := RowRun(table, s, ends[..j], demand, found, gamma, lohse, overlap, lengthOf);
      var p := PairStep(r.table, s, ends[j], found, gamma, lohse, overlap, lengthOf);
      RowRun(table, s, ends[..j + 1], demand, found, gamma, lohse, overlap, lengthOf)
        == if !r.ok || !Active(demand[j], s, ends[j]) then r else Run(p.table, r.count + p.count, p.ok)
  {
    assert ends[..j + 1][..j] == ends[..j];
  }

  /**
   * Running the row one destination further from the table `before` the
   * earlier ones left: an active destination's step on that table is `p`;
   * an inactive one leaves the table as it is.
   */
  lemma RowRunTurn(table: Table, s: Vertex, ends: seq<Vertex>, demand: seq<real>, found: Found,
                   gamma: real, lohse: bool, overlap: OverlapTerm, lengthOf: LengthOf, j: nat,
                   before: Table, count: nat, p: Run)
    requires j < |ends| <= |demand|
    requires RowRun(table, s, ends[..j], demand, found, gamma, lohse, overlap, lengthOf) == Run(before, count, true)
    requires Active(demand[j], s, ends[j]) ==> PairStep(before, s, ends[j], found, gamma, lohse, overlap, lengthOf) == p
    requires !Active(demand[j], s, ends[j]) ==> p == Run(before, 0, true)
    ensures RowRun(table, s, ends[..j + 1], demand, found, gamma, lohse, overlap, lengthOf) == Run(p.table, count + p.count, p.ok)
  {
    if Active(demand[j], s, ends[j]) {
      RowRunNext(table, s, ends, demand, found, gamma, lohse, overlap, lengthOf, j);
    } else {
      assert ends[..j + 1][..j] == ends[..j];
    }
  }

  /** A row's run only lengthens lists, and by the paths it counts. */
  lemma {:induction false} RowRunGrows(table: Table, s: Vertex, ends: seq<Vertex>, demand: seq<real>, found: Found,
                                       gamma: real, lohse: bool, overlap: OverlapTerm, lengthOf: LengthOf)
    requires |ends| <= |demand|
    ensures var r := RowRun(table, s, ends, demand, found, gamma, lohse, overlap, lengthOf);
      Extends(table, r.table) && |Slots(r.table)| == |Slots(table)| + r.count
    decreases |ends|
  {
    if ends != [] {
      var j := |ends| - 1;
      var r := RowRun(table, s, ends[..j], demand, found, gamma, lohse, overlap, lengthOf);
      RowRunGrows(table, s, ends[..j], demand, found, gamma, lohse, overlap, lengthOf);
      if r.ok && Active(demand[j], s, ends[j]) {
        PairStepGrows(r.table, s, ends[j], found, gamma, lohse, overlap, lengthOf);
        ExtendsTransitive(table, r.table, PairStep(r.table, s, ends[j], found, gamma, lohse, overlap, lengthOf).table);
      }
    }
  }

  /** Once a pair of the row has raised, the later destinations change nothing. */
  lemma {:induction false} RowRunStops(table: Table, s: Vertex, ends: seq<Vertex>, demand: seq<real>,
                                       found: Found, gamma: real, lohse: bool,
                                       overlap: OverlapTerm, lengthOf: LengthOf, k: nat)
    requires k <= |ends| <= |demand|
    requires !RowRun(table, s, ends[..k], demand, found, gamma, lohse, overlap, lengthOf).ok
    ensures RowRun(table, s, ends, demand, found, gamma, lohse, overlap, lengthOf)
         == RowRun(table, s, ends[..k], demand, found, gamma, lohse, overlap, lengthOf)
    decreases |ends|
  {
    if k < |ends| {
      var j := |ends| - 1;
      assert ends[..j][..k] == ends[..k];
      RowRunStops(table, s, ends[..j], demand, found, gamma, lohse, overlap, lengthOf, k);
    } else {
      assert ends[..k] == ends;
    }
  }

  /**
   * With no destination listed twice, an active pair of a row that ran
   * without a raise took its PairStep on the table as it was before the
   * run, and holds the list that step makes.
   */
  lemma {:induction false} RowRunAt(table: Table, s: Vertex, ends: seq<Vertex>, demand: seq<real>,
                                    found: Found, gamma: real, lohse: bool,
                                    overlap: OverlapTerm, lengthOf: LengthOf, j: nat)
    requires |ends| <= |demand| && NoRepeats(ends) && j < |ends| && Active(demand[j], s, ends[j])
    requires RowRun(table, s, ends, demand, found, gamma, lohse, overlap, lengthOf).ok
    ensures var p := PairStep(table, s, ends[j], found, gamma, lohse, overlap, lengthOf);
      var r := RowRun(table, s, ends, demand, found, gamma, lohse, overlap, lengthOf);
      && p.ok && s in p.table && ends[j] in p.table[s] && s in r.table && ends[j] in r.table[s]
      && r.table[s][ends[j]] == p.table[s][ends[j]]
    decreases |ends|
  {
    var n := |ends| - 1;
    var e := ends[..n];
    var t := ends[n];
    var r' := RowRun(table, s, e, demand, found, gamma, lohse, overlap, lengthOf);
    assert r'.ok;
    RowRunChanges(table, s, e, demand, found, gamma, lohse, overlap, lengthOf);
    PairStepChanges(r'.table, s, t, found, gamma, lohse, overlap, lengthOf);
    PairStepChanges(table, s, ends[j], found, gamma, lohse, overlap, lengthOf);
    if j < n {
      RowRunAt(table, s, e, demand, found, gamma, lohse, overlap, lengthOf, j);
      assert e[j] == ends[j] != t;
    } else {
      assert forall b :: 0 <= b < n ==> e[b] != t;
      assert (s, t) !in RowPairs(s, e, demand);
      PairStepLocal(r'.table, table, s, t, found, gamma, lohse, overlap, lengthOf);
    }
  }

  /**
   * With no destination listed twice, a row runs without a raise when every
   * active pair's PairStep succeeds on the table as it was before the run.
   */
  lemma {:induction false} RowRunOk(table: Table, s: Vertex, ends: seq<Vertex>, demand: seq<real>,
                                    found: Found, gamma: real, lohse: bool,
                                    overlap: OverlapTerm, lengthOf: LengthOf)
    requires |ends| <= |demand| && NoRepeats(ends)
    requires forall j :: 0 <= j < |ends| && Active(demand[j], s, ends[j]) ==>
      PairStep(table, s, ends[j], found, gamma, lohse, overlap, lengthOf).ok
    ensures RowRun(table, s, ends, demand, found, gamma, lohse, overlap, lengthOf).ok
    decreases |ends|
  {
    if ends != [] {
      var n := |ends| - 1;
      var e := ends[..n];
      var t := ends[n];
      RowRunOk(table, s, e, demand, found, gamma, lohse, overlap, lengthOf);
      var r' := RowRun(table, s, e, demand, found, gamma, lohse, overlap, lengthOf);
      RowRunChanges(table, s, e, demand, found, gamma, lohse, overlap, lengthOf);
      if Active(demand[n], s, t) {
        assert forall b :: 0 <= b < n ==> e[b] != t;
        assert (s, t) !in RowPairs(s, e, demand);
        PairStepLocal(r'.table, table, s, t, found, gamma, lohse, overlap, lengthOf);
      }
    }
  }

  /**
   * What findNewPath does to one origin's row, pair by pair, when no
   * destination is listed twice: a row that runs without a raise left every
   * active pair Searched; a row that raises has an active pair whose step
   * raises on the table as it was before the run.
   */
  lemma RowRunMeaning(table: Table, s: Vertex, ends: seq<Vertex>, demand: seq<real>,
                      found: Found, gamma: real, lohse: bool, overlap: OverlapTerm, lengthOf: LengthOf)
    requires |ends| <= |demand|
    ensures var r := RowRun(table, s, ends, demand, found, gamma, lohse, overlap, lengthOf);
      NoRepeats(ends) ==> RowDone(table, r.table, s, ends, demand, found, gamma, lohse, overlap, lengthOf, r.ok)
  {
    var r := RowRun(table, s, ends, demand, found, gamma, lohse, overlap, lengthOf);
    if NoRepeats(ends) && r.ok {
      forall j | 0 <= j < |ends| && Active(demand[j], s, ends[j])
        ensures Searched(table, r.table, s, ends[j], found, gamma, lohse, overlap, lengthOf)
      {
        RowRunAt(table, s, ends, demand, found, gamma, lohse, overlap, lengthOf, j);
      }
    }
    if NoRepeats(ends) && forall j :: 0 <= j < |ends| && Active(demand[j], s, ends[j]) ==>
        PairStep(table, s, ends[j], found, gamma, lohse, overlap, lengthOf).ok {
      RowRunOk(table, s, ends, demand, found, gamma, lohse, overlap, lengthOf);
    }
  }

  /**
   * network.py:183-233, the origins `starts` in order, with `matrix` the
   * demand matrix and `founds[i]` origin i's search result. Building the
   * destination set reads origin i's whole row first, which raises
   * IndexError when the row is missing or shorter than `ends`, before any of
   * its pairs; otherwise the row runs (RowRun). The first raise ends the run.
   * Only active pairs change.
   */
  ghost function MatrixRun(table: Table, starts: seq<Vertex>, ends: seq<Vertex>, matrix: seq<seq<real>>,
                     founds: seq<Found>, gamma: real, lohse: bool,
                     overlap: OverlapTerm, lengthOf: LengthOf): (r: Run)
    requires |starts| <= |founds|
    decreases |starts|
  {
    if starts == [] then Run(table, 0, true)
    else
      var i := |starts| - 1;
      var r := MatrixRun(table, starts[..i], ends, matrix, founds, gamma, lohse, overlap, lengthOf);
      if !r.ok || ends == [] then r
      else if |RowOf(matrix, i)| < |ends| then Run(r.table, r.count, false)
      else
        var q := RowRun(r.table, starts[i], ends, RowOf(matrix, i), founds[i], gamma, lohse, overlap, lengthOf);
        Run(q.table, r.count + q.count, q.ok)
  }
  /** A run over the demand matrix changes the lists of its active pairs at most. */
  lemma {:induction false} MatrixRunChanges(table: Table, starts: seq<Vertex>, ends: seq<Vertex>, matrix: seq<seq<real>>,
                                            founds: seq<Found>, gamma: real, lohse: bool,
                                            overlap: OverlapTerm, lengthOf: LengthOf)
    requires |starts| <= |founds|
    ensures ChangedOnly(table, MatrixRun(table, starts, ends, matrix, founds, gamma, lohse, overlap, lengthOf).table,
                        ActivePairs(starts, ends, matrix))
    decreases |starts|
  {
    if starts != [] {
      var i := |starts| - 1;
      var r := MatrixRun(table, starts[..i], ends, matrix, founds, gamma, lohse, overlap, lengthOf);
      MatrixRunChanges(table, starts[..i], ends, matrix, founds, gamma, lohse, overlap, lengthOf);
      assert ActivePairs(starts[..i], ends, matrix) <= ActivePairs(starts, ends, matrix);
      if r.ok && ends != [] && |ends| <= |RowOf(matrix, i)| {
        RowInActive(starts, ends, matrix, i);
        RowRunChanges(r.table, starts[i], ends, RowOf(matrix, i), founds[i], gamma, lohse, overlap, lengthOf);
      }
    }
  }


  /** Running the matrix one origin further: its row runs, unless something raised, `ends` is empty or the row is too short. */
  lemma MatrixRunNext(table: Table, starts: seq<Vertex>, ends: seq<Vertex>, matrix: seq<seq<real>>,
                      founds: seq<Found>, gamma: real, lohse: bool, overlap: OverlapTerm, lengthOf: LengthOf, i: nat)
    requires i < |starts| <= |founds|
    ensures var r := MatrixRun(table, starts[..i], ends, matrix, founds, gamma, lohse, overlap, lengthOf);
      MatrixRun(table, starts[..i + 1], ends, matrix, founds, gamma, lohse, overlap, lengthOf)
        == if !r.ok || ends == [] then r
           else if |RowOf(matrix, i)| < |ends| then Run(r.table, r.count, false)
           else
             var q := RowRun(r.table, starts[i], ends, RowOf(matrix, i), founds[i], gamma, lohse, overlap, lengthOf);
             Run(q.table, r.count + q.count, q.ok)
  {
    assert starts[..i + 1][..i] == starts[..i];
  }

  /** Running the matrix one origin further, whose row is long enough and ran as `q`. */
  lemma MatrixRunAdvance(table: Table, starts: seq<Vertex>, ends: seq<Vertex>, matrix: seq<seq<real>>,
                         founds: seq<Found>, gamma: real, lohse: bool, overlap: OverlapTerm, lengthOf: LengthOf,
                         i: nat, before: Table, count: nat, q: Run)
    requires i < |starts| <= |founds| && |ends| <= |RowOf(matrix, i)|
    requires MatrixRun(table, starts[..i], ends, matrix, founds, gamma, lohse, overlap, lengthOf) == Run(before, count, true)
    requires RowRun(before, starts[i], ends, RowOf(matrix, i), founds[i], gamma, lohse, overlap, lengthOf) == q
    ensures MatrixRun(table, starts[..i + 1], ends, matrix, founds, gamma, lohse, overlap, lengthOf)
         == Run(q.table, count + q.count, q.ok)
  {
    MatrixRunNext(table, starts, ends, matrix, founds, gamma, lohse, overlap, lengthOf, i);
  }

  /** Running the matrix one origin further, whose row is too short: the run raises with the table as it was. */
  lemma MatrixRunShort(table: Table, starts: seq<Vertex>, ends: seq<Vertex>, matrix: seq<seq<real>>,
                       founds: seq<Found>, gamma: real, lohse: bool, overlap: OverlapTerm, lengthOf: LengthOf,
                       i: nat, before: Table, count: nat)
    requires i < |starts| <= |founds| && ends != [] && |RowOf(matrix, i)| < |ends|
    requires MatrixRun(table, starts[..i], ends, matrix, founds, gamma, lohse, overlap, lengthOf) == Run(before, count, true)
    ensures MatrixRun(table, starts[..i + 1], ends, matrix, founds, gamma, lohse, overlap, lengthOf)
         == Run(before, count, false)
  {
    MatrixRunNext(table, starts, ends, matrix, founds, gamma, lohse, overlap, lengthOf, i);
  }

  /** A run over the demand matrix only lengthens lists, and by the paths it counts. */
  lemma {:induction false} MatrixRunGrows(table: Table, starts: seq<Vertex>, ends: seq<Vertex>, matrix: seq<seq<real>>,
                                          founds: seq<Found>, gamma: real, lohse: bool,
                                          overlap: OverlapTerm, lengthOf: LengthOf)
    requires |starts| <= |founds|
    ensures var r := MatrixRun(table, starts, ends, matrix, founds, gamma, lohse, overlap, lengthOf);
      Extends(table, r.table) && |Slots(r.table)| == |Slots(table)| + r.count
    decreases |starts|
  {
    if starts != [] {
      var i := |starts| - 1;
      var r := MatrixRun(table, starts[..i], ends, matrix, founds, gamma, lohse, overlap, lengthOf);
      MatrixRunGrows(table, starts[..i], ends, matrix, founds, gamma, lohse, overlap, lengthOf);
      if r.ok && ends != [] && |ends| <= |RowOf(matrix, i)| {
        RowRunGrows(r.table, starts[i], ends, RowOf(matrix, i), founds[i], gamma, lohse, overlap, lengthOf);
        ExtendsTransitive(table, r.table,
          RowRun(r.table, starts[i], ends, RowOf(matrix, i), founds[i], gamma, lohse, overlap, lengthOf).table);
      }
    }
  }

  /** Once an origin has raised, the later origins change nothing. */
  lemma {:induction false} MatrixRunStops(table: Table, starts: seq<Vertex>, ends: seq<Vertex>, matrix: seq<seq<real>>,
                                          founds: seq<Found>, gamma: real, lohse: bool,
                                          overlap: OverlapTerm, lengthOf: LengthOf, k: nat)
    requires k <= |starts| <= |founds|
    requires !MatrixRun(table, starts[..k], ends, matrix, founds, gamma, lohse, overlap, lengthOf).ok
    ensures MatrixRun(table, starts, ends, matrix, founds, gamma, lohse, overlap, lengthOf)
         == MatrixRun(table, starts[..k], ends, matrix, founds, gamma, lohse, overlap, lengthOf)
    decreases |starts|
  {
    if k < |starts| {
      var i := |starts| - 1;
      assert starts[..i][..k] == starts[..k];
      MatrixRunStops(table, starts[..i], ends, matrix, founds, gamma, lohse, overlap, lengthOf, k);
    } else {
      assert starts[..k] == starts;
    }
  }

  /**
   * The pair (s, t) was in the table `before`, the search reached t along a
   * chain back to s, and the pair's list in `after` is what PairOutcome makes
   * of its list in `before`, with the real route to t and the route's cost in
   * hours, without a raise.
   */
  ghost predicate Searched(before: Table, after: Table, s: Vertex, t: Vertex, found: Found,
                           gamma: real, lohse: bool, overlap: OverlapTerm, lengthOf: LengthOf)
  {
    && s in before && t in before[s] && s in after && t in after[s] && t in found.dist && t in found.route
    && var o := PairOutcome(s, t, before[s][t], found.route[t], found.dist[t] / 3600.0,
                            lohse, gamma, overlap, lengthOf);
       o.ok && after[s][t] == o.list
  }

  /**
   * A row's pairs after a run that ended with `ok`: when nothing raised,
   * every active pair is Searched; when something raised, some active pair's
   * step raises on the table as it was before the run.
   */
  ghost predicate RowDone(before: Table, after: Table, s: Vertex, ends: seq<Vertex>, demand: seq<real>,
                              found: Found, gamma: real, lohse: bool, overlap: OverlapTerm, lengthOf: LengthOf, ok: bool)
    requires |ends| <= |demand|
  {
    && (ok ==> forall j :: 0 <= j < |ends| && Active(demand[j], s, ends[j]) ==>
          Searched(before, after, s, ends[j], found, gamma, lohse, overlap, lengthOf))
    && (!ok ==> exists j :: (0 <= j < |ends| && Active(demand[j], s, ends[j])
          && !PairStep(before, s, ends[j], found, gamma, lohse, overlap, lengthOf).ok))
  }

  /**
   * The demand matrix after a run that ended with `ok`: when nothing raised,
   * every pair is PairDone; when something raised, some origin's row is too
   * short, or some active pair's step raises on the table as it was before
   * the run.
   */
  ghost predicate MatrixDone(before: Table, after: Table, starts: seq<Vertex>, ends: seq<Vertex>, matrix: seq<seq<real>>,
                             founds: seq<Found>, gamma: real, lohse: bool, overlap: OverlapTerm, lengthOf: LengthOf,
                             ok: bool)
    requires |starts| <= |founds|
  {
    && (ok ==> forall i, j :: 0 <= i < |starts| && 0 <= j < |ends| ==>
          PairDone(before, after, starts, ends, matrix, founds, gamma, lohse, overlap, lengthOf, i, j))
    && (!ok ==>
          (exists i :: 0 <= i < |starts| && ends != [] && |RowOf(matrix, i)| < |ends|)
          || exists i, j :: 0 <= i < |starts| && 0 <= j < |ends| && j < |RowOf(matrix, i)|
               && Active(RowOf(matrix, i)[j], starts[i], ends[j])
               && !PairStep(before, starts[i], ends[j], founds[i], gamma, lohse, overlap, lengthOf).ok)
  }

  /**
   * Pair (i, j) of the demand matrix after a run: row i reaches column j,
   * and an active pair is Searched.
   */
  ghost predicate PairDone(before: Table, after: Table, starts: seq<Vertex>, ends: seq<Vertex>, matrix: seq<seq<real>>,
                           founds: seq<Found>, gamma: real, lohse: bool, overlap: OverlapTerm, lengthOf: LengthOf,
                           i: nat, j: nat)
    requires i < |starts| <= |founds| && j < |ends|
  {
    && j < |RowOf(matrix, i)|
    && (Active(RowOf(matrix, i)[j], starts[i], ends[j]) ==>
          Searched(before, after, starts[i], ends[j], founds[i], gamma, lohse, overlap, lengthOf))
  }

  /** A pair Searched in table `a` stays Searched in a table that changed only pairs other than it. */
  lemma SearchedKept(before: Table, a: Table, b: Table, s: Vertex, t: Vertex, found: Found,
                     gamma: real, lohse: bool, overlap: OverlapTerm, lengthOf: LengthOf, touched: set<(Vertex, Vertex)>)
    requires Searched(before, a, s, t, found, gamma, lohse, overlap, lengthOf)
    requires ChangedOnly(a, b, touched) && (s, t) !in touched
    ensures Searched(before, b, s, t, found, gamma, lohse, overlap, lengthOf)
  {
  }

  /**
   * An active pair of a row that ran without a raise from table `mid`, where
   * `mid` still holds the pair's list from `before`: the pair is Searched
   * from `before` in the table the row leaves.
   */
  lemma {:induction false} RowSearched(before: Table, mid: Table, s: Vertex, ends: seq<Vertex>, row: seq<real>,
                                       found: Found, gamma: real, lohse: bool, overlap: OverlapTerm,
                                       lengthOf: LengthOf, j: nat, touched: set<(Vertex, Vertex)>)
    requires |ends| <= |row| && NoRepeats(ends) && j < |ends| && Active(row[j], s, ends[j])
    requires ChangedOnly(before, mid, touched) && (s, ends[j]) !in touched
    requires RowRun(mid, s, ends, row, found, gamma, lohse, overlap, lengthOf).ok
    ensures Searched(before, RowRun(mid, s, ends, row, found, gamma, lohse, overlap, lengthOf).table,
                     s, ends[j], found, gamma, lohse, overlap, lengthOf)
  {
    var t := ends[j];
    RowRunAt(mid, s, ends, row, found, gamma, lohse, overlap, lengthOf, j);
    PairStepChanges(mid, s, t, found, gamma, lohse, overlap, lengthOf);
    PairStepLocal(mid, before, s, t, found, gamma, lohse, overlap, lengthOf);
  }

  /** The last origin of a run that succeeded: the run over the others succeeded, and the last row ran. */
  lemma MatrixRunLast(table: Table, starts: seq<Vertex>, ends: seq<Vertex>, matrix: seq<seq<real>>,
                      founds: seq<Found>, gamma: real, lohse: bool, overlap: OverlapTerm, lengthOf: LengthOf)
    requires 0 < |starts| <= |founds| && ends != []
    requires MatrixRun(table, starts, ends, matrix, founds, gamma, lohse, overlap, lengthOf).ok
    ensures var n := |starts| - 1;
      var r := MatrixRun(table, starts[..n], ends, matrix, founds, gamma, lohse, overlap, lengthOf);
      && r.ok && |ends| <= |RowOf(matrix, n)|
      && var q := RowRun(r.table, starts[n], ends, RowOf(matrix, n), founds[n], gamma, lohse, overlap, lengthOf);
         q.ok && MatrixRun(table, starts, ends, matrix, founds, gamma, lohse, overlap, lengthOf).table == q.table
  {
  }

  /** Pair (i, j) of a run that succeeded, with no origin and no destination listed twice. */
  lemma {:induction false} MatrixRunAt(table: Table, starts: seq<Vertex>, ends: seq<Vertex>, matrix: seq<seq<real>>,
                                       founds: seq<Found>, gamma: real, lohse: bool,
                                       overlap: OverlapTerm, lengthOf: LengthOf, i: nat, j: nat)
    requires |starts| <= |founds|
    requires NoRepeats(starts) && NoRepeats(ends) && i < |starts| && j < |ends|
    requires MatrixRun(table, starts, ends, matrix, founds, gamma, lohse, overlap, lengthOf).ok
    ensures PairDone(table, MatrixRun(table, starts, ends, matrix, founds, gamma, lohse, overlap, lengthOf).table,
                     starts, ends, matrix, founds, gamma, lohse, overlap, lengthOf, i, j)
    decreases |starts|
  {
    var n := |starts| - 1;
    var st := starts[..n];
    var s := starts[n];
    var t := ends[j];
    var r' := MatrixRun(table, st, ends, matrix, founds, gamma, lohse, overlap, lengthOf);
    var row := RowOf(matrix, n);
    MatrixRunLast(table, starts, ends, matrix, founds, gamma, lohse, overlap, lengthOf);
    MatrixRunChanges(table, st, ends, matrix, founds, gamma, lohse, overlap, lengthOf);
    if i < n {
      MatrixRunAt(table, st, ends, matrix, founds, gamma, lohse, overlap, lengthOf, i, j);
      assert st[i] == starts[i] != s;
      assert j < |RowOf(matrix, i)|;
      assert (starts[i], t) !in RowPairs(s, ends, row);
      if Active(RowOf(matrix, i)[j], starts[i], t) {
        var q := RowRun(r'.table, s, ends, row, founds[n], gamma, lohse, overlap, lengthOf);
        RowRunChanges(r'.table, s, ends, row, founds[n], gamma, lohse, overlap, lengthOf);
        SearchedKept(table, r'.table, q.table, starts[i], t, founds[i], gamma, lohse, overlap, lengthOf,
                     RowPairs(s, ends, row));
      }
    } else if Active(row[j], s, t) {
      assert forall a :: 0 <= a < n ==> st[a] != s;
      assert (s, t) !in ActivePairs(st, ends, matrix);
      RowSearched(table, r'.table, s, ends, row, founds[n], gamma, lohse, overlap, lengthOf, j,
                  ActivePairs(st, ends, matrix));
    }
  }

  /**
   * With no origin and no destination listed twice, a run succeeds when
   * every row is as long as `ends` (or `ends` is empty) and every active
   * pair's step succeeds on the table as it was.
   */
  lemma {:induction false} MatrixRunOk(table: Table, starts: seq<Vertex>, ends: seq<Vertex>, matrix: seq<seq<real>>,
                                       founds: seq<Found>, gamma: real, lohse: bool,
                                       overlap: OverlapTerm, lengthOf: LengthOf)
    requires |starts| <= |founds|
    requires NoRepeats(starts) && NoRepeats(ends)
    requires forall i :: 0 <= i < |starts| && ends != [] ==> |ends| <= |RowOf(matrix, i)|
    requires forall i, j :: (0 <= i < |starts| && 0 <= j < |ends| && j < |RowOf(matrix, i)|
      && Active(RowOf(matrix, i)[j], starts[i], ends[j])) ==>
      PairStep(table, starts[i], ends[j], founds[i], gamma, lohse, overlap, lengthOf).ok
    ensures MatrixRun(table, starts, ends, matrix, founds, gamma, lohse, overlap, lengthOf).ok
    decreases |starts|
  {
    if starts != [] {
      var n := |starts| - 1;
      var st := starts[..n];
      var s := starts[n];
      MatrixRunOk(table, st, ends, matrix, founds, gamma, lohse, overlap, lengthOf);
      var r' := MatrixRun(table, st, ends, matrix, founds, gamma, lohse, overlap, lengthOf);
      MatrixRunChanges(table, st, ends, matrix, founds, gamma, lohse, overlap, lengthOf);
      if ends != [] {
        var row := RowOf(matrix, n);
        assert forall a :: 0 <= a < n ==> st[a] != s;
        forall j | 0 <= j < |ends| && Active(row[j], s, ends[j])
          ensures PairStep(r'.table, s, ends[j], founds[n], gamma, lohse, overlap, lengthOf).ok
        {
          assert (s, ends[j]) !in ActivePairs(st, ends, matrix);
          PairStepLocal(r'.table, table, s, ends[j], founds[n], gamma, lohse, overlap, lengthOf);
        }
        RowRunOk(r'.table, s, ends, row, founds[n], gamma, lohse, overlap, lengthOf);
      }
    }
  }

  /** What a run that ended with table `after`, `count` new paths and flag `ok` promises. */
  lemma MatrixRunEnds(table: Table, starts: seq<Vertex>, ends: seq<Vertex>, matrix: seq<seq<real>>,
                      founds: seq<Found>, gamma: real, lohse: bool, overlap: OverlapTerm, lengthOf: LengthOf,
                      after: Table, count: nat, ok: bool)
    requires |starts| <= |founds|
    requires MatrixRun(table, starts, ends, matrix, founds, gamma, lohse, overlap, lengthOf) == Run(after, count, ok)
    ensures Extends(table, after) && |Slots(after)| == |Slots(table)| + count
    ensures ChangedOnly(table, after, ActivePairs(starts, ends, matrix))
    ensures NoRepeats(starts) && NoRepeats(ends) ==>
      MatrixDone(table, after, starts, ends, matrix, founds, gamma, lohse, overlap, lengthOf, ok)
  {
    MatrixRunChanges(table, starts, ends, matrix, founds, gamma, lohse, overlap, lengthOf);
    MatrixRunGrows(table, starts, ends, matrix, founds, gamma, lohse, overlap, lengthOf);
    MatrixRunMeaning(table, starts, ends, matrix, founds, gamma, lohse, overlap, lengthOf);
  }

  /**
   * What findNewPath does to the table, pair by pair, when no origin and no
   * destination is listed twice. A run without a raise covered every row in
   * full, and every active pair (s_i, t_j) was in the table, the search of
   * s_i reached t_j along a chain back to s_i, and the pair's list is
   * PairOutcome of its old list, the real route and the route's cost in
   * hours (PairDone). A run that raises met a row shorter than `ends`, or an
   * active pair whose step raises on the table as it was before the run.
   */
  lemma MatrixRunMeaning(table: Table, starts: seq<Vertex>, ends: seq<Vertex>, matrix: seq<seq<real>>,
                         founds: seq<Found>, gamma: real, lohse: bool, overlap: OverlapTerm,
                         lengthOf: LengthOf)
    requires |starts| <= |founds|
    ensures var r := MatrixRun(table, starts, ends, matrix, founds, gamma, lohse, overlap, lengthOf);
      NoRepeats(starts) && NoRepeats(ends) ==>
        MatrixDone(table, r.table, starts, ends, matrix, founds, gamma, lohse, overlap, lengthOf, r.ok)
  {
    var r := MatrixRun(table, starts, ends, matrix, founds, gamma, lohse, overlap, lengthOf);
    if NoRepeats(starts) && NoRepeats(ends) && r.ok {
      forall i, j | 0 <= i < |starts| && 0 <= j < |ends|
        ensures PairDone(table, r.table, starts, ends, matrix, founds, gamma, lohse, overlap, lengthOf, i, j)
      {
        MatrixRunAt(table, starts, ends, matrix, founds, gamma, lohse, overlap, lengthOf, i, j);
      }
    }
    if && NoRepeats(starts) && NoRepeats(ends)
       && (forall i :: 0 <= i < |starts| && ends != [] ==> |ends| <= |RowOf(matrix, i)|)
       && (forall i, j :: (0 <= i < |starts| && 0 <= j < |ends| && j < |RowOf(matrix, i)|
            && Active(RowOf(matrix, i)[j], starts[i], ends[j])) ==>
            PairStep(table, starts[i], ends[j], founds[i], gamma, lohse, overlap, lengthOf).ok) {
      MatrixRunOk(table, starts, ends, matrix, founds, gamma, lohse, overlap, lengthOf);
    }
  }

  /** A pair's step depends on the table only through the pair's own list. */
  lemma PairStepLocal(a: Table, b: Table, s: Vertex, t: Vertex, found: Found, gamma: real, lohse: bool,
                      overlap: OverlapTerm, lengthOf: LengthOf)
    requires (s in a && t in a[s]) == (s in b && t in b[s])
    requires s in a && t in a[s] ==> a[s][t] == b[s][t]
    ensures var p := PairStep(a, s, t, found, gamma, lohse, overlap, lengthOf);
      var q := PairStep(b, s, t, found, gamma, lohse, overlap, lengthOf);
      p.ok == q.ok && p.count == q.count && (s in a && t in a[s] ==> p.table[s][t] == q.table[s][t])
  {
  }

  /**
   * What the labels at each destination read back into (ReadBack), once the
   * propagation from one origin has settled; `settled` is false when it ran
   * out of fuel.
   */
  datatype OriginSearch = OriginSearch(settled: bool, routes: seq<seq<Option<seq<Edge>>>>)

  /**
   * network.py:257-287 on the table as a value: destination t, at index j,
   * of origin s, with `row` the origin's demand row and `routes` what the
   * labels at t read back into. The pair is looked up first (KeyError when
   * the table lacks it); a pair whose ends are named alike is skipped; the
   * demand entry is read next (IndexError past the row's end), and a
   * non-zero one files the pair's k-paths (KPathsFor).
   */
  ghost function KPairStep(table: Table, s: Vertex, t: Vertex, row: seq<real>, j: nat,
                           routes: seq<Option<seq<Edge>>>, gamma: real, overlap: OverlapTerm,
                           lengthOf: LengthOf): (r: Run)
    ensures r.ok ==> s in table && t in table[s] && (s.name != t.name ==> j < |row|)
  {
    if s !in table || t !in table[s] then Run(table, 0, false)
    else if s.name == t.name then Run(table, 0, true)
    else if j >= |row| then Run(table, 0, false)
    else if row[j] == 0.0 then Run(table, 0, true)
    else
      var k := KPathsFor(s, t, table[s][t], routes, gamma, overlap, lengthOf);
      Run(WithList(table, s, t, k.list), k.count, k.ok)
  }
  /** A pair's k-path step changes that pair's list at most, and only when the pair is searched. */
  lemma KPairStepChanges(table: Table, s: Vertex, t: Vertex, row: seq<real>, j: nat,
                         routes: seq<Option<seq<Edge>>>, gamma: real, overlap: OverlapTerm, lengthOf: LengthOf)
    ensures ChangedOnly(table, KPairStep(table, s, t, row, j, routes, gamma, overlap, lengthOf).table,
                        if j < |row| && KActive(row[j], s, t) then {(s, t)} else {})
  {
  }

  /**
   * A pair's k-path step grows the table by k-paths of the pair only, by the
   * paths it counts, when the routes read back hold only real edges.
   */
  lemma KPairStepGrows(table: Table, s: Vertex, t: Vertex, row: seq<real>, j: nat,
                       routes: seq<Option<seq<Edge>>>, gamma: real, overlap: OverlapTerm, lengthOf: LengthOf)
    requires AllRoutesReal(routes)
    ensures var r := KPairStep(table, s, t, row, j, routes, gamma, overlap, lengthOf);
      KGrown(table, r.table) && |Slots(r.table)| == |Slots(table)| + r.count
  {
    var r := KPairStep(table, s, t, row, j, routes, gamma, overlap, lengthOf);
    if s in table && t in table[s] && s.name != t.name && j < |row| && row[j] != 0.0 {
      var ps := table[s][t];
      KPathsForKeeps(s, t, ps, routes, gamma, overlap, lengthOf);
      KPathsForLength(s, t, ps, routes, gamma, overlap, lengthOf);
      KPathsForFiles(s, t, ps, routes, gamma, overlap, lengthOf);
      var k := KPathsFor(s, t, ps, routes, gamma, overlap, lengthOf);
      KGrownWithList(table, s, t, k.list);
      SlotsLonger(table, s, t, k.list);
    } else {
      KGrownReflexive(table);
    }
  }


  /** A pair's k-path step depends on the table only through the pair's own list. */
  lemma KPairStepLocal(a: Table, b: Table, s: Vertex, t: Vertex, row: seq<real>, j: nat,
                       routes: seq<Option<seq<Edge>>>, gamma: real, overlap: OverlapTerm, lengthOf: LengthOf)
    requires (s in a && t in a[s]) == (s in b && t in b[s])
    requires s in a && t in a[s] ==> a[s][t] == b[s][t]
    ensures var p := KPairStep(a, s, t, row, j, routes, gamma, overlap, lengthOf);
      var q := KPairStep(b, s, t, row, j, routes, gamma, overlap, lengthOf);
      p.ok == q.ok && p.count == q.count && (s in a && t in a[s] ==> p.table[s][t] == q.table[s][t])
  {
  }

  /** What the labels at each destination of `ends` read back into, toward the origin s (ReadBack). */
  ghost function ReadBacks(ends: seq<Vertex>, s: Vertex): (r: seq<seq<Option<seq<Edge>>>>)
    reads set v | v in ends, set v, e | v in ends && e in LabelEdges(v.preds) :: e
    ensures |r| == |ends|
    ensures forall j :: 0 <= j < |ends| ==> r[j] == ReadBack(ends[j].preds, ends[j], s)
    decreases |ends|
  {
    if ends == [] then []
    else ReadBacks(ends[..|ends| - 1], s) + [ReadBack(ends[|ends| - 1].preds, ends[|ends| - 1], s)]
  }

  /**
   * A record of settled origins, each with n destinations' routes of real
   * edges only, extended by one more such origin, settled or not.
   */
  lemma RecordGrows(searches: seq<OriginSearch>, x: OriginSearch, n: nat)
    requires forall a :: 0 <= a < |searches| ==> |searches[a].routes| == n && searches[a].settled
    requires forall a, j :: 0 <= a < |searches| && 0 <= j < n ==> AllRoutesReal(searches[a].routes[j])
    requires |x.routes| == n && forall j :: 0 <= j < n ==> AllRoutesReal(x.routes[j])
    ensures var r := searches + [x]; var i := |searches|;
      && |r| == i + 1 && r[..i] == searches && r[i] == x
      && (forall a :: 0 <= a <= i ==> |r[a].routes| == n)
      && (forall a, j :: 0 <= a <= i && 0 <= j < n ==> AllRoutesReal(r[a].routes[j]))
      && (forall a :: 0 <= a <= i && (a < i || x.settled) ==> r[a].settled)
  {
    var r := searches + [x];
    assert r[..|searches|] == searches;
  }

  /**
   * network.py:256-287, the destinations `ends` of origin s in order, with
   * `routes[j]` what the labels at ends[j] read back into: every pair takes
   * its KPairStep, the filed k-paths are counted, and the first pair that
   * raises ends the run. Only the row's searched pairs change.
   */
  ghost function KRowRun(table: Table, s: Vertex, ends: seq<Vertex>, row: seq<real>,
                         routes: seq<seq<Option<seq<Edge>>>>, gamma: real, overlap: OverlapTerm,
                         lengthOf: LengthOf): (r: Run)
    requires |ends| <= |routes|
    decreases |ends|
  {
    if ends == [] then Run(table, 0, true)
    else
      var j := |ends| - 1;
      var r := KRowRun(table, s, ends[..j], row, routes, gamma, overlap, lengthOf);
      if !r.ok then r
      else
        var p := KPairStep(r.table, s, ends[j], row, j, routes[j], gamma, overlap, lengthOf);
        Run(p.table, r.count + p.count, p.ok)
  }
  /** A row's run changes the lists of its searched pairs at most. */
  lemma {:induction false} KRowRunChanges(table: Table, s: Vertex, ends: seq<Vertex>, row: seq<real>,
                                          routes: seq<seq<Option<seq<Edge>>>>, gamma: real, overlap: OverlapTerm,
                                          lengthOf: LengthOf)
    requires |ends| <= |routes|
    ensures ChangedOnly(table, KRowRun(table, s, ends, row, routes, gamma, overlap, lengthOf).table,
                        KRowPairs(s, ends, row))
    decreases |ends|
  {
    if ends != [] {
      var j := |ends| - 1;
      var r := KRowRun(table, s, ends[..j], row, routes, gamma, overlap, lengthOf);
      KRowRunChanges(table, s, ends[..j], row, routes, gamma, overlap, lengthOf);
      assert KRowPairs(s, ends[..j], row) <= KRowPairs(s, ends, row);
      if r.ok {
        KPairStepChanges(r.table, s, ends[j], row, j, routes[j], gamma, overlap, lengthOf);
        assert j < |row| && KActive(row[j], s, ends[j]) ==> (s, ends[j]) in KRowPairs(s, ends, row);
      }
    }
  }

  /** Running the row one destination further, whose step on the table the earlier ones left is `p`. */
  lemma KRowRunAdvance(table: Table, s: Vertex, ends: seq<Vertex>, row: seq<real>,
                       routes: seq<seq<Option<seq<Edge>>>>, gamma: real, overlap: OverlapTerm, lengthOf: LengthOf,
                       j: nat, before: Table, count: nat, p: Run)
    requires j < |ends| <= |routes|
    requires KRowRun(table, s, ends[..j], row, routes, gamma, overlap, lengthOf) == Run(before, count, true)
    requires KPairStep(before, s, ends[j], row, j, routes[j], gamma, overlap, lengthOf) == p
    ensures KRowRun(table, s, ends[..j + 1], row, routes, gamma, overlap, lengthOf) == Run(p.table, count + p.count, p.ok)
  {
    assert ends[..j + 1][..j] == ends[..j];
  }

  /** A row's run grows the table by k-paths only, by the paths it counts. */
  lemma {:induction false} KRowRunGrows(table: Table, s: Vertex, ends: seq<Vertex>, row: seq<real>,
                                        routes: seq<seq<Option<seq<Edge>>>>, gamma: real, overlap: OverlapTerm,
                                        lengthOf: LengthOf)
    requires |ends| <= |routes| && forall j :: 0 <= j < |ends| ==> AllRoutesReal(routes[j])
    ensures var r := KRowRun(table, s, ends, row, routes, gamma, overlap, lengthOf);
      KGrown(table, r.table) && |Slots(r.table)| == |Slots(table)| + r.count
    decreases |ends|
  {
    if ends == [] {
      KGrownReflexive(table);
    } else {
      var j := |ends| - 1;
      var r := KRowRun(table, s, ends[..j], row, routes, gamma, overlap, lengthOf);
      KRowRunGrows(table, s, ends[..j], row, routes, gamma, overlap, lengthOf);
      if r.ok {
        KPairStepGrows(r.table, s, ends[j], row, j, routes[j], gamma, overlap, lengthOf);
        KGrownTransitive(table, r.table, KPairStep(r.table, s, ends[j], row, j, routes[j], gamma, overlap, lengthOf).table);
      }
    }
  }


  /** Once a pair of the row has raised, the later destinations change nothing. */
  lemma {:induction false} KRowRunStops(table: Table, s: Vertex, ends: seq<Vertex>, row: seq<real>,
                                        routes: seq<seq<Option<seq<Edge>>>>, gamma: real, overlap: OverlapTerm,
                                        lengthOf: LengthOf, k: nat)
    requires k <= |ends| <= |routes|
    requires !KRowRun(table, s, ends[..k], row, routes, gamma, overlap, lengthOf).ok
    ensures KRowRun(table, s, ends, row, routes, gamma, overlap, lengthOf)
         == KRowRun(table, s, ends[..k], row, routes, gamma, overlap, lengthOf)
    decreases |ends|
  {
    if k < |ends| {
      var j := |ends| - 1;
      assert ends[..j][..k] == ends[..k];
      KRowRunStops(table, s, ends[..j], row, routes, gamma, overlap, lengthOf, k);
    } else {
      assert ends[..k] == ends;
    }
  }

  /** A row's run ends with its last pair's KPairStep, taken on the table the earlier pairs left. */
  lemma KRowRunLast(table: Table, s: Vertex, ends: seq<Vertex>, row: seq<real>,
                    routes: seq<seq<Option<seq<Edge>>>>, gamma: real, overlap: OverlapTerm,
                    lengthOf: LengthOf)
    requires 0 < |ends| <= |routes|
    ensures var n := |ends| - 1;
      var r' := KRowRun(table, s, ends[..n], row, routes, gamma, overlap, lengthOf);
      var p := KPairStep(r'.table, s, ends[n], row, n, routes[n], gamma, overlap, lengthOf);
      var r := KRowRun(table, s, ends, row, routes, gamma, overlap, lengthOf);
      (r.ok <==> r'.ok && p.ok) && (r.ok ==> r.table == p.table)
  {
  }

  /** With no destination listed twice, the last destination is not among the earlier ones' pairs. */
  lemma LastNotEarlier(s: Vertex, ends: seq<Vertex>, row: seq<real>)
    requires 0 < |ends| && NoRepeats(ends)
    ensures (s, ends[|ends| - 1]) !in KRowPairs(s, ends[..|ends| - 1], row)
    ensures forall b :: 0 <= b < |ends| - 1 ==> ends[b] != ends[|ends| - 1]
  {
  }

  /**
   * With no destination listed twice, a pair of a row that ran without a
   * raise took its KPairStep on the table as it was before the run, and
   * holds the list that step makes.
   */
  lemma {:induction false} KRowRunAt(table: Table, s: Vertex, ends: seq<Vertex>, row: seq<real>,
                                     routes: seq<seq<Option<seq<Edge>>>>, gamma: real, overlap: OverlapTerm,
                                     lengthOf: LengthOf, j: nat)
    requires |ends| <= |routes| && NoRepeats(ends) && j < |ends|
    requires KRowRun(table, s, ends, row, routes, gamma, overlap, lengthOf).ok
    ensures var p := KPairStep(table, s, ends[j], row, j, routes[j], gamma, overlap, lengthOf);
      var r := KRowRun(table, s, ends, row, routes, gamma, overlap, lengthOf);
      && p.ok && s in p.table && ends[j] in p.table[s] && s in r.table && ends[j] in r.table[s]
      && r.table[s][ends[j]] == p.table[s][ends[j]]
    decreases |ends|
  {
    var n := |ends| - 1;
    if j < n {
      var e := ends[..n];
      KRowRunLast(table, s, ends, row, routes, gamma, overlap, lengthOf);
      var r' := KRowRun(table, s, e, row, routes, gamma, overlap, lengthOf);
      KPairStepChanges(r'.table, s, ends[n], row, n, routes[n], gamma, overlap, lengthOf);
      LastNotEarlier(s, ends, row);
      assert NoRepeats(e);
      KRowRunAt(table, s, e, row, routes, gamma, overlap, lengthOf, j);
      assert e[j] == ends[j];
    } else {
      KRowRunAtLast(table, s, ends, row, routes, gamma, overlap, lengthOf);
    }
  }

  /** KRowRunAt for the last destination of the row. */
  lemma KRowRunAtLast(table: Table, s: Vertex, ends: seq<Vertex>, row: seq<real>,
                      routes: seq<seq<Option<seq<Edge>>>>, gamma: real, overlap: OverlapTerm,
                      lengthOf: LengthOf)
    requires 0 < |ends| <= |routes| && NoRepeats(ends)
    requires KRowRun(table, s, ends, row, routes, gamma, overlap, lengthOf).ok
    ensures var n := |ends| - 1;
      var p := KPairStep(table, s, ends[n], row, n, routes[n], gamma, overlap, lengthOf);
      var r := KRowRun(table, s, ends, row, routes, gamma, overlap, lengthOf);
      && p.ok && s in p.table && ends[n] in p.table[s] && s in r.table && ends[n] in r.table[s]
      && r.table[s][ends[n]] == p.table[s][ends[n]]
  {
    var n := |ends| - 1;
    KRowRunLast(table, s, ends, row, routes, gamma, overlap, lengthOf);
    LastNotEarlier(s, ends, row);
    var r' := KRowRun(table, s, ends[..n], row, routes, gamma, overlap, lengthOf);
    KRowRunChanges(table, s, ends[..n], row, routes, gamma, overlap, lengthOf);
    KPairStepChanges(r'.table, s, ends[n], row, n, routes[n], gamma, overlap, lengthOf);
    KPairStepChanges(table, s, ends[n], row, n, routes[n], gamma, overlap, lengthOf);
    KPairStepLocal(r'.table, table, s, ends[n], row, n, routes[n], gamma, overlap, lengthOf);
  }

  /**
   * With no destination listed twice, a row runs without a raise when every
   * pair's KPairStep succeeds on the table as it was before the run.
   */
  lemma {:induction false} KRowRunOk(table: Table, s: Vertex, ends: seq<Vertex>, row: seq<real>,
                                     routes: seq<seq<Option<seq<Edge>>>>, gamma: real, overlap: OverlapTerm,
                                     lengthOf: LengthOf)
    requires |ends| <= |routes| && NoRepeats(ends)
    requires forall j {:trigger KPairStep(table, s, ends[j], row, j, routes[j], gamma, overlap, lengthOf)} ::
      0 <= j < |ends| ==> KPairStep(table, s, ends[j], row, j, routes[j], gamma, overlap, lengthOf).ok
    ensures KRowRun(table, s, ends, row, routes, gamma, overlap, lengthOf).ok
    decreases |ends|
  {
    if ends != [] {
      var n := |ends| - 1;
      var e := ends[..n];
      var t := ends[n];
      KRowRunLast(table, s, ends, row, routes, gamma, overlap, lengthOf);
      LastNotEarlier(s, ends, row);
      assert NoRepeats(e);
      assert forall j :: 0 <= j < n ==> e[j] == ends[j];
      KRowRunOk(table, s, e, row, routes, gamma, overlap, lengthOf);
      var r' := KRowRun(table, s, e, row, routes, gamma, overlap, lengthOf);
      KRowRunChanges(table, s, e, row, routes, gamma, overlap, lengthOf);
      KPairStepLocal(r'.table, table, s, t, row, n, routes[n], gamma, overlap, lengthOf);
    }
  }

  /**
   * What calcKPaths does to one origin's row, pair by pair, when no
   * destination is listed twice: a row that runs without a raise left every
   * pair KSearched; a row that raises has a pair whose step raises on the
   * table as it was before the run.
   */
  lemma KRowRunMeaning(table: Table, s: Vertex, ends: seq<Vertex>, row: seq<real>,
                       routes: seq<seq<Option<seq<Edge>>>>, gamma: real, overlap: OverlapTerm, lengthOf: LengthOf)
    requires |ends| <= |routes|
    ensures var r := KRowRun(table, s, ends, row, routes, gamma, overlap, lengthOf);
      NoRepeats(ends) ==> KRowDone(table, r.table, s, ends, row, routes, gamma, overlap, lengthOf, r.ok)
  {
    var r := KRowRun(table, s, ends, row, routes, gamma, overlap, lengthOf);
    if NoRepeats(ends) && r.ok {
      forall j | 0 <= j < |ends|
        ensures KSearched(table, r.table, s, ends[j], row, j, routes[j], gamma, overlap, lengthOf)
      {
        KRowRunAt(table, s, ends, row, routes, gamma, overlap, lengthOf, j);
      }
    }
    if NoRepeats(ends) && forall j :: 0 <= j < |ends| ==>
        KPairStep(table, s, ends[j], row, j, routes[j], gamma, overlap, lengthOf).ok {
      KRowRunOk(table, s, ends, row, routes, gamma, overlap, lengthOf);
    }
  }

  /**
   * network.py:243-287, the origins `starts` in order, with `searches[i]`
   * what origin i's propagation left: an origin whose propagation did not
   * settle changes nothing; any other runs its row (KRowRun), with its
   * demand row possibly missing or short. The first raise ends the run.
   * Only searched pairs change.
   */
  ghost function KMatrixRun(table: Table, starts: seq<Vertex>, ends: seq<Vertex>, matrix: seq<seq<real>>,
                            searches: seq<OriginSearch>, gamma: real, overlap: OverlapTerm,
                            lengthOf: LengthOf): (r: Run)
    requires |starts| <= |searches|
    requires forall i :: 0 <= i < |starts| && searches[i].settled ==> |ends| <= |searches[i].routes|
    decreases |starts|
  {
    if starts == [] then Run(table, 0, true)
    else
      var i := |starts| - 1;
      var r := KMatrixRun(table, starts[..i], ends, matrix, searches, gamma, overlap, lengthOf);
      if !r.ok || !searches[i].settled then r
      else
        var q := KRowRun(r.table, starts[i], ends, RowOf(matrix, i), searches[i].routes, gamma, overlap, lengthOf);
        Run(q.table, r.count + q.count, q.ok)
  }
  /** A run over the demand matrix changes the lists of its searched pairs at most. */
  lemma {:induction false} KMatrixRunChanges(table: Table, starts: seq<Vertex>, ends: seq<Vertex>,
                                             matrix: seq<seq<real>>, searches: seq<OriginSearch>, gamma: real,
                                             overlap: OverlapTerm, lengthOf: LengthOf)
    requires |starts| <= |searches|
    requires forall i :: 0 <= i < |starts| && searches[i].settled ==> |ends| <= |searches[i].routes|
    ensures ChangedOnly(table, KMatrixRun(table, starts, ends, matrix, searches, gamma, overlap, lengthOf).table,
                        KActivePairs(starts, ends, matrix))
    decreases |starts|
  {
    if starts != [] {
      var i := |starts| - 1;
      var r := KMatrixRun(table, starts[..i], ends, matrix, searches, gamma, overlap, lengthOf);
      KMatrixRunChanges(table, starts[..i], ends, matrix, searches, gamma, overlap, lengthOf);
      assert KActivePairs(starts[..i], ends, matrix) <= KActivePairs(starts, ends, matrix);
      if r.ok && searches[i].settled {
        KRowInActive(starts, ends, matrix, i);
        KRowRunChanges(r.table, starts[i], ends, RowOf(matrix, i), searches[i].routes, gamma, overlap, lengthOf);
      }
    }
  }

  /**
   * Running the matrix one origin further, with `x` the record of that
   * origin's propagation: an origin that did not settle changes nothing;
   * the row of one that did runs as `q` from the table the earlier origins
   * left.
   */
  lemma KMatrixRunAdvance(table: Table, starts: seq<Vertex>, ends: seq<Vertex>, matrix: seq<seq<real>>,
                          searches: seq<OriginSearch>, x: OriginSearch, gamma: real, overlap: OverlapTerm,
                          lengthOf: LengthOf, before: Table, count: nat, q: Run)
    requires |searches| < |starts|
    requires forall a :: 0 <= a < |searches| && searches[a].settled ==> |ends| <= |searches[a].routes|
    requires x.settled ==> |ends| <= |x.routes|
    requires KMatrixRun(table, starts[..|searches|], ends, matrix, searches, gamma, overlap, lengthOf)
             == Run(before, count, true)
    requires x.settled ==>
      KRowRun(before, starts[|searches|], ends, RowOf(matrix, |searches|), x.routes, gamma, overlap, lengthOf) == q
    ensures KMatrixRun(table, starts[..|searches| + 1], ends, matrix, searches + [x], gamma, overlap, lengthOf)
         == if x.settled then Run(q.table, count + q.count, q.ok) else Run(before, count, true)
  {
    var i := |searches|;
    KMatrixRunLonger(table, starts[..i], ends, matrix, searches, x, gamma, overlap, lengthOf);
    assert starts[..i + 1][..i] == starts[..i];
    assert (searches + [x])[i] == x;
  }

  /** A run over the demand matrix grows the table by k-paths only, by the paths it counts. */
  lemma {:induction false} KMatrixRunGrows(table: Table, starts: seq<Vertex>, ends: seq<Vertex>,
                                           matrix: seq<seq<real>>, searches: seq<OriginSearch>, gamma: real,
                                           overlap: OverlapTerm, lengthOf: LengthOf)
    requires |starts| <= |searches|
    requires forall i :: 0 <= i < |starts| && searches[i].settled ==> |ends| <= |searches[i].routes|
    requires forall i, j :: 0 <= i < |starts| && searches[i].settled && 0 <= j < |ends| ==>
      AllRoutesReal(searches[i].routes[j])
    ensures var r := KMatrixRun(table, starts, ends, matrix, searches, gamma, overlap, lengthOf);
      KGrown(table, r.table) && |Slots(r.table)| == |Slots(table)| + r.count
    decreases |starts|
  {
    if starts == [] {
      KGrownReflexive(table);
    } else {
      var i := |starts| - 1;
      var r := KMatrixRun(table, starts[..i], ends, matrix, searches, gamma, overlap, lengthOf);
      KMatrixRunGrows(table, starts[..i], ends, matrix, searches, gamma, overlap, lengthOf);
      if r.ok && searches[i].settled {
        var row := RowOf(matrix, i);
        KRowRunGrows(r.table, starts[i], ends, row, searches[i].routes, gamma, overlap, lengthOf);
        KGrownTransitive(table, r.table,
          KRowRun(r.table, starts[i], ends, row, searches[i].routes, gamma, overlap, lengthOf).table);
      }
    }
  }


  /** The run over `starts` reads only the first |starts| records. */
  lemma {:induction false} KMatrixRunLonger(table: Table, starts: seq<Vertex>, ends: seq<Vertex>, matrix: seq<seq<real>>,
                                            searches: seq<OriginSearch>, x: OriginSearch, gamma: real,
                                            overlap: OverlapTerm, lengthOf: LengthOf)
    requires |starts| <= |searches|
    requires forall i :: 0 <= i < |starts| && searches[i].settled ==> |ends| <= |searches[i].routes|
    ensures KMatrixRun(table, starts, ends, matrix, searches + [x], gamma, overlap, lengthOf)
         == KMatrixRun(table, starts, ends, matrix, searches, gamma, overlap, lengthOf)
    decreases |starts|
  {
    if starts != [] {
      KMatrixRunLonger(table, starts[..|starts| - 1], ends, matrix, searches, x, gamma, overlap, lengthOf);
      assert (searches + [x])[|starts| - 1] == searches[|starts| - 1];
    }
  }

  /** The searched pairs of the first n origins are among all the origins'. */
  lemma KActivePrefix(starts: seq<Vertex>, ends: seq<Vertex>, matrix: seq<seq<real>>, n: nat)
    requires n <= |starts|
    ensures KActivePairs(starts[..n], ends, matrix) <= KActivePairs(starts, ends, matrix)
  {
  }

  /**
   * The pair (s, t), at index j of the demand row `row`, was in the table
   * `before`; its demand entry exists unless its ends are named alike; and
   * when the pair is searched, its list in `after` is what KPathsFor makes
   * of its list in `before` with the routes `routes`, without a raise.
   */
  ghost predicate KSearched(before: Table, after: Table, s: Vertex, t: Vertex, row: seq<real>, j: nat,
                            routes: seq<Option<seq<Edge>>>, gamma: real, overlap: OverlapTerm, lengthOf: LengthOf)
  {
    && s in before && t in before[s] && s in after && t in after[s]
    && (s.name != t.name ==> j < |row|)
    && (j < |row| && KActive(row[j], s, t) ==>
          var k := KPathsFor(s, t, before[s][t], routes, gamma, overlap, lengthOf);
          k.ok && after[s][t] == k.list)
  }

  /**
   * A row's pairs after a run that ended with `ok`: when nothing raised,
   * every pair is KSearched; when something raised, some pair's step raises
   * on the table as it was before the run.
   */
  ghost predicate KRowDone(before: Table, after: Table, s: Vertex, ends: seq<Vertex>, row: seq<real>,
                           routes: seq<seq<Option<seq<Edge>>>>, gamma: real, overlap: OverlapTerm,
                           lengthOf: LengthOf, ok: bool)
    requires |ends| <= |routes|
  {
    && (ok ==> forall j :: 0 <= j < |ends| ==>
          KSearched(before, after, s, ends[j], row, j, routes[j], gamma, overlap, lengthOf))
    && (!ok ==> exists j :: (0 <= j < |ends|
          && !KPairStep(before, s, ends[j], row, j, routes[j], gamma, overlap, lengthOf).ok))
  }

  /**
   * The demand matrix after a run that ended with `ok`: when nothing
   * raised, every pair of every settled origin is KSearched; when something
   * raised, some pair of a settled origin has a step that raises on the
   * table as it was before the run.
   */
  ghost predicate KMatrixDone(before: Table, after: Table, starts: seq<Vertex>, ends: seq<Vertex>,
                              matrix: seq<seq<real>>, searches: seq<OriginSearch>, gamma: real,
                              overlap: OverlapTerm, lengthOf: LengthOf, ok: bool)
    requires |starts| <= |searches|
    requires forall i :: 0 <= i < |starts| && searches[i].settled ==> |ends| <= |searches[i].routes|
  {
    && (ok ==> forall i, j :: 0 <= i < |starts| && searches[i].settled && 0 <= j < |ends| ==>
          KSearched(before, after, starts[i], ends[j], RowOf(matrix, i), j, searches[i].routes[j],
                    gamma, overlap, lengthOf))
    && (!ok ==> exists i, j :: (0 <= i < |starts| && searches[i].settled && 0 <= j < |ends|
          && !KPairStep(before, starts[i], ends[j], RowOf(matrix, i), j, searches[i].routes[j],
                        gamma, overlap, lengthOf).ok))
  }

  /** A pair KSearched in table `a` stays KSearched in a table that changed only pairs other than it. */
  lemma KSearchedKept(before: Table, a: Table, b: Table, s: Vertex, t: Vertex, row: seq<real>, j: nat,
                      routes: seq<Option<seq<Edge>>>, gamma: real, overlap: OverlapTerm, lengthOf: LengthOf,
                      touched: set<(Vertex, Vertex)>)
    requires KSearched(before, a, s, t, row, j, routes, gamma, overlap, lengthOf)
    requires ChangedOnly(a, b, touched) && (s, t) !in touched
    ensures KSearched(before, b, s, t, row, j, routes, gamma, overlap, lengthOf)
  {
  }

  /**
   * Pair j of a row that ran without a raise from table `mid`, where `mid`
   * still holds the pair's list from `before`: the pair is KSearched from
   * `before` in the table the row leaves.
   */
  lemma {:induction false} KRowSearched(before: Table, mid: Table, s: Vertex, ends: seq<Vertex>, row: seq<real>,
                                        routes: seq<seq<Option<seq<Edge>>>>, gamma: real, overlap: OverlapTerm,
                                        lengthOf: LengthOf, j: nat, touched: set<(Vertex, Vertex)>)
    requires |ends| <= |routes| && NoRepeats(ends) && j < |ends|
    requires ChangedOnly(before, mid, touched) && (s, ends[j]) !in touched
    requires KRowRun(mid, s, ends, row, routes, gamma, overlap, lengthOf).ok
    ensures KSearched(before, KRowRun(mid, s, ends, row, routes, gamma, overlap, lengthOf).table,
                      s, ends[j], row, j, routes[j], gamma, overlap, lengthOf)
  {
    KRowRunAt(mid, s, ends, row, routes, gamma, overlap, lengthOf, j);
    KPairStepChanges(mid, s, ends[j], row, j, routes[j], gamma, overlap, lengthOf);
    KPairStepLocal(mid, before, s, ends[j], row, j, routes[j], gamma, overlap, lengthOf);
  }

  /**
   * The last origin of a run that succeeded: the run over the others
   * succeeded, and the last row ran if its propagation settled.
   */
  lemma KMatrixRunLast(table: Table, starts: seq<Vertex>, ends: seq<Vertex>, matrix: seq<seq<real>>,
                       searches: seq<OriginSearch>, gamma: real, overlap: OverlapTerm, lengthOf: LengthOf)
    requires 0 < |starts| <= |searches|
    requires forall i :: 0 <= i < |starts| && searches[i].settled ==> |ends| <= |searches[i].routes|
    requires KMatrixRun(table, starts, ends, matrix, searches, gamma, overlap, lengthOf).ok
    ensures var n := |starts| - 1;
      var r := KMatrixRun(table, starts[..n], ends, matrix, searches, gamma, overlap, lengthOf);
      var m := KMatrixRun(table, starts, ends, matrix, searches, gamma, overlap, lengthOf);
      && r.ok
      && (!searches[n].settled ==> m.table == r.table)
      && (searches[n].settled ==>
            var q := KRowRun(r.table, starts[n], ends, RowOf(matrix, n), searches[n].routes, gamma, overlap, lengthOf);
            q.ok && m.table == q.table)
  {
  }

  /** Pair (i, j) of a settled origin in a run that succeeded, with no origin and no destination listed twice. */
  lemma {:induction false} KMatrixRunAt(table: Table, starts: seq<Vertex>, ends: seq<Vertex>, matrix: seq<seq<real>>,
                                        searches: seq<OriginSearch>, gamma: real, overlap: OverlapTerm,
                                        lengthOf: LengthOf, i: nat, j: nat)
    requires |starts| <= |searches|
    requires forall i :: 0 <= i < |starts| && searches[i].settled ==> |ends| <= |searches[i].routes|
    requires NoRepeats(starts) && NoRepeats(ends) && i < |starts| && j < |ends| && searches[i].settled
    requires KMatrixRun(table, starts, ends, matrix, searches, gamma, overlap, lengthOf).ok
    ensures KSearched(table, KMatrixRun(table, starts, ends, matrix, searches, gamma, overlap, lengthOf).table,
                      starts[i], ends[j], RowOf(matrix, i), j, searches[i].routes[j], gamma, overlap, lengthOf)
    decreases |starts|
  {
    var n := |starts| - 1;
    var st := starts[..n];
    var s := starts[n];
    var t := ends[j];
    var r' := KMatrixRun(table, st, ends, matrix, searches, gamma, overlap, lengthOf);
    var row := RowOf(matrix, n);
    KMatrixRunLast(table, starts, ends, matrix, searches, gamma, overlap, lengthOf);
    KMatrixRunChanges(table, st, ends, matrix, searches, gamma, overlap, lengthOf);
    if i < n {
      KMatrixRunAt(table, st, ends, matrix, searches, gamma, overlap, lengthOf, i, j);
      assert st[i] == starts[i] != s;
      if searches[n].settled {
        assert (starts[i], t) !in KRowPairs(s, ends, row);
        var q := KRowRun(r'.table, s, ends, row, searches[n].routes, gamma, overlap, lengthOf);
        KRowRunChanges(r'.table, s, ends, row, searches[n].routes, gamma, overlap, lengthOf);
        KSearchedKept(table, r'.table, q.table, starts[i], t, RowOf(matrix, i), j, searches[i].routes[j],
                      gamma, overlap, lengthOf, KRowPairs(s, ends, row));
      }
    } else {
      assert forall a :: 0 <= a < n ==> st[a] != s;
      assert (s, t) !in KActivePairs(st, ends, matrix);
      KRowSearched(table, r'.table, s, ends, row, searches[n].routes, gamma, overlap, lengthOf, j,
                   KActivePairs(st, ends, matrix));
    }
  }

  /**
   * With no origin and no destination listed twice, a run succeeds when
   * every pair of every settled origin takes its step on the table as it
   * was.
   */
  lemma {:induction false} KMatrixRunOk(table: Table, starts: seq<Vertex>, ends: seq<Vertex>, matrix: seq<seq<real>>,
                                        searches: seq<OriginSearch>, gamma: real, overlap: OverlapTerm,
                                        lengthOf: LengthOf)
    requires |starts| <= |searches|
    requires forall i :: 0 <= i < |starts| && searches[i].settled ==> |ends| <= |searches[i].routes|
    requires NoRepeats(starts) && NoRepeats(ends)
    requires forall i, j :: 0 <= i < |starts| && searches[i].settled && 0 <= j < |ends| ==>
      KPairStep(table, starts[i], ends[j], RowOf(matrix, i), j, searches[i].routes[j], gamma, overlap, lengthOf).ok
    ensures KMatrixRun(table, starts, ends, matrix, searches, gamma, overlap, lengthOf).ok
    decreases |starts|
  {
    if starts != [] {
      var n := |starts| - 1;
      var st := starts[..n];
      var s := starts[n];
      KMatrixRunOk(table, st, ends, matrix, searches, gamma, overlap, lengthOf);
      var r' := KMatrixRun(table, st, ends, matrix, searches, gamma, overlap, lengthOf);
      KMatrixRunChanges(table, st, ends, matrix, searches, gamma, overlap, lengthOf);
      if searches[n].settled {
        var row := RowOf(matrix, n);
        assert forall a :: 0 <= a < n ==> st[a] != s;
        forall j | 0 <= j < |ends|
          ensures KPairStep(r'.table, s, ends[j], row, j, searches[n].routes[j], gamma, overlap, lengthOf).ok
        {
          assert (s, ends[j]) !in KActivePairs(st, ends, matrix);
          KPairStepLocal(r'.table, table, s, ends[j], row, j, searches[n].routes[j], gamma, overlap, lengthOf);
        }
        KRowRunOk(r'.table, s, ends, row, searches[n].routes, gamma, overlap, lengthOf);
      }
    }
  }

  /**
   * What calcKPaths does to the table, pair by pair, when no origin and no
   * destination is listed twice. A run without a raise left every pair of
   * every settled origin in the table, with its demand entry present unless
   * its ends are named alike, and a searched pair's list is KPathsFor of
   * its old list and the routes its labels read back into (KSearched). A
   * run that raises has a pair of a settled origin whose step raises on the
   * table as it was before the run.
   */
  lemma KMatrixRunMeaning(table: Table, starts: seq<Vertex>, ends: seq<Vertex>, matrix: seq<seq<real>>,
                          searches: seq<OriginSearch>, gamma: real, overlap: OverlapTerm, lengthOf: LengthOf)
    requires |starts| <= |searches|
    requires forall i :: 0 <= i < |starts| && searches[i].settled ==> |ends| <= |searches[i].routes|
    ensures var r := KMatrixRun(table, starts, ends, matrix, searches, gamma, overlap, lengthOf);
      NoRepeats(starts) && NoRepeats(ends) ==>
        KMatrixDone(table, r.table, starts, ends, matrix, searches, gamma, overlap, lengthOf, r.ok)
  {
    var r := KMatrixRun(table, starts, ends, matrix, searches, gamma, overlap, lengthOf);
    if NoRepeats(starts) && NoRepeats(ends) && r.ok {
      forall i, j | 0 <= i < |starts| && searches[i].settled && 0 <= j < |ends|
        ensures KSearched(table, r.table, starts[i], ends[j], RowOf(matrix, i), j, searches[i].routes[j],
                          gamma, overlap, lengthOf)
      {
        KMatrixRunAt(table, starts, ends, matrix, searches, gamma, overlap, lengthOf, i, j);
      }
    }
    if && NoRepeats(starts) && NoRepeats(ends)
       && forall i, j :: 0 <= i < |starts| && searches[i].settled && 0 <= j < |ends| ==>
            KPairStep(table, starts[i], ends[j], RowOf(matrix, i), j, searches[i].routes[j], gamma, overlap, lengthOf).ok {
      KMatrixRunOk(table, starts, ends, matrix, searches, gamma, overlap, lengthOf);
    }
  }

  /** What a calcKPaths run that ended with table `after`, `count` new paths and flag `ok` promises. */
  lemma KMatrixRunEnds(table: Table, starts: seq<Vertex>, ends: seq<Vertex>, matrix: seq<seq<real>>,
                       searches: seq<OriginSearch>, gamma: real, overlap: OverlapTerm, lengthOf: LengthOf,
                       after: Table, count: nat, ok: bool)
    requires |starts| <= |searches|
    requires forall i :: 0 <= i < |starts| && searches[i].settled ==> |ends| <= |searches[i].routes|
    requires forall i, j :: 0 <= i < |starts| && searches[i].settled && 0 <= j < |ends| ==>
      AllRoutesReal(searches[i].routes[j])
    requires KMatrixRun(table, starts, ends, matrix, searches, gamma, overlap, lengthOf) == Run(after, count, ok)
    ensures KGrown(table, after) && |Slots(after)| == |Slots(table)| + count
    ensures ChangedOnly(table, after, KActivePairs(starts, ends, matrix))
    ensures NoRepeats(starts) && NoRepeats(ends) ==>
      KMatrixDone(table, after, starts, ends, matrix, searches, gamma, overlap, lengthOf, ok)
  {
    KMatrixRunGrows(table, starts, ends, matrix, searches, gamma, overlap, lengthOf);
    KMatrixRunChanges(table, starts, ends, matrix, searches, gamma, overlap, lengthOf);
    KMatrixRunMeaning(table, starts, ends, matrix, searches, gamma, overlap, lengthOf);
  }
}
