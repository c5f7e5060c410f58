/**
 * The k-path half of `Net.calcKPaths` (network.py:257-287), as values: the
 * labels left at a destination by the label propagation are read back into
 * routes, best label first, and filed as new paths of the OD pair until one
 * costs more than 1.4 times the cheapest free-flow time the pair already has.
 */
module KPathSets {
  import opened Wrappers
  import opened Elements
  import opened Routes
  import opened Overlaps
  import opened PathTable

  /** network.py:273: the smallest free-flow time of a non-empty path list. */
  function MinFree(ps: seq<Path>): real
    requires |ps| > 0
  {
    if |ps| == 1 then ps[0].freepathtime
    else
      var m := MinFree(ps[..|ps| - 1]);
      var last := ps[|ps| - 1].freepathtime;
      if last < m then last else m
  }

  /** network.py:273: MinFree is the smallest free-flow time of the list, and one of its paths has it. */
  lemma {:induction false} MinFreeIsLeast(ps: seq<Path>)
    requires |ps| > 0
    ensures forall i :: 0 <= i < |ps| ==> MinFree(ps) <= ps[i].freepathtime
    ensures exists i :: 0 <= i < |ps| && MinFree(ps) == ps[i].freepathtime
  {
    if |ps| > 1 {
      var init := ps[..|ps| - 1];
      MinFreeIsLeast(init);
      var k :| 0 <= k < |init| && MinFree(init) == init[k].freepathtime;
      if ps[|ps| - 1].freepathtime < MinFree(init) {
        assert MinFree(ps) == ps[|ps| - 1].freepathtime;
      } else {
        assert MinFree(ps) == ps[k].freepathtime;
      }
      forall i | 0 <= i < |ps| ensures MinFree(ps) <= ps[i].freepathtime {
        if i < |ps| - 1 {
          assert ps[i] == init[i];
        }
      }
    } else {
      assert MinFree(ps) == ps[0].freepathtime;
    }
  }

  /** network.py:272-275: the label cut-off, a route costing more than 1.4 times the cheapest path. */
  predicate CutOff(ps: seq<Path>, cost: real)
  {
    |ps| > 0 && MinFree(ps) * 1.4 < cost / 3600.0
  }

  /**
   * network.py:276-286: the list with a new path for `route` filed last. The
   * older paths add their overlap with it; the new one gets its length, its
   * overlap sum, and `hours` as both its free-flow and its current time.
   */
  function KJoined(s: Vertex, t: Vertex, older: seq<Path>, route: seq<Edge>, hours: real,
                   gamma: real, overlap: OverlapTerm, lengthOf: LengthOf): seq<Path>
  {
    var newpath := NewPath(s, t, route).(length := lengthOf(route), freepathtime := hours, actpathtime := hours,
      sumOverlap := overlap(route, route, gamma) + OverlapWith(route, older, gamma, overlap));
    seq(|older|, i requires 0 <= i < |older| =>
      older[i].(sumOverlap := older[i].sumOverlap + overlap(older[i].edges, route, gamma)))
    + [newpath]
  }

  /** The edges the label chains of `labels` record. */
  ghost function LabelEdges(labels: seq<Pred>): set<Edge>
  {
    set i, e | 0 <= i < |labels| && e in ChainEdges(labels[i]) :: e
  }

  /** network.py:261-271: each label of `labels` read back from `t` to `s` (LabelRoute). */
  ghost function ReadBack(labels: seq<Pred>, t: Vertex, s: Vertex): (routes: seq<Option<seq<Edge>>>)
    reads LabelEdges(labels)
    ensures |routes| == |labels|
    ensures forall i :: 0 <= i < |labels| ==> routes[i] == LabelRoute(labels[i], t, s)
  {
    seq(|labels|, i reads LabelEdges(labels) requires 0 <= i < |labels| =>
      assert ChainEdges(labels[i]) <= LabelEdges(labels);
      LabelRoute(labels[i], t, s))
  }

  /** Every route read back holds only real edges. */
  lemma ReadBackIsReal(labels: seq<Pred>, t: Vertex, s: Vertex)
    ensures AllRoutesReal(ReadBack(labels, t, s))
  {
    forall i | 0 <= i < |labels| && LabelRoute(labels[i], t, s).Some?
      ensures AllReal(LabelRoute(labels[i], t, s).value)
    {
      LabelRouteIsReal(labels[i], t, s);
    }
  }

  /** Every route that was read back holds only real edges. */
  ghost predicate AllRoutesReal(routes: seq<Option<seq<Edge>>>)
  {
    forall i :: 0 <= i < |routes| && routes[i].Some? ==> AllReal(routes[i].value)
  }

  /** What the labels of one OD pair do to its list: the list, the paths added, and false on a raise. */
  datatype KOutcome = KOutcome(list: seq<Path>, count: nat, ok: bool)

  /**
   * network.py:260-287 for the OD pair (s, t), given the routes its labels
   * read back into, best label first: a label whose chain ran out before s
   * (None) raises. A route past the cut-off ends the pair; any other is filed
   * as a new path whose free-flow and current times are its free-flow time
   * in hours.
   */
  ghost function KPathsFor(s: Vertex, t: Vertex, ps: seq<Path>, routes: seq<Option<seq<Edge>>>,
                           gamma: real, overlap: OverlapTerm, lengthOf: LengthOf): KOutcome
    decreases |routes|
  {
    if routes == [] then KOutcome(ps, 0, true)
    else
      match routes[0]
      case None => KOutcome(ps, 0, false)
      case Some(route) =>
        var cost := FreeFlowTime(route);
        if CutOff(ps, cost) then KOutcome(ps, 0, true)
        else
          var r := KPathsFor(s, t, KJoined(s, t, ps, route, cost / 3600.0, gamma, overlap, lengthOf),
                             routes[1..], gamma, overlap, lengthOf);
          KOutcome(r.list, r.count + 1, r.ok)
  }

  /** The edges a label chain records exist: the chain is made of existing labels. */
  lemma {:induction false} ChainAllocated(l: Pred)
    ensures forall e :: e in ChainEdges(l) ==> allocated(e)
  {
    match l
    case Origin(_) =>
    case Label(_, p, _) => ChainAllocated(p);
  }

  /** The edges the chains of `labels` record exist. */
  lemma LabelsAllocated(labels: seq<Pred>)
    ensures forall e :: e in LabelEdges(labels) ==> allocated(e)
  {
    forall i | 0 <= i < |labels| ensures forall e :: e in ChainEdges(labels[i]) ==> allocated(e) {
      ChainAllocated(labels[i]);
    }
  }

  /** network.py:276-286: `route`, costing `temppathcost` seconds, filed as the last path of `ps` (KJoined). */
  method FileKPath(s: Vertex, t: Vertex, ps: seq<Path>, route: seq<Edge>, temppathcost: real, gamma: real,
                   overlap: OverlapTerm, lengthOf: LengthOf) returns (joined: seq<Path>)
    ensures joined == KJoined(s, t, ps, route, temppathcost / 3600.0, gamma, overlap, lengthOf)
  {
    joined := JoinNewPath(s, t, route, ps, gamma, overlap, lengthOf);
    var newpath := joined[|ps|].(freepathtime := temppathcost / 3600.0);
    newpath := newpath.(actpathtime := newpath.freepathtime);
    joined := joined[|ps| := newpath];
  }

  /** A first route within the cut-off is filed, and the other routes go on from the longer list. */
  lemma KPathsForFiled(s: Vertex, t: Vertex, ps: seq<Path>, routes: seq<Option<seq<Edge>>>,
                       gamma: real, overlap: OverlapTerm, lengthOf: LengthOf)
    requires routes != [] && routes[0].Some? && !CutOff(ps, FreeFlowTime(routes[0].value))
    ensures var route := routes[0].value;
      var q := KPathsFor(s, t, KJoined(s, t, ps, route, FreeFlowTime(route) / 3600.0, gamma, overlap, lengthOf),
                         routes[1..], gamma, overlap, lengthOf);
      KPathsFor(s, t, ps, routes, gamma, overlap, lengthOf) == KOutcome(q.list, q.count + 1, q.ok)
  {
  }

  /** Filing the route at `i` moves the outcome of the remaining routes on by one path. */
  lemma KPathsForFiledStep(s: Vertex, t: Vertex, ps: seq<Path>, routes: seq<Option<seq<Edge>>>, i: nat,
                           route: seq<Edge>, cost: real, count: nat, spec: KOutcome,
                           gamma: real, overlap: OverlapTerm, lengthOf: LengthOf)
    requires i < |routes| && routes[i] == Some(route) && cost == FreeFlowTime(route) && !CutOff(ps, cost)
    requires var q := KPathsFor(s, t, ps, routes[i..], gamma, overlap, lengthOf);
      spec == KOutcome(q.list, q.count + count, q.ok)
    ensures var q := KPathsFor(s, t, KJoined(s, t, ps, route, cost / 3600.0, gamma, overlap, lengthOf),
                               routes[i + 1..], gamma, overlap, lengthOf);
      spec == KOutcome(q.list, q.count + count + 1, q.ok)
  {
    assert routes[i..][0] == routes[i];
    assert routes[i..][1..] == routes[i + 1..];
    KPathsForFiled(s, t, ps, routes[i..], gamma, overlap, lengthOf);
  }

  /** The routes end, a chain ran out, or the cut-off applies: the list stays as it is. */
  lemma KPathsForHalt(s: Vertex, t: Vertex, ps: seq<Path>, routes: seq<Option<seq<Edge>>>, i: nat,
                      gamma: real, overlap: OverlapTerm, lengthOf: LengthOf)
    requires i <= |routes|
    requires i < |routes| ==> routes[i].None? || CutOff(ps, FreeFlowTime(routes[i].value))
    ensures KPathsFor(s, t, ps, routes[i..], gamma, overlap, lengthOf) == KOutcome(ps, 0, i == |routes| || routes[i].Some?)
  {
    if i < |routes| {
      assert routes[i..][0] == routes[i];
    } else {
      assert routes[i..] == [];
    }
  }

  /**
   * network.py:260-286 for the OD pair (s, t) with list `odPaths` and the
   * labels `labels` left at t: each label, best first, is read back into a
   * route (ReadLabelChain) and filed as a new path (FileKPath), until a
   * route costs more than 1.4 times the cheapest free-flow time the list
   * has. The outcome is what KPathsFor says of the read-back routes.
   */
  method KPathsList(s: Vertex, t: Vertex, odPaths: seq<Path>, labels: seq<Pred>, gamma: real,
                    overlap: OverlapTerm, lengthOf: LengthOf) returns (r: KOutcome)
    ensures r == KPathsFor(s, t, odPaths, ReadBack(labels, t, s), gamma, overlap, lengthOf)
  {
    ghost var routes := ReadBack(labels, t, s);
    ghost var spec := KPathsFor(s, t, odPaths, routes, gamma, overlap, lengthOf);
    LabelsAllocated(labels);
    var ps, count := odPaths, 0;
    for i := 0 to |labels|
      invariant routes == ReadBack(labels, t, s)
      invariant var q := KPathsFor(s, t, ps, routes[i..], gamma, overlap, lengthOf);
        spec == KOutcome(q.list, q.count + count, q.ok)
    {
      LabelsAllocated(labels);
      var temppath, temppathcost, ok := ReadLabelChain(labels[i], t, s);
      assert routes == ReadBack(labels, t, s);
      assert routes[i] == LabelRoute(labels[i], t, s);
      if !ok {
        KPathsForHalt(s, t, ps, routes, i, gamma, overlap, lengthOf);
        return KOutcome(ps, count, false);
      }
      if |ps| > 0 && MinFree(ps) * 1.4 < temppathcost / 3600.0 {
        KPathsForHalt(s, t, ps, routes, i, gamma, overlap, lengthOf);
        return KOutcome(ps, count, true);
      }
      var route := Reverse(temppath);
      KPathsForFiledStep(s, t, ps, routes, i, route, temppathcost, count, spec, gamma, overlap, lengthOf);
      ps := FileKPath(s, t, ps, route, temppathcost, gamma, overlap, lengthOf);
      count := count + 1;
    }
    KPathsForHalt(s, t, ps, routes, |labels|, gamma, overlap, lengthOf);
    r := KOutcome(ps, count, true);
  }

  /** The two paths differ at most in their overlap sums. */
  predicate SameFigures(p: Path, q: Path)
  {
    p == q.(sumOverlap := p.sumOverlap)
  }

  /** `b` holds `a`'s paths at their places, with only their overlap sums changed. */
  ghost predicate KeepsFigures(a: seq<Path>, b: seq<Path>)
  {
    |a| <= |b| && forall i :: 0 <= i < |a| ==> SameFigures(a[i], b[i])
  }

  /**
   * Path i of `ps` is a k-path of (s, t): only real edges, its free-flow and
   * current times both its edges' free-flow time in hours, and, unless it is
   * the first of the list, at most 1.4 times the cheapest path before it.
   */
  ghost predicate IsKPath(ps: seq<Path>, i: nat, s: Vertex, t: Vertex)
    requires i < |ps|
  {
    var p := ps[i];
    && p.source == s && p.target == t && AllReal(p.edges)
    && p.freepathtime == FreeFlowTime(p.edges) / 3600.0 && p.actpathtime == p.freepathtime
    && (i > 0 ==> p.freepathtime <= MinFree(ps[..i]) * 1.4)
  }

  lemma KeepsFiguresTransitive(a: seq<Path>, b: seq<Path>, c: seq<Path>)
    requires KeepsFigures(a, b) && KeepsFigures(b, c)
    ensures KeepsFigures(a, c)
  {
    forall i | 0 <= i < |a| ensures SameFigures(a[i], c[i]) {
      assert SameFigures(a[i], b[i]);
    }
  }

  /** The cheapest free-flow time depends on the paths' free-flow times only. */
  lemma {:induction false} MinFreeFiguresOnly(a: seq<Path>, b: seq<Path>)
    requires |a| > 0 && KeepsFigures(a, b) && |b| == |a|
    ensures MinFree(a) == MinFree(b)
  {
    if |a| > 1 {
      var a', b' := a[..|a| - 1], b[..|b| - 1];
      assert KeepsFigures(a', b') by {
        forall i | 0 <= i < |a'| ensures SameFigures(a'[i], b'[i]) {
          assert SameFigures(a[i], b[i]);
        }
      }
      MinFreeFiguresOnly(a', b');
      assert b[|b| - 1] == a[|a| - 1].(sumOverlap := b[|b| - 1].sumOverlap);
    }
  }

  /** A k-path stays a k-path when later filings change only the overlap sums. */
  lemma IsKPathKept(a: seq<Path>, b: seq<Path>, i: nat, s: Vertex, t: Vertex)
    requires KeepsFigures(a, b) && i < |a| && IsKPath(a, i, s, t)
    ensures IsKPath(b, i, s, t)
  {
    assert SameFigures(a[i], b[i]);
    if i > 0 {
      var a', b' := a[..i], b[..i];
      assert KeepsFigures(a', b') by {
        forall j | 0 <= j < i ensures SameFigures(a'[j], b'[j]) {
          assert SameFigures(a[j], b[j]);
        }
      }
      MinFreeFiguresOnly(a', b');
    }
  }

  /** Filing a route keeps the older paths at their places with their figures, and adds one path. */
  lemma KJoinedKeeps(s: Vertex, t: Vertex, ps: seq<Path>, route: seq<Edge>, hours: real,
                     gamma: real, overlap: OverlapTerm, lengthOf: LengthOf)
    ensures KeepsFigures(ps, KJoined(s, t, ps, route, hours, gamma, overlap, lengthOf))
    ensures |KJoined(s, t, ps, route, hours, gamma, overlap, lengthOf)| == |ps| + 1
  {
  }

  /** Filing a route keeps the older paths' figures and adds a k-path when the cut-off lets it through. */
  lemma KJoinedFiles(s: Vertex, t: Vertex, ps: seq<Path>, route: seq<Edge>, gamma: real,
                     overlap: OverlapTerm, lengthOf: LengthOf)
    requires AllReal(route) && !CutOff(ps, FreeFlowTime(route))
    ensures KeepsFigures(ps, KJoined(s, t, ps, route, FreeFlowTime(route) / 3600.0, gamma, overlap, lengthOf))
    ensures |KJoined(s, t, ps, route, FreeFlowTime(route) / 3600.0, gamma, overlap, lengthOf)| == |ps| + 1
    ensures IsKPath(KJoined(s, t, ps, route, FreeFlowTime(route) / 3600.0, gamma, overlap, lengthOf), |ps|, s, t)
    ensures KJoined(s, t, ps, route, FreeFlowTime(route) / 3600.0, gamma, overlap, lengthOf)[|ps|].edges == route
  {
    var r := KJoined(s, t, ps, route, FreeFlowTime(route) / 3600.0, gamma, overlap, lengthOf);
    if |ps| > 0 {
      assert r[..|ps|] == seq(|ps|, i requires 0 <= i < |ps| =>
        ps[i].(sumOverlap := ps[i].sumOverlap + overlap(ps[i].edges, route, gamma)));
      MinFreeFiguresOnly(ps, r[..|ps|]);
    }
  }

  /** Every path keeps its own figures. */
  lemma KeepsFiguresReflexive(ps: seq<Path>)
    ensures KeepsFigures(ps, ps)
  {
    forall i | 0 <= i < |ps| ensures SameFigures(ps[i], ps[i]) {
    }
  }

  /** The labels grow a pair's list by exactly the paths counted. */
  lemma {:induction false} KPathsForLength(s: Vertex, t: Vertex, ps: seq<Path>, routes: seq<Option<seq<Edge>>>,
                                           gamma: real, overlap: OverlapTerm, lengthOf: LengthOf)
    decreases |routes|
    ensures |KPathsFor(s, t, ps, routes, gamma, overlap, lengthOf).list| == |ps| + KPathsFor(s, t, ps, routes, gamma, overlap, lengthOf).count
  {
    if routes != [] && routes[0].Some? && !CutOff(ps, FreeFlowTime(routes[0].value)) {
      var route := routes[0].value;
      var ps' := KJoined(s, t, ps, route, FreeFlowTime(route) / 3600.0, gamma, overlap, lengthOf);
      KPathsForLength(s, t, ps', routes[1..], gamma, overlap, lengthOf);
    }
  }

  /** What the labels do to a pair's list: the older paths keep their places and figures. */
  lemma {:induction false} KPathsForKeeps(s: Vertex, t: Vertex, ps: seq<Path>, routes: seq<Option<seq<Edge>>>,
                                          gamma: real, overlap: OverlapTerm, lengthOf: LengthOf)
    decreases |routes|
    ensures KeepsFigures(ps, KPathsFor(s, t, ps, routes, gamma, overlap, lengthOf).list)
  {
    if routes != [] && routes[0].Some? && !CutOff(ps, FreeFlowTime(routes[0].value)) {
      var route := routes[0].value;
      var ps' := KJoined(s, t, ps, route, FreeFlowTime(route) / 3600.0, gamma, overlap, lengthOf);
      KJoinedKeeps(s, t, ps, route, FreeFlowTime(route) / 3600.0, gamma, overlap, lengthOf);
      KPathsForKeeps(s, t, ps', routes[1..], gamma, overlap, lengthOf);
      KeepsFiguresTransitive(ps, ps', KPathsFor(s, t, ps', routes[1..], gamma, overlap, lengthOf).list);
    } else {
      KeepsFiguresReflexive(ps);
    }
  }

  /** The paths filed after `ps` in `c` are k-paths, when `b` adds one to `ps` and `c` adds k-paths to `b`. */
  lemma KPathsAfter(ps: seq<Path>, b: seq<Path>, c: seq<Path>, s: Vertex, t: Vertex)
    requires |b| == |ps| + 1 && IsKPath(b, |ps|, s, t) && KeepsFigures(b, c)
    requires forall i :: |b| <= i < |c| ==> IsKPath(c, i, s, t)
    ensures forall i :: |ps| <= i < |c| ==> IsKPath(c, i, s, t)
  {
    IsKPathKept(b, c, |ps|, s, t);
  }

  /** Every path the labels add to a pair's list is a k-path of (s, t). */
  lemma {:induction false} KPathsForFiles(s: Vertex, t: Vertex, ps: seq<Path>, routes: seq<Option<seq<Edge>>>,
                                          gamma: real, overlap: OverlapTerm, lengthOf: LengthOf)
    requires AllRoutesReal(routes)
    decreases |routes|
    ensures forall i :: |ps| <= i < |KPathsFor(s, t, ps, routes, gamma, overlap, lengthOf).list| ==>
      IsKPath(KPathsFor(s, t, ps, routes, gamma, overlap, lengthOf).list, i, s, t)
  {
    var r := KPathsFor(s, t, ps, routes, gamma, overlap, lengthOf);
    if routes != [] && routes[0].Some? && !CutOff(ps, FreeFlowTime(routes[0].value)) {
      var route := routes[0].value;
      var ps' := KJoined(s, t, ps, route, FreeFlowTime(route) / 3600.0, gamma, overlap, lengthOf);
      var r' := KPathsFor(s, t, ps', routes[1..], gamma, overlap, lengthOf);
      assert r == KOutcome(r'.list, r'.count + 1, r'.ok);
      KJoinedFiles(s, t, ps, route, gamma, overlap, lengthOf);
      assert AllRoutesReal(routes[1..]) by {
        forall i | 0 <= i < |routes[1..]| ensures routes[1..][i] == routes[i + 1] {
        }
      }
      KPathsForFiles(s, t, ps', routes[1..], gamma, overlap, lengthOf);
      KPathsForKeeps(s, t, ps', routes[1..], gamma, overlap, lengthOf);
      KPathsAfter(ps, ps', r'.list, s, t);
    } else {
      assert r.list == ps;
    }
  }

  /**
   * Why the labels of a pair stop before the last one: without a raise, at a
   * route past the cut-off of the list as it then stands; with one, at a
   * label chain that ran out before s.
   */
  lemma {:induction false} KPathsForStops(s: Vertex, t: Vertex, ps: seq<Path>, routes: seq<Option<seq<Edge>>>,
                                          gamma: real, overlap: OverlapTerm, lengthOf: LengthOf)
    decreases |routes|
    ensures var r := KPathsFor(s, t, ps, routes, gamma, overlap, lengthOf);
      && r.count <= |routes|
      && (r.ok && r.count < |routes| ==> routes[r.count].Some? && CutOff(r.list, FreeFlowTime(routes[r.count].value)))
      && (!r.ok ==> r.count < |routes| && routes[r.count].None?)
  {
    if routes != [] && routes[0].Some? {
      var route := routes[0].value;
      if !CutOff(ps, FreeFlowTime(route)) {
        var ps' := KJoined(s, t, ps, route, FreeFlowTime(route) / 3600.0, gamma, overlap, lengthOf);
        KPathsForStops(s, t, ps', routes[1..], gamma, overlap, lengthOf);
        var r' := KPathsFor(s, t, ps', routes[1..], gamma, overlap, lengthOf);
        if r'.count < |routes[1..]| {
          assert routes[1..][r'.count] == routes[r'.count + 1];
        }
      }
    }
  }

  /**
   * `next` files only k-paths beyond the ends of `prev`'s lists, and leaves
   * the older paths at their places with the same figures.
   */
  ghost predicate KGrown(prev: Table, next: Table)
  {
    && prev.Keys == next.Keys
    && (forall s :: s in prev ==> prev[s].Keys == next[s].Keys)
    && (forall s, t :: s in prev && t in prev[s] ==> KeepsFigures(prev[s][t], next[s][t]))
    && (forall s, t, i :: s in prev && t in prev[s] && |prev[s][t]| <= i < |next[s][t]| ==> IsKPath(next[s][t], i, s, t))
  }

  /** A list grown by k-paths of (s, t) is still filed correctly under (s, t). */
  lemma KeptListValid(ps: seq<Path>, qs: seq<Path>, s: Vertex, t: Vertex)
    requires ListValid(ps, s, t) && KeepsFigures(ps, qs)
    requires forall i :: |ps| <= i < |qs| ==> IsKPath(qs, i, s, t)
    ensures ListValid(qs, s, t)
  {
    forall i | 0 <= i < |qs| ensures qs[i].source == s && qs[i].target == t {
      if i < |ps| {
        assert SameFigures(ps[i], qs[i]);
        assert ps[i].source == qs[i].source && ps[i].target == qs[i].target;
      } else {
        assert IsKPath(qs, i, s, t);
      }
    }
  }

  /** Growing by k-paths only adds paths at the ends of the lists. */
  lemma KGrownExtends(prev: Table, next: Table)
    requires KGrown(prev, next)
    ensures Extends(prev, next)
  {
  }

  lemma KGrownReflexive(table: Table)
    ensures KGrown(table, table)
  {
    forall s, t | s in table && t in table[s] ensures KeepsFigures(table[s][t], table[s][t]) {
    }
  }

  lemma KGrownTransitive(a: Table, b: Table, c: Table)
    requires KGrown(a, b) && KGrown(b, c)
    ensures KGrown(a, c)
  {
    forall s, t | s in a && t in a[s] ensures KeepsFigures(a[s][t], c[s][t]) {
      KeepsFiguresTransitive(a[s][t], b[s][t], c[s][t]);
    }
    forall s, t, i | s in a && t in a[s] && |a[s][t]| <= i < |c[s][t]| ensures IsKPath(c[s][t], i, s, t) {
      if i < |b[s][t]| {
        IsKPathKept(b[s][t], c[s][t], i, s, t);
      }
    }
  }

  /** Replacing one list by what the labels made of it grows the table by k-paths only. */
  lemma KGrownWithList(table: Table, s: Vertex, t: Vertex, ps: seq<Path>)
    requires s in table && t in table[s] && KeepsFigures(table[s][t], ps)
    requires forall i :: |table[s][t]| <= i < |ps| ==> IsKPath(ps, i, s, t)
    ensures KGrown(table, WithList(table, s, t, ps))
  {
    var r: Table := WithList(table, s, t, ps);
    forall u, v | u in table && v in table[u] ensures KeepsFigures(table[u][v], r[u][v]) {
      if u != s || v != t {
        assert r[u][v] == table[u][v];
      }
    }
  }
}
