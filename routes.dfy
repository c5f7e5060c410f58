/**
 * Route reconstruction: turning the output of a shortest-path search (a
 * predecessor edge per vertex) or a k-path label chain back into the ordered
 * list of real edges from the origin to a destination, and the free-flow cost
 * of such a route.
 */
module Routes {
  import opened Wrappers
  import opened Elements

  /** Python's in-place `list.reverse()`, as a value. */
  function Reverse<T>(s: seq<T>): (r: seq<T>)
    ensures |r| == |s|
    ensures forall i :: 0 <= i < |s| ==> r[i] == s[|s| - 1 - i]
  {
    if s == [] then [] else [s[|s| - 1]] + Reverse(s[..|s| - 1])
  }

  lemma ReverseSnoc<T>(s: seq<T>, x: T)
    ensures Reverse(s + [x]) == [x] + Reverse(s)
  {
    assert (s + [x])[..|s|] == s;
  }

  /** Every edge of the route has kind "real". */
  ghost predicate AllReal(route: seq<Edge>)
  {
    forall i :: 0 <= i < |route| ==> route[i].IsReal()
  }

  /** The free-flow travel time of a route: the sum of its edges' free-flow times. */
  ghost function FreeFlowTime(route: seq<Edge>): real
  {
    if route == [] then 0.0 else route[0].freeflowtime + FreeFlowTime(route[1..])
  }

  lemma {:induction false} FreeFlowTimeAppend(a: seq<Edge>, b: seq<Edge>)
    ensures FreeFlowTime(a + b) == FreeFlowTime(a) + FreeFlowTime(b)
  {
    if a == [] {
      assert a + b == b;
    } else {
      assert (a + b)[1..] == a[1..] + b;
      FreeFlowTimeAppend(a[1..], b);
    }
  }

  /** Sums the edges' free-flow times front to back, as network.py:224-225 does. */
  method SumFreeFlow(route: seq<Edge>) returns (total: real)
    ensures total == FreeFlowTime(route)
  {
    total := 0.0;
    for i := 0 to |route|
      invariant total == FreeFlowTime(route[..i])
    {
      assert route[..i + 1] == route[..i] + [route[i]];
      FreeFlowTimeAppend(route[..i], [route[i]]);
      total := total + route[i].freeflowtime;
    }
    assert route[..|route|] == route;
  }

  // ----- Predecessor maps (the `P` a shortest-path search returns) -----

  /** What a single-source search returns: a distance and a predecessor edge per vertex reached. */
  datatype ShortestPathTree = ShortestPathTree(dist: map<Vertex, real>, pred: map<Vertex, Edge>)

  /** Following `pred[v].source` from `v` meets `origin` within `n` steps. */
  ghost predicate ReachesWithin(pred: map<Vertex, Edge>, v: Vertex, origin: Vertex, n: nat)
    reads pred.Values
  {
    v == origin || (n > 0 && v in pred && ReachesWithin(pred, pred[v].source, origin, n - 1))
  }

  ghost predicate Reaches(pred: map<Vertex, Edge>, v: Vertex, origin: Vertex)
    reads pred.Values
  {
    exists n: nat :: ReachesWithin(pred, v, origin, n)
  }

  /** The real edges met on the way back from `v` to `origin`, listed from `origin` to `v`. */
  ghost function RealRouteWithin(pred: map<Vertex, Edge>, v: Vertex, origin: Vertex, n: nat): seq<Edge>
    requires ReachesWithin(pred, v, origin, n)
    reads pred.Values
  {
    if v == origin then []
    else RealRouteWithin(pred, pred[v].source, origin, n - 1) + (if pred[v].IsReal() then [pred[v]] else [])
  }

  lemma {:induction false} RealRouteWithinAnyBound(pred: map<Vertex, Edge>, v: Vertex, origin: Vertex, n: nat, m: nat)
    requires ReachesWithin(pred, v, origin, n) && ReachesWithin(pred, v, origin, m)
    ensures RealRouteWithin(pred, v, origin, n) == RealRouteWithin(pred, v, origin, m)
  {
    if v != origin {
      RealRouteWithinAnyBound(pred, pred[v].source, origin, n - 1, m - 1);
    }
  }

  /** The route a predecessor map describes from `origin` to `v`. */
  ghost function RealRoute(pred: map<Vertex, Edge>, v: Vertex, origin: Vertex): seq<Edge>
    requires Reaches(pred, v, origin)
    reads pred.Values
  {
    var n: nat :| ReachesWithin(pred, v, origin, n);
    RealRouteWithin(pred, v, origin, n)
  }

  /** Any bound within which the walk reaches `origin` gives the same route. */
  lemma RealRouteAnyBound(pred: map<Vertex, Edge>, v: Vertex, origin: Vertex, n: nat)
    requires ReachesWithin(pred, v, origin, n)
    ensures RealRoute(pred, v, origin) == RealRouteWithin(pred, v, origin, n)
  {
    var m: nat :| ReachesWithin(pred, v, origin, m) && RealRoute(pred, v, origin) == RealRouteWithin(pred, v, origin, m);
    RealRouteWithinAnyBound(pred, v, origin, n, m);
  }

  /** The route to `v` is the route to its predecessor edge's source, then that edge if it is real. */
  lemma RealRouteStep(pred: map<Vertex, Edge>, v: Vertex, origin: Vertex)
    requires Reaches(pred, v, origin) && v != origin
    ensures v in pred && Reaches(pred, pred[v].source, origin)
    ensures RealRoute(pred, v, origin)
         == RealRoute(pred, pred[v].source, origin) + (if pred[v].IsReal() then [pred[v]] else [])
  {
    var n: nat :| ReachesWithin(pred, v, origin, n);
    assert ReachesWithin(pred, pred[v].source, origin, n - 1);
    RealRouteAnyBound(pred, v, origin, n);
    RealRouteAnyBound(pred, pred[v].source, origin, n - 1);
  }

  lemma {:induction false} RealRouteWithinIsReal(pred: map<Vertex, Edge>, v: Vertex, origin: Vertex, n: nat)
    requires ReachesWithin(pred, v, origin, n)
    ensures AllReal(RealRouteWithin(pred, v, origin, n))
    ensures forall e :: e in RealRouteWithin(pred, v, origin, n) ==> e in pred.Values
  {
    if v != origin {
      RealRouteWithinIsReal(pred, pred[v].source, origin, n - 1);
    }
  }

  /** A route rebuilt from a predecessor map holds only real edges, each one a predecessor edge. */
  lemma RealRouteIsReal(pred: map<Vertex, Edge>, v: Vertex, origin: Vertex)
    requires Reaches(pred, v, origin)
    ensures AllReal(RealRoute(pred, v, origin))
    ensures forall e :: e in RealRoute(pred, v, origin) ==> e in pred.Values
  {
    var n: nat :| ReachesWithin(pred, v, origin, n);
    RealRouteAnyBound(pred, v, origin, n);
    RealRouteWithinIsReal(pred, v, origin, n);
  }

  /**
   * network.py:201-207: walks the predecessor edges back from `end` to `origin`,
   * keeping the real ones, then reverses them.
   */
  method WalkPredecessors(pred: map<Vertex, Edge>, end: Vertex, origin: Vertex)
    returns (helpPath: seq<Edge>, helpPathSet: set<Edge>)
    requires Reaches(pred, end, origin)
    ensures helpPath == RealRoute(pred, end, origin)
    ensures helpPathSet == set e | e in helpPath
  {
    ghost var n: nat :| ReachesWithin(pred, end, origin, n);
    helpPath, helpPathSet := [], {};
    var vertex := end;
    ghost var m := n;
    while vertex != origin
      invariant ReachesWithin(pred, vertex, origin, m)
      invariant RealRouteWithin(pred, end, origin, n) == RealRouteWithin(pred, vertex, origin, m) + Reverse(helpPath)
      invariant helpPathSet == set e | e in helpPath
      decreases m
    {
      var e := pred[vertex];
      if e.IsReal() {
        ReverseSnoc(helpPath, e);
        helpPath := helpPath + [e];
        helpPathSet := helpPathSet + {e};
      }
      vertex := e.source;
      m := m - 1;
    }
    RealRouteAnyBound(pred, end, origin, n);
    helpPathSet := set e | e in Reverse(helpPath);
    helpPath := Reverse(helpPath);
  }

  // ----- k-path label chains -----

  /** The edges a label chain records. */
  function ChainEdges(l: Pred): set<Edge>
  {
    match l
    case Origin(_) => {}
    case Label(e, p, _) => {e} + ChainEdges(p)
  }

  /**
   * The real edges of a label chain read back from `v` to `origin`, listed from
   * `origin` to `v`; None when the chain reaches the origin label, which has no
   * edge, while still short of `origin`.
   */
  ghost function LabelRoute(l: Pred, v: Vertex, origin: Vertex): Option<seq<Edge>>
    reads ChainEdges(l)
  {
    if v == origin then Some([])
    else match l
      case Origin(_) => None
      case Label(e, p, _) =>
        match LabelRoute(p, e.source, origin)
        case None => None
        case Some(r) => Some(r + (if e.IsReal() then [e] else []))
  }

  /** A route read off a label chain holds only real edges. */
  lemma {:induction false} LabelRouteIsReal(l: Pred, v: Vertex, origin: Vertex)
    requires LabelRoute(l, v, origin).Some?
    ensures AllReal(LabelRoute(l, v, origin).value)
    ensures forall e :: e in LabelRoute(l, v, origin).value ==> e in ChainEdges(l)
  {
    if v != origin {
      LabelRouteIsReal(l.pred, l.edge.source, origin);
    }
  }

  /** `route` with `tail` appended, when there is a route. */
  function Join(route: Option<seq<Edge>>, tail: seq<Edge>): Option<seq<Edge>>
  {
    match route
    case None => None
    case Some(r) => Some(r + tail)
  }

  /** One step back along a label chain moves the edge from the chain to the collected tail. */
  lemma JoinStep(e: Edge, p: Pred, d: real, v: Vertex, origin: Vertex, tail: seq<Edge>)
    requires v != origin
    ensures Join(LabelRoute(Label(e, p, d), v, origin), tail)
         == Join(LabelRoute(p, e.source, origin), (if e.IsReal() then [e] else []) + tail)
  {
    match LabelRoute(p, e.source, origin)
    case None =>
    case Some(r) =>
      var x := if e.IsReal() then [e] else [];
      assert (r + x) + tail == r + (x + tail);
  }

  /**
   * network.py:261-270: follows the label chain from `end` back to `origin`,
   * collecting the real edges (destination first) and summing their free-flow
   * times. `ok` is false when the chain runs out before `origin`, where the
   * Python code fails on the origin label's missing edge.
   */
  method ReadLabelChain(startPred: Pred, end: Vertex, origin: Vertex)
    returns (temppath: seq<Edge>, temppathcost: real, ok: bool)
    ensures ok <==> LabelRoute(startPred, end, origin).Some?
    ensures ok ==> Reverse(temppath) == LabelRoute(startPred, end, origin).value
    ensures ok ==> temppathcost == FreeFlowTime(Reverse(temppath))
  {
    temppath, temppathcost := [], 0.0;
    var pred := startPred;
    var vertex := end;
    assert LabelRoute(startPred, end, origin) == Join(LabelRoute(pred, vertex, origin), Reverse(temppath)) by {
      match LabelRoute(startPred, end, origin)
      case None =>
      case Some(r) => assert r + [] == r;
    }
    while vertex != origin
      invariant LabelRoute(startPred, end, origin) == Join(LabelRoute(pred, vertex, origin), Reverse(temppath))
      invariant temppathcost == FreeFlowTime(Reverse(temppath))
      decreases pred
    {
      if pred.Origin? {
        ok := false;
        return;
      }
      var e := pred.edge;
      JoinStep(e, pred.pred, pred.distance, vertex, origin, Reverse(temppath));
      if e.IsReal() {
        ReverseSnoc(temppath, e);
        assert ([e] + Reverse(temppath))[1..] == Reverse(temppath);
        temppath := temppath + [e];
        temppathcost := temppathcost + e.freeflowtime;
      } else {
        assert [] + Reverse(temppath) == Reverse(temppath);
      }
      vertex := e.source;
      pred := pred.pred;
    }
    ok := true;
  }
}
