/**
 * The cluster search of `Net.reduce` (network.py:103-148): starting from the
 * target of a real edge, it collects the vertices linked to it by connectors
 * only, alternating between vertices on the sending side (`sources`: their
 * outgoing connectors lead into the cluster) and vertices on the receiving
 * side (`targets`: their incoming connectors come from the cluster), and gives
 * up as soon as a real edge touches the cluster.
 */
module Clusters {
  import opened Elements

  /** Growing `grown` from `before` within `nodes` takes that many vertices off what is left. */
  lemma GrowCount<T>(nodes: set<T>, before: set<T>, grown: set<T>)
    requires before <= grown <= nodes
    ensures |nodes - grown| == |nodes - before| - |grown - before|
  {
    assert nodes - before == (nodes - grown) + (grown - before);
    assert (nodes - grown) * (grown - before) == {};
  }

  /**
   * network.py:116-123: walks the outgoing edges of `source`, filing every
   * target not yet in `targets` there and queueing it at the end of
   * `pending`; `stop` once a real edge turns up. Without a stop, every
   * outgoing edge is a connector whose target is filed; each new vertex is
   * the target of one of them and is queued exactly once. When `source` and
   * `targets` lie in every closed cluster around `start` (with `sources`),
   * so do the new targets.
   */
  method ExploreOut(source: Vertex, targets: set<Vertex>, pending: seq<Vertex>,
                    ghost start: Vertex, ghost sources: set<Vertex>)
    returns (grown: set<Vertex>, queue: seq<Vertex>, stop: bool)
    requires source in sources
    requires forall S, T :: start in S && ClosedCluster(S, T) ==> sources <= S && targets <= T
    ensures targets <= grown && |pending| <= |queue| && queue[..|pending|] == pending
    ensures forall v :: v in queue[|pending|..] <==> v in grown - targets
    ensures |queue| - |pending| == |grown - targets|
    ensures forall v :: v in grown - targets ==> exists e :: e in source.outEdges && e.target == v
    ensures !stop ==> forall e :: e in source.outEdges ==> !e.IsReal() && e.target in grown
    ensures stop ==> exists e :: e in source.outEdges && e.IsReal()
    ensures forall S, T :: start in S && ClosedCluster(S, T) ==> sources <= S && grown <= T
  {
    grown, queue, stop := targets, pending, false;
    var todo := source.outEdges;
    while todo != {}
      invariant todo <= source.outEdges
      invariant targets <= grown && |pending| <= |queue| && queue[..|pending|] == pending
      invariant forall v :: v in queue[|pending|..] <==> v in grown - targets
      invariant |queue| - |pending| == |grown - targets|
      invariant forall v :: v in grown - targets ==> exists e :: e in source.outEdges && e.target == v
      invariant forall e :: e in source.outEdges - todo ==> !e.IsReal() && e.target in grown
      decreases |todo|
    {
      var out :| out in todo;
      if out.IsReal() {
        stop := true;
        break;
      }
      if out.target !in grown {
        assert (grown + {out.target}) - targets == (grown - targets) + {out.target};
        assert (queue + [out.target])[|pending|..] == queue[|pending|..] + [out.target];
        grown := grown + {out.target};
        queue := queue + [out.target];
      }
      todo := todo - {out};
    }
    forall S, T | start in S && ClosedCluster(S, T)
      ensures sources <= S && grown <= T
    {
      forall v | v in grown - targets ensures v in T {
        var e :| e in source.outEdges && e.target == v;
      }
    }
  }

  /**
   * network.py:126-133: walks the incoming edges of `target`, filing every
   * source not yet in `sources` there and queueing it at the end of
   * `pending`; `stop` once a real edge turns up. The mirror of ExploreOut.
   */
  method ExploreIn(target: Vertex, sources: set<Vertex>, pending: seq<Vertex>,
                   ghost start: Vertex, ghost targets: set<Vertex>)
    returns (grown: set<Vertex>, queue: seq<Vertex>, stop: bool)
    requires target in targets
    requires forall S, T :: start in S && ClosedCluster(S, T) ==> sources <= S && targets <= T
    ensures sources <= grown && |pending| <= |queue| && queue[..|pending|] == pending
    ensures forall v :: v in queue[|pending|..] <==> v in grown - sources
    ensures |queue| - |pending| == |grown - sources|
    ensures forall v :: v in grown - sources ==> exists e :: e in target.inEdges && e.source == v
    ensures !stop ==> forall e :: e in target.inEdges ==> !e.IsReal() && e.source in grown
    ensures stop ==> exists e :: e in target.inEdges && e.IsReal()
    ensures forall S, T :: start in S && ClosedCluster(S, T) ==> grown <= S && targets <= T
  {
    grown, queue, stop := sources, pending, false;
    var todo := target.inEdges;
    while todo != {}
      invariant todo <= target.inEdges
      invariant sources <= grown && |pending| <= |queue| && queue[..|pending|] == pending
      invariant forall v :: v in queue[|pending|..] <==> v in grown - sources
      invariant |queue| - |pending| == |grown - sources|
      invariant forall v :: v in grown - sources ==> exists e :: e in target.inEdges && e.source == v
      invariant forall e :: e in target.inEdges - todo ==> !e.IsReal() && e.source in grown
      decreases |todo|
    {
      var incoming :| incoming in todo;
      if incoming.IsReal() {
        stop := true;
        break;
      }
      if incoming.source !in grown {
        assert (grown + {incoming.source}) - sources == (grown - sources) + {incoming.source};
        assert (queue + [incoming.source])[|pending|..] == queue[|pending|..] + [incoming.source];
        grown := grown + {incoming.source};
        queue := queue + [incoming.source];
      }
      todo := todo - {incoming};
    }
    forall S, T | start in S && ClosedCluster(S, T)
      ensures grown <= S && targets <= T
    {
      forall v | v in grown - sources ensures v in S {
        var e :| e in target.inEdges && e.source == v;
      }
    }
  }

  /** The edges leaving a vertex of `vs`. */
  ghost function OutOf(vs: set<Vertex>): set<Edge>
    reads vs
  {
    set v, e | v in vs && e in v.outEdges :: e
  }

  /** The edges entering a vertex of `vs`. */
  ghost function InOf(vs: set<Vertex>): set<Edge>
    reads vs
  {
    set v, e | v in vs && e in v.inEdges :: e
  }

  /** Every edge out of a vertex of `nodes` leads to one, and every edge into one comes from one. */
  ghost predicate Enclosed(nodes: set<Vertex>)
    reads nodes, OutOf(nodes), InOf(nodes)
  {
    && (forall v, e :: v in nodes && e in v.outEdges ==> e.target in nodes)
    && (forall v, e :: v in nodes && e in v.inEdges ==> e.source in nodes)
  }

  /**
   * The cluster (`sources`, `targets`) is closed under connectors: every edge
   * out of a source is a connector into a target, and every edge into a
   * target is a connector from a source.
   */
  ghost predicate ClosedCluster(sources: set<Vertex>, targets: set<Vertex>)
    reads sources, targets, OutOf(sources), InOf(targets)
  {
    && (forall s, e :: s in sources && e in s.outEdges ==> !e.IsReal() && e.target in targets)
    && (forall t, e :: t in targets && e in t.inEdges ==> !e.IsReal() && e.source in sources)
  }

  /** A real edge leaves a source or enters a target of the cluster. */
  ghost predicate TouchesReal(sources: set<Vertex>, targets: set<Vertex>)
    reads sources, targets
  {
    (exists s, e :: s in sources && e in s.outEdges && e.IsReal())
    || (exists t, e :: t in targets && e in t.inEdges && e.IsReal())
  }

  /**
   * What the search knows between two rounds: the queued vertices are filed,
   * and every filed vertex no longer queued has had its edges walked without
   * meeting a real one.
   */
  ghost predicate Frontier(start: Vertex, nodes: set<Vertex>, sources: set<Vertex>, targets: set<Vertex>,
                           pendingSources: seq<Vertex>, pendingTargets: seq<Vertex>)
    reads sources, targets, OutOf(sources), InOf(targets)
  {
    && start in sources && sources <= nodes && targets <= nodes
    && (forall v :: v in pendingSources ==> v in sources)
    && (forall v :: v in pendingTargets ==> v in targets)
    && (forall s, e :: s in sources && s !in pendingSources && e in s.outEdges ==> !e.IsReal() && e.target in targets)
    && (forall t, e :: t in targets && t !in pendingTargets && e in t.inEdges ==> !e.IsReal() && e.source in sources)
  }

  /** What is left to do: the vertices not yet filed on either side, and the queues. */
  function Work(nodes: set<Vertex>, sources: set<Vertex>, targets: set<Vertex>,
                pendingSources: seq<Vertex>, pendingTargets: seq<Vertex>): nat
  {
    |nodes - sources| + |nodes - targets| + |pendingSources| + |pendingTargets|
  }

  /**
   * A queue that kept `pending` as its front and gained exactly the vertices
   * of `grown - before` holds what `pending` held and those vertices, and no
   * other.
   */
  lemma QueueGrowth(pending: seq<Vertex>, queue: seq<Vertex>, before: set<Vertex>, grown: set<Vertex>)
    requires |pending| <= |queue| && queue[..|pending|] == pending
    requires forall v :: v in queue[|pending|..] <==> v in grown - before
    ensures forall v :: v in queue ==> v in pending || v in grown - before
    ensures forall v :: v in grown - before ==> v in queue
    ensures forall v :: v in pending ==> v in queue
  {
    forall v | v in queue ensures v in pending || v in grown - before {
      var i :| 0 <= i < |queue| && queue[i] == v;
      if i >= |pending| {
        assert queue[|pending|..][i - |pending|] == v;
      } else {
        assert queue[..|pending|][i] == v;
      }
    }
    forall v | v in grown - before ensures v in queue {
      assert v in queue[|pending|..];
    }
    forall v | v in pending ensures v in queue {
      assert v in queue[..|pending|];
    }
  }

  /**
   * After a source's outgoing edges were walked without meeting a real edge,
   * the search state is consistent again with that source off the queue.
   */
  lemma SourceWalked(start: Vertex, nodes: set<Vertex>, sources: set<Vertex>, targets: set<Vertex>,
                     targets': set<Vertex>, pendingSources: seq<Vertex>, pendingTargets: seq<Vertex>,
                     pendingTargets': seq<Vertex>)
    requires pendingSources != []
    requires Frontier(start, nodes, sources, targets, pendingSources, pendingTargets)
    requires targets <= targets' <= nodes
    requires forall v :: v in pendingTargets' ==> v in pendingTargets || v in targets' - targets
    requires forall v :: v in pendingTargets ==> v in pendingTargets'
    requires forall v :: v in targets' - targets ==> v in pendingTargets'
    requires forall e :: e in pendingSources[|pendingSources| - 1].outEdges ==> !e.IsReal() && e.target in targets'
    ensures Frontier(start, nodes, sources, targets', pendingSources[..|pendingSources| - 1], pendingTargets')
  {
    var rest := pendingSources[..|pendingSources| - 1];
    assert pendingSources == rest + [pendingSources[|pendingSources| - 1]];
    forall t, e | t in targets' && t !in pendingTargets' && e in t.inEdges
      ensures !e.IsReal() && e.source in sources
    {
      assert t in targets && t !in pendingTargets;
    }
  }

  /** The mirror of SourceWalked, for a target's incoming edges. */
  lemma TargetWalked(start: Vertex, nodes: set<Vertex>, sources: set<Vertex>, targets: set<Vertex>,
                     sources': set<Vertex>, pendingSources: seq<Vertex>, pendingTargets: seq<Vertex>,
                     pendingSources': seq<Vertex>)
    requires pendingTargets != []
    requires Frontier(start, nodes, sources, targets, pendingSources, pendingTargets)
    requires sources <= sources' <= nodes
    requires forall v :: v in pendingSources' ==> v in pendingSources || v in sources' - sources
    requires forall v :: v in pendingSources ==> v in pendingSources'
    requires forall v :: v in sources' - sources ==> v in pendingSources'
    requires forall e :: e in pendingTargets[|pendingTargets| - 1].inEdges ==> !e.IsReal() && e.source in sources'
    ensures Frontier(start, nodes, sources', targets, pendingSources', pendingTargets[..|pendingTargets| - 1])
  {
    var rest := pendingTargets[..|pendingTargets| - 1];
    assert pendingTargets == rest + [pendingTargets[|pendingTargets| - 1]];
    forall s, e | s in sources' && s !in pendingSources' && e in s.outEdges
      ensures !e.IsReal() && e.target in targets
    {
      assert s in sources && s !in pendingSources;
    }
  }

  /**
   * network.py:114-122: takes the most recently queued source and walks its
   * outgoing edges (ExploreOut). Without a stop the search state stays
   * consistent; with one, a real edge leaves a source. Less work is left.
   */
  method SourceRound(start: Vertex, ghost nodes: set<Vertex>, sources: set<Vertex>, targets: set<Vertex>,
                     pendingSources: seq<Vertex>, pendingTargets: seq<Vertex>)
    returns (targets': set<Vertex>, pendingSources': seq<Vertex>, pendingTargets': seq<Vertex>, stop: bool)
    requires Enclosed(nodes) && pendingSources != []
    requires Frontier(start, nodes, sources, targets, pendingSources, pendingTargets)
    requires forall S, T :: start in S && ClosedCluster(S, T) ==> sources <= S && targets <= T
    ensures targets <= targets' <= nodes
    ensures forall S, T :: start in S && ClosedCluster(S, T) ==> sources <= S && targets' <= T
    ensures !stop ==> Frontier(start, nodes, sources, targets', pendingSources', pendingTargets')
    ensures stop ==> TouchesReal(sources, targets')
    ensures Work(nodes, sources, targets', pendingSources', pendingTargets')
          < Work(nodes, sources, targets, pendingSources, pendingTargets)
  {
    var source := pendingSources[|pendingSources| - 1];
    pendingSources' := pendingSources[..|pendingSources| - 1];
    assert forall v :: v in pendingSources' ==> v in pendingSources;
    ghost var outs, ins := OutOf(sources), InOf(targets);
    targets', pendingTargets', stop := ExploreOut(source, targets, pendingTargets, start, sources);
    assert OutOf(sources) == outs && InOf(targets) == ins;
    assert Frontier(start, nodes, sources, targets, pendingSources, pendingTargets);
    assert targets' <= nodes by {
      forall v | v in targets' - targets ensures v in nodes {
        var e :| e in source.outEdges && e.target == v;
      }
    }
    GrowCount(nodes, targets, targets');
    QueueGrowth(pendingTargets, pendingTargets', targets, targets');
    if !stop {
      SourceWalked(start, nodes, sources, targets, targets', pendingSources, pendingTargets, pendingTargets');
    }
  }

  /**
   * network.py:123-131: takes the most recently queued target and walks its
   * incoming edges (ExploreIn). The mirror of SourceRound.
   */
  method TargetRound(start: Vertex, ghost nodes: set<Vertex>, sources: set<Vertex>, targets: set<Vertex>,
                     pendingSources: seq<Vertex>, pendingTargets: seq<Vertex>)
    returns (sources': set<Vertex>, pendingSources': seq<Vertex>, pendingTargets': seq<Vertex>, stop: bool)
    requires Enclosed(nodes) && pendingTargets != []
    requires Frontier(start, nodes, sources, targets, pendingSources, pendingTargets)
    requires forall S, T :: start in S && ClosedCluster(S, T) ==> sources <= S && targets <= T
    ensures sources <= sources' <= nodes
    ensures forall S, T :: start in S && ClosedCluster(S, T) ==> sources' <= S && targets <= T
    ensures !stop ==> Frontier(start, nodes, sources', targets, pendingSources', pendingTargets')
    ensures stop ==> TouchesReal(sources', targets)
    ensures Work(nodes, sources', targets, pendingSources', pendingTargets')
          < Work(nodes, sources, targets, pendingSources, pendingTargets)
  {
    var target := pendingTargets[|pendingTargets| - 1];
    pendingTargets' := pendingTargets[..|pendingTargets| - 1];
    assert forall v :: v in pendingTargets' ==> v in pendingTargets;
    ghost var outs, ins := OutOf(sources), InOf(targets);
    sources', pendingSources', stop := ExploreIn(target, sources, pendingSources, start, targets);
    assert OutOf(sources) == outs && InOf(targets) == ins;
    assert Frontier(start, nodes, sources, targets, pendingSources, pendingTargets);
    assert sources' <= nodes by {
      forall v | v in sources' - sources ensures v in nodes {
        var e :| e in target.inEdges && e.source == v;
      }
    }
    GrowCount(nodes, sources, sources');
    QueueGrowth(pendingSources, pendingSources', sources, sources');
    if !stop {
      TargetWalked(start, nodes, sources, targets, sources', pendingSources, pendingTargets, pendingSources');
    }
  }

  /**
   * network.py:108-131: the cluster search from `start`, taking the most
   * recently queued source, then the most recently queued target, in turn.
   * Every vertex it files is forced into any closed cluster around `start`.
   * It stops exactly when no closed cluster contains `start`, a real edge
   * touching what it filed; otherwise it returns the least closed cluster
   * around `start`, whatever order the edges are walked in.
   */
  method ExpandCluster(start: Vertex, ghost nodes: set<Vertex>)
    returns (sources: set<Vertex>, targets: set<Vertex>, stop: bool)
    requires start in nodes && Enclosed(nodes)
    ensures start in sources && sources <= nodes && targets <= nodes
    ensures forall S, T :: start in S && ClosedCluster(S, T) ==> sources <= S && targets <= T
    ensures !stop ==> ClosedCluster(sources, targets)
    ensures stop ==> TouchesReal(sources, targets)
    ensures stop <==> forall S, T :: start in S ==> !ClosedCluster(S, T)
  {
    sources, targets, stop := {start}, {}, false;
    var pendingSources, pendingTargets := [start], [];
    while !stop && (pendingSources != [] || pendingTargets != [])
      invariant start in sources && sources <= nodes && targets <= nodes
      invariant !stop ==> Frontier(start, nodes, sources, targets, pendingSources, pendingTargets)
      invariant stop ==> TouchesReal(sources, targets)
      invariant forall S, T :: start in S && ClosedCluster(S, T) ==> sources <= S && targets <= T
      decreases Work(nodes, sources, targets, pendingSources, pendingTargets)
    {
      if pendingSources != [] {
        targets, pendingSources, pendingTargets, stop :=
          SourceRound(start, nodes, sources, targets, pendingSources, pendingTargets);
      }
      if !stop && pendingTargets != [] {
        sources, pendingSources, pendingTargets, stop :=
          TargetRound(start, nodes, sources, targets, pendingSources, pendingTargets);
      }
    }
    if stop {
      RealEdgeOpensCluster(start, sources, targets);
    } else {
      FrontierClosed(start, nodes, sources, targets);
      assert start in sources && ClosedCluster(sources, targets);
    }
  }

  /** A search with both queues empty has walked every filed vertex: the cluster is closed. */
  lemma FrontierClosed(start: Vertex, nodes: set<Vertex>, sources: set<Vertex>, targets: set<Vertex>)
    requires Frontier(start, nodes, sources, targets, [], [])
    ensures ClosedCluster(sources, targets)
  {
  }

  /**
   * A cluster that every closed cluster around `start` contains, and that a
   * real edge touches, leaves no closed cluster around `start`.
   */
  lemma RealEdgeOpensCluster(start: Vertex, sources: set<Vertex>, targets: set<Vertex>)
    requires TouchesReal(sources, targets)
    requires forall S, T :: start in S && ClosedCluster(S, T) ==> sources <= S && targets <= T
    ensures forall S, T :: start in S ==> !ClosedCluster(S, T)
  {
    forall S, T | start in S
      ensures !ClosedCluster(S, T)
    {
    }
  }

  /**
   * network.py:135-139: the completeness test of a cluster, every source has
   * at least as many outgoing edges as there are targets; the scan stops at
   * the first source that has fewer.
   */
  method IsComplete(sources: set<Vertex>, targets: set<Vertex>) returns (complete: bool)
    ensures complete <==> forall s :: s in sources ==> |s.outEdges| >= |targets|
  {
    complete := true;
    var todo := sources;
    while todo != {}
      invariant todo <= sources
      invariant forall s :: s in sources - todo ==> |s.outEdges| >= |targets|
      decreases |todo|
    {
      var source :| source in todo;
      if |source.outEdges| < |targets| {
        complete := false;
        break;
      }
      todo := todo - {source};
    }
  }
}
