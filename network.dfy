/**
 * The `Net` class of the traffic-assignment tools (network.py): the road
 * graph, the origin and destination vertices of the demand, and the table of
 * paths found for each origin-destination (OD) pair. The operations: building
 * the graph, shrinking it (linkReduce, reduce), and filling the path table
 * from shortest paths (findNewPath) or from k-path labels (calcKPaths).
 */
module Network {
  import opened Wrappers
  import opened Elements
  import opened Routes
  import opened Novelty
  import opened PathTable
  import opened Containers
  import opened Clusters
  import opened Overlaps
  import opened KPathSets
  import opened Splicing
  import opened Searches

  /**
   * network.py:56-57 and :61-62, the inner loop of initialPathSet and
   * cleanPathSet: every destination of `ends` gets an empty list in the row,
   * and the row's other lists stay.
   */
  method ClearLists(row: map<Vertex, seq<Path>>, ends: seq<Vertex>) returns (r: map<Vertex, seq<Path>>)
    ensures r == row + EmptyLists(ends)
    ensures r.Keys == row.Keys + set t | t in ends
    ensures forall t :: t in r ==> r[t] == if t in ends then [] else row[t]
  {
    r := row;
    for j := 0 to |ends|
      invariant r == row + EmptyLists(ends[..j])
    {
      r := r[ends[j] := []];
      assert ends[..j + 1] == ends[..j] + [ends[j]];
    }
    assert ends[..|ends|] == ends;
  }

  /** A connector that linkReduce can splice forward: its target has no other incoming edge. */
  predicate ForwardCandidate(e: Edge)
    reads e, e.target
  {
    !e.IsReal() && |e.target.inEdges| == 1
  }

  /** A connector that linkReduce can splice backward: its source has no other outgoing edge. */
  predicate BackwardCandidate(e: Edge)
    reads e, e.source
  {
    !e.IsReal() && |e.source.outEdges| == 1
  }

  /**
   * network.py:72-83: the connectors linkReduce splices at `node`. A node with
   * exactly one incoming edge is spliced forward, through its outgoing
   * connectors; any other node backward, through its incoming ones, and then
   * `split` is false once one is found.
   */
  method Candidates(node: Vertex) returns (split: bool, cands: seq<Edge>)
    ensures split <==> |node.inEdges| == 1 || cands == []
    ensures NoRepeats(cands)
    ensures |node.inEdges| == 1 ==> forall e :: e in cands <==> e in node.outEdges && ForwardCandidate(e)
    ensures |node.inEdges| != 1 ==> forall e :: e in cands <==> e in node.inEdges && BackwardCandidate(e)
  {
    split, cands := true, [];
    if |node.inEdges| == 1 {
      var todo := node.outEdges;
      while todo != {}
        invariant todo <= node.outEdges && NoRepeats(cands)
        invariant forall e :: e in cands <==> e in node.outEdges - todo && ForwardCandidate(e)
        decreases |todo|
      {
        var edge :| edge in todo;
        assert edge !in cands;
        if !edge.IsReal() && |edge.target.inEdges| == 1 {
          cands := cands + [edge];
        }
        todo := todo - {edge};
      }
    } else {
      var todo := node.inEdges;
      while todo != {}
        invariant todo <= node.inEdges && NoRepeats(cands)
        invariant forall e :: e in cands <==> e in node.inEdges - todo && BackwardCandidate(e)
        invariant split <==> cands == []
        decreases |todo|
      {
        var edge :| edge in todo;
        assert edge !in cands;
        if !edge.IsReal() && |edge.source.outEdges| == 1 {
          cands := cands + [edge];
          split := false;
        }
        todo := todo - {edge};
      }
    }
  }

  /** network.py:87-89: adds every edge of `links` to the node's outgoing edges and points it from there. */
  method AttachOut(node: Vertex, links: set<Edge>)
    modifies node`outEdges, links`source
    ensures node.outEdges == old(node.outEdges) + links
    ensures forall l :: l in links ==> l.source == node
  {
    var todo := links;
    while todo != {}
      invariant todo <= links
      invariant node.outEdges == old(node.outEdges) + (links - todo)
      invariant forall l :: l in links - todo ==> l.source == node
      decreases |todo|
    {
      var link :| link in todo;
      node.outEdges := node.outEdges + {link};
      link.source := node;
      todo := todo - {link};
    }
  }

  /** network.py:94-96: adds every edge of `links` to the node's incoming edges and points it there. */
  method AttachIn(node: Vertex, links: set<Edge>)
    modifies node`inEdges, links`target
    ensures node.inEdges == old(node.inEdges) + links
    ensures forall l :: l in links ==> l.target == node
  {
    var todo := links;
    while todo != {}
      invariant todo <= links
      invariant node.inEdges == old(node.inEdges) + (links - todo)
      invariant forall l :: l in links - todo ==> l.target == node
      decreases |todo|
    {
      var link :| link in todo;
      node.inEdges := node.inEdges + {link};
      link.target := node;
      todo := todo - {link};
    }
  }

  /** Without repeats, the candidates after the k-th stay in a set that held them once the k-th is taken out. */
  lemma RestStays(cands: seq<Edge>, k: nat, s: set<Edge>)
    requires NoRepeats(cands) && k < |cands|
    requires forall e :: e in cands[k..] ==> e in s
    ensures forall e :: e in cands[k + 1..] ==> e in s - {cands[k]}
  {
    forall e | e in cands[k + 1..] ensures e in s - {cands[k]} {
      var j :| k + 1 <= j < |cands| && cands[j] == e;
      assert e in cands[k..];
    }
  }

  /**
   * One turn of linkReduce's vertex loop (network.py:72-98): the vertex, the
   * direction, the connectors it splices and the vertices it leaves behind
   * for removal.
   */
  datatype Step = Step(node: Vertex, split: bool, cands: seq<Edge>, removed: seq<Vertex>)

  /**
   * network.py:73-83 and 91/98 on a snapshot of the graph: the turn's
   * connectors are, in some order and once each, the non-real edges out of a
   * node with exactly one incoming edge whose target has exactly one incoming
   * edge (split forward), or otherwise the non-real edges into the node whose
   * source has exactly one outgoing edge (backward, `split` false once one is
   * found); the removed vertices are their targets, or sources, in order.
   */
  ghost predicate Chosen(g: Graph, s: Step)
  {
    && (s.split <==> |Ins(g, s.node)| == 1 || s.cands == [])
    && NoRepeats(s.cands)
    && (forall e :: e in s.cands ==> e in g.tgt && e in g.src)
    && (|Ins(g, s.node)| == 1 ==>
          && (forall e :: e in s.cands ==> e in Outs(g, s.node) && !e.IsReal() && |Ins(g, g.tgt[e])| == 1)
          && (forall e :: e in Outs(g, s.node) && !e.IsReal() && e in g.tgt && |Ins(g, g.tgt[e])| == 1 ==> e in s.cands))
    && (|Ins(g, s.node)| != 1 ==>
          && (forall e :: e in s.cands ==> e in Ins(g, s.node) && !e.IsReal() && |Outs(g, g.src[e])| == 1)
          && (forall e :: e in Ins(g, s.node) && !e.IsReal() && e in g.src && |Outs(g, g.src[e])| == 1 ==> e in s.cands))
    && s.removed == Ends(if s.split then g.tgt else g.src, s.cands)
  }

  /** The turn at `node` with the given connectors, leaving behind their targets (forward) or sources (backward). */
  function TurnOf(g: Graph, node: Vertex, split: bool, cands: seq<Edge>): Step
  {
    Step(node, split, cands, Ends(if split then g.tgt else g.src, cands))
  }

  /** The graph after the turn's splices. */
  ghost function Splice(g: Graph, s: Step): Graph
  {
    if s.split then SpliceOutAll(g, s.node, s.cands) else SpliceInAll(g, s.node, s.cands)
  }

  /** The connectors of all turns, in order: the labels linkReduce deletes from the full edge dict. */
  function AllCands(steps: seq<Step>): seq<Edge>
  {
    if steps == [] then [] else AllCands(steps[..|steps| - 1]) + steps[|steps| - 1].cands
  }

  /** The vertices of all turns left behind, in order: linkReduce's `toRemove`. */
  function Removals(steps: seq<Step>): seq<Vertex>
  {
    if steps == [] then [] else Removals(steps[..|steps| - 1]) + steps[|steps| - 1].removed
  }

  /** The graph after all the turns of `steps`, taken in order from `g`. */
  ghost function GraphAfter(g: Graph, steps: seq<Step>): Graph
  {
    if steps == [] then g else Splice(GraphAfter(g, steps[..|steps| - 1]), steps[|steps| - 1])
  }

  /**
   * The record of linkReduce's turns from graph `g`: turn i is taken at
   * `nodes[i]`, on the graph the turns before it left, and chooses its
   * connectors as Chosen describes.
   */
  ghost predicate Record(nodes: seq<Vertex>, g: Graph, steps: seq<Step>)
  {
    && |steps| <= |nodes|
    && forall i :: 0 <= i < |steps| ==> steps[i].node == nodes[i] && Chosen(GraphAfter(g, steps[..i]), steps[i])
  }

  /** The first i + 1 elements of a sequence are its first i and then element i. */
  lemma TakeNext<T>(s: seq<T>, i: nat)
    requires i < |s|
    ensures s[..i] + [s[i]] == s[..i + 1]
  {
  }

  /** A record grows by the turn the next vertex takes on the graph the record leaves. */
  lemma RecordSnoc(nodes: seq<Vertex>, g: Graph, steps: seq<Step>, step: Step)
    requires Record(nodes, g, steps) && |steps| < |nodes|
    requires step.node == nodes[|steps|] && Chosen(GraphAfter(g, steps), step)
    ensures Record(nodes, g, steps + [step])
  {
    var more := steps + [step];
    forall i | 0 <= i < |more|
      ensures more[i].node == nodes[i] && Chosen(GraphAfter(g, more[..i]), more[i])
    {
      if i < |steps| {
        assert more[..i] == steps[..i];
      } else {
        assert more[..i] == steps;
      }
    }
  }

  class Net {
    var vertices: seq<Vertex>
    /** The real edges by label. */
    var edges: map<string, Edge>
    /** All edges by label, connectors included. */
    var fullEdges: map<string, Edge>
    var startVertices: seq<Vertex>
    var endVertices: seq<Vertex>
    var paths: Table
    /** Every vertex this net has created or been given; it only grows. */
    ghost var Nodes: set<Vertex>
    /** Every edge this net has been given; it only grows. */
    ghost var Links: set<Edge>

    /**
     * The graph is closed: the vertex list is within Nodes, the edge sets of
     * every node are within Links and every link's ends are within Nodes.
     * Both edge dicts file each edge under its own label (`edges` only real
     * ones), and the path table is valid.
     */
    ghost predicate Valid()
      reads this, Nodes`inEdges, Nodes`outEdges, Links`source, Links`target
    {
      Listed() && Closed() && Indexed() && TableValid(paths)
    }

    /** The vertex list is within Nodes. */
    ghost predicate Listed()
      reads this`vertices, this`Nodes
    {
      forall v :: v in vertices ==> v in Nodes
    }

    /** The edge sets of every node are within Links and every link's ends are within Nodes. */
    ghost predicate Closed()
      reads this`Nodes, this`Links, Nodes`inEdges, Nodes`outEdges, Links`source, Links`target
    {
      (forall v, e :: v in Nodes && e in v.inEdges ==> e in Links)
      && (forall v, e :: v in Nodes && e in v.outEdges ==> e in Links)
      && (forall e :: e in Links ==> e.source in Nodes && e.target in Nodes)
    }

    /** Both edge dicts file each edge of Links under its own label; `edges` holds only real ones. */
    ghost predicate Indexed()
      reads this`edges, this`fullEdges, this`Links
    {
      (forall l :: l in edges ==> edges[l] in Links && edges[l].name == l && edges[l].IsReal())
      && (forall l :: l in fullEdges ==> fullEdges[l] in Links && fullEdges[l].name == l)
    }

    /** The adjacency of the graph as a value: the edge sets of every node and the ends of every link. */
    ghost function Adjacency(): Graph
      reads this`Nodes, this`Links, Nodes`inEdges, Nodes`outEdges, Links`source, Links`target
    {
      Graph(map v | v in Nodes :: v.outEdges, map v | v in Nodes :: v.inEdges,
            map e | e in Links :: e.source, map e | e in Links :: e.target)
    }

    /** network.py:24-32: an empty net. */
    constructor ()
      ensures Valid()
      ensures vertices == [] && edges == map[] && fullEdges == map[]
      ensures startVertices == [] && endVertices == [] && paths == map[]
      ensures Nodes == {} && Links == {}
    {
      vertices, edges, fullEdges := [], map[], map[];
      startVertices, endVertices, paths := [], [], map[];
      Nodes, Links := {}, {};
    }

    /** network.py:34-37: appends a fresh vertex numbered by its position. */
    method NewVertex() returns (v: Vertex)
      requires Valid()
      modifies this`vertices, this`Nodes
      ensures Valid()
      ensures fresh(v) && v.num == |old(vertices)| && v.name == DecimalString(v.num)
      ensures v.inEdges == {} && v.outEdges == {} && v.preds == [] && !v.wasUpdated
      ensures vertices == old(vertices) + [v] && Nodes == old(Nodes) + {v}
    {
      v := new Vertex(|vertices|);
      vertices := vertices + [v];
      Nodes := Nodes + {v};
    }

    /** network.py:39-40: the real edge with this label; None where Python raises KeyError. */
    function GetEdge(name: string): (r: Option<Edge>)
      requires Valid()
      reads this, Nodes`inEdges, Nodes`outEdges, Links`source, Links`target
      ensures r.Some? <==> name in edges
      ensures r.Some? ==> r.value == edges[name]
      ensures r.Some? ==> r.value.name == name && r.value.IsReal() && r.value in Links
    {
      if name in edges then Some(edges[name]) else None
    }

    /**
     * network.py:42-47: links an edge into its ends' edge sets and files it in
     * the edge dicts by label (in `edges` only when it is real).
     */
    method AddEdge(e: Edge)
      requires Valid() && e.source in Nodes && e.target in Nodes
      modifies this`edges, this`fullEdges, this`Links, e.source`outEdges, e.target`inEdges
      ensures Valid()
      ensures e.source.outEdges == old(e.source.outEdges) + {e}
      ensures e.target.inEdges == old(e.target.inEdges) + {e}
      ensures fullEdges == old(fullEdges)[e.name := e]
      ensures edges == if e.IsReal() then old(edges)[e.name := e] else old(edges)
      ensures e.IsReal() ==> GetEdge(e.name) == Some(e)
      ensures Links == old(Links) + {e}
    {
      e.source.outEdges := e.source.outEdges + {e};
      e.target.inEdges := e.target.inEdges + {e};
      Links := Links + {e};
      if e.kind == RealKind {
        edges := edges[e.name := e];
      }
      fullEdges := fullEdges[e.name := e];
    }

    /** network.py:49-51: a real edge between two fresh vertices. */
    method AddIsolatedRealEdge(name: string)
      requires Valid()
      modifies this`vertices, this`Nodes, this`edges, this`fullEdges, this`Links
      ensures Valid()
      ensures name in edges && fresh(edges[name]) && edges[name].IsReal() && edges[name].name == name
      ensures edges == old(edges)[name := edges[name]] && fullEdges == old(fullEdges)[name := edges[name]]
      ensures vertices == old(vertices) + [edges[name].source, edges[name].target]
      ensures edges[name].source.outEdges == {edges[name]} && edges[name].source.inEdges == {}
      ensures edges[name].target.inEdges == {edges[name]} && edges[name].target.outEdges == {}
    {
      var source := NewVertex();
      var target := NewVertex();
      assert source.inEdges == {} && source.outEdges == {};
      assert vertices == old(vertices) + [source, target];
      assert edges == old(edges) && fullEdges == old(fullEdges);
      var e := new Edge(name, source, target, RealKind);
      assert e.IsReal();
      AddEdge(e);
      assert edges == old(edges)[name := e] && edges[name] == e;
    }

    /** network.py:53-57: an empty path list for every pair of the net's origins and destinations. */
    method InitialPathSet()
      requires Valid()
      modifies this`paths
      ensures Valid()
      ensures paths.Keys == old(paths).Keys + set s | s in startVertices
      ensures forall s :: s in paths ==>
        paths[s] == if s in startVertices then EmptyLists(endVertices) else old(paths)[s]
    {
      for i := 0 to |startVertices|
        invariant paths == Initialized(old(paths), startVertices[..i], endVertices)
        invariant TableValid(paths)
      {
        var s := startVertices[i];
        var row := ClearLists(map[], endVertices);
        assert row == EmptyLists(endVertices);
        ReplacedRowValid(paths, s, row);
        InitializedSnoc(old(paths), startVertices[..i], s, endVertices);
        paths := paths[s := row];
        assert startVertices[..i + 1] == startVertices[..i] + [s];
      }
      assert startVertices[..|startVertices|] == startVertices;
    }

    /**
     * network.py:59-62: empties the list of every pair of the net's origins and
     * destinations. `ok` is false where Python raises KeyError: an origin
     * without a row, reached while there are destinations to clear.
     */
    method CleanPathSet() returns (ok: bool)
      requires Valid()
      modifies this`paths
      ensures Valid()
      ensures ok <==> endVertices == [] || forall i :: 0 <= i < |startVertices| ==> startVertices[i] in old(paths)
      ensures ok ==> paths == Cleaned(old(paths), startVertices, endVertices)
      ensures !ok ==> exists i :: (0 <= i < |startVertices| && startVertices[i] !in old(paths)
                                   && paths == Cleaned(old(paths), startVertices[..i], endVertices))
    {
      for i := 0 to |startVertices|
        invariant paths == Cleaned(old(paths), startVertices[..i], endVertices)
        invariant TableValid(paths)
        invariant endVertices == [] || forall j :: 0 <= j < i ==> startVertices[j] in old(paths)
      {
        var s := startVertices[i];
        assert startVertices[..i + 1] == startVertices[..i] + [s];
        if s !in paths {
          if endVertices != [] {
            ok := false;
            return;
          }
          assert Cleaned(old(paths), startVertices[..i + 1], endVertices) == Cleaned(old(paths), startVertices[..i], endVertices);
        } else {
          var row := ClearLists(paths[s], endVertices);
          CleanedSnoc(old(paths), startVertices[..i], s, endVertices);
          ReplacedRowValid(paths, s, row);
          paths := paths[s := row];
        }
      }
      assert startVertices[..|startVertices|] == startVertices;
      ok := true;
    }

    /**
     * network.py:193-233, one OD pair (s, t) of findNewPath, with the search
     * result `tree` of origin s: reads the route to t off the predecessor
     * edges and updates the pair's list as PairOutcome says. `ok` is false
     * where Python raises: KeyError for a destination the search did not reach
     * or a pair missing from the table (nothing changes), ZeroDivisionError
     * from the comparison (the cleared flags stay cleared).
     */
    method FindNewPathForPair(s: Vertex, t: Vertex, tree: ShortestPathTree, ghost found: Found, gamma: real,
                              lohse: bool, overlap: OverlapTerm, lengthOf: LengthOf) returns (added: bool, ok: bool)
      requires TableValid(paths) && found == ReadTree(tree, s) && (t in found.dist ==> t in found.route)
      modifies this`paths
      ensures TableValid(paths)
      ensures !(t in found.dist && s in old(paths) && t in old(paths[s])) ==> !ok && !added && paths == old(paths)
      ensures t in found.dist && s in old(paths) && t in old(paths[s]) ==>
        && t in found.route
        && var o := PairOutcome(s, t, old(paths)[s][t], found.route[t], found.dist[t] / 3600.0,
                                lohse, gamma, overlap, lengthOf);
           paths == WithList(old(paths), s, t, o.list) && added == o.added && ok == o.ok
      ensures added ==> AllReal(paths[s][t][|paths[s][t]| - 1].edges)
      ensures PairStep(old(paths), s, t, found, gamma, lohse, overlap, lengthOf) == Run(paths, if added then 1 else 0, ok)
    {
      if t !in tree.dist || s !in paths || t !in paths[s] {
        PairStepMissing(paths, s, t, found, gamma, lohse, overlap, lengthOf);
        return false, false;
      }
      var pathcost := tree.dist[t] / 3600.0;
      ReadTreeAt(tree, s, t);
      ghost var route := RealRoute(tree.pred, t, s);
      assert found.route[t] == route;
      RealRouteIsReal(tree.pred, t, s);
      ghost var spec := PairOutcome(s, t, paths[s][t], route, pathcost, lohse, gamma, overlap, lengthOf);
      assert spec == PairOutcome(s, t, old(paths)[s][t], found.route[t], found.dist[t] / 3600.0,
                                 lohse, gamma, overlap, lengthOf);

      var helpPath, helpPathSet := WalkPredecessors(tree.pred, t, s);
      assert helpPath == route;
      var o := UpdatePairList(s, t, paths[s][t], helpPath, helpPathSet, pathcost, lohse, gamma, overlap, lengthOf);
      assert o == spec;
      assert |o.list| == |paths[s][t]| + (if o.added then 1 else 0);
      SetList(s, t, o.list);
      added, ok := o.added, o.ok;
      PairStepFound(old(paths), s, t, found, gamma, lohse, overlap, lengthOf);
    }

    /** Files `ps` as the list of (s, t), as the Python code's in-place list updates leave it. */
    method SetList(s: Vertex, t: Vertex, ps: seq<Path>)
      requires TableValid(paths) && s in paths && t in paths[s] && ListValid(ps, s, t)
      modifies this`paths
      ensures TableValid(paths)
      ensures paths == WithList(old(paths), s, t, ps)
      ensures |old(paths[s][t])| <= |ps| ==> Extends(old(paths), paths)
      ensures |ps| == |old(paths[s][t])| ==> Slots(paths) == Slots(old(paths))
      ensures |ps| == |old(paths[s][t])| + 1 ==> |Slots(paths)| == |Slots(old(paths))| + 1
    {
      WithListValid(paths, s, t, ps);
      if |ps| == |paths[s][t]| {
        SlotsSameLength(paths, s, t, ps);
      } else if |ps| == |paths[s][t]| + 1 {
        SlotsOneLonger(paths, s, t, ps);
      }
      paths := WithList(paths, s, t, ps);
    }

    /**
     * network.py:192-233, one turn of the loop over destinations: the pair
     * (s, endVertices[j]) is searched when it is active, and skipped
     * otherwise. The run over the first j + 1 destinations is the run over
     * the first j followed by this turn.
     */
    method FindNewPathAt(s: Vertex, endVertices: seq<Vertex>, demand: seq<real>, tree: ShortestPathTree,
                         ghost found: Found, gamma: real, lohse: bool, overlap: OverlapTerm, lengthOf: LengthOf,
                         j: nat, ghost start: Table, ghost sofar: nat)
      returns (count: nat, ok: bool)
      requires TableValid(paths) && j < |endVertices| <= |demand|
      requires found == ReadTree(tree, s) && RowFound(s, endVertices, demand, found)
      requires RowRun(start, s, endVertices[..j], demand, found, gamma, lohse, overlap, lengthOf) == Run(paths, sofar, true)
      modifies this`paths
      ensures TableValid(paths)
      ensures RowRun(start, s, endVertices[..j + 1], demand, found, gamma, lohse, overlap, lengthOf)
              == Run(paths, sofar + count, ok)
    {
      ghost var before := paths;
      if demand[j] > 0.0 && s.name != endVertices[j].name {
        var added;
        added, ok := FindNewPathForPair(s, endVertices[j], tree, found, gamma, lohse, overlap, lengthOf);
        count := if added then 1 else 0;
      } else {
        count, ok := 0, true;
      }
      RowRunTurn(start, s, endVertices, demand, found, gamma, lohse, overlap, lengthOf, j,
                 before, sofar, Run(paths, count, ok));
    }

    /**
     * network.py:189-233, the destinations of one origin s: every destination
     * its demand row asks for gets its pair's list updated from the search
     * result `tree` (RowRun, over the result read as values); the new paths
     * are counted. `ok` is false when a pair raises, which ends the run. With
     * no destination listed twice, a run without a raise left every active
     * pair's list as PairOutcome makes it of its old list (Searched), and
     * there is a raise only when some active pair's step raises.
     */
    method FindNewPathsFrom(s: Vertex, endVertices: seq<Vertex>, demand: seq<real>, tree: ShortestPathTree,
                            ghost found: Found, gamma: real, lohse: bool, overlap: OverlapTerm, lengthOf: LengthOf)
      returns (newRoutes: nat, ok: bool)
      requires TableValid(paths) && |endVertices| <= |demand|
      requires found == ReadTree(tree, s) && RowFound(s, endVertices, demand, found)
      modifies this`paths
      ensures TableValid(paths)
      ensures RowRun(old(paths), s, endVertices, demand, found, gamma, lohse, overlap, lengthOf) == Run(paths, newRoutes, ok)
      ensures NoRepeats(endVertices) ==>
        RowDone(old(paths), paths, s, endVertices, demand, found, gamma, lohse, overlap, lengthOf, ok)
    {
      newRoutes, ok := 0, true;
      var j := 0;
      while j < |endVertices| && ok
        invariant j <= |endVertices| && TableValid(paths)
        invariant RowRun(old(paths), s, endVertices[..j], demand, found, gamma, lohse, overlap, lengthOf)
               == Run(paths, newRoutes, ok)
      {
        var count;
        count, ok := FindNewPathAt(s, endVertices, demand, tree, found, gamma, lohse, overlap, lengthOf,
                                   j, old(paths), newRoutes);
        newRoutes := newRoutes + count;
        j := j + 1;
      }
      if ok {
        assert endVertices[..j] == endVertices;
      } else {
        RowRunStops(old(paths), s, endVertices, demand, found, gamma, lohse, overlap, lengthOf, j);
      }
      RowRunMeaning(old(paths), s, endVertices, demand, found, gamma, lohse, overlap, lengthOf);
    }

    /**
     * network.py:192-234, one turn of the loop over origins: origin i's row is
     * read from the matrix (an IndexError when it is missing or shorter than
     * `endVertices`), then its destinations are searched. The run over the
     * first i + 1 origins is the run over the first i followed by this turn.
     */
    method FindNewPathsOf(startVertices: seq<Vertex>, endVertices: seq<Vertex>, matrixPshort: seq<seq<real>>,
                          gamma: real, lohse: bool, trees: seq<ShortestPathTree>, overlap: OverlapTerm, lengthOf: LengthOf,
                          i: nat, ghost start: Table, ghost founds: seq<Found>, ghost sofar: nat)
      returns (count: nat, ok: bool)
      requires i < |startVertices| <= |founds| && i < |trees| && TableValid(paths)
      requires founds[i] == ReadTree(trees[i], startVertices[i])
      requires RowFound(startVertices[i], endVertices, RowOf(matrixPshort, i), founds[i])
      requires MatrixRun(start, startVertices[..i], endVertices, matrixPshort, founds, gamma, lohse, overlap, lengthOf)
               == Run(paths, sofar, true)
      modifies this`paths
      ensures TableValid(paths)
      ensures MatrixRun(start, startVertices[..i + 1], endVertices, matrixPshort, founds, gamma, lohse, overlap, lengthOf)
              == Run(paths, sofar + count, ok)
    {
      if |endVertices| > 0 && (i >= |matrixPshort| || |matrixPshort[i]| < |endVertices|) {
        MatrixRunShort(start, startVertices, endVertices, matrixPshort, founds, gamma, lohse, overlap, lengthOf,
                       i, paths, sofar);
        count, ok := 0, false;
      } else {
        ghost var before := paths;
        count, ok := FindNewPathsFrom(startVertices[i], endVertices, RowOf(matrixPshort, i), trees[i], founds[i],
                                      gamma, lohse, overlap, lengthOf);
        MatrixRunAdvance(start, startVertices, endVertices, matrixPshort, founds, gamma, lohse, overlap, lengthOf,
                         i, before, sofar, Run(paths, count, ok));
      }
    }

    /**
     * network.py:177-234: for every origin, the destinations its demand row
     * asks for (a positive matrix entry, and a destination named differently
     * from the origin), with the origin's search result `trees[i]`. The search
     * itself (dijkstraPlain or dijkstraBoost) is not modelled: its result is an
     * input. The table ends as MatrixRun says over the results read as values:
     * a row missing or shorter than `endVertices` raises before any of its
     * pairs; the new paths are counted; `ok` is false when something raises,
     * which ends the run. With no origin and no destination listed twice, a
     * run without a raise covered every row in full and left every active
     * pair as PairOutcome makes it of its old list (PairDone); and a raise
     * comes only from a short row or an active pair whose step raises.
     */
    method FindNewPath(startVertices: seq<Vertex>, endVertices: seq<Vertex>, matrixPshort: seq<seq<real>>,
                       gamma: real, lohse: bool, trees: seq<ShortestPathTree>, ghost founds: seq<Found>,
                       overlap: OverlapTerm, lengthOf: LengthOf)
      returns (newRoutes: nat, ok: bool)
      requires TableValid(paths) && |trees| == |startVertices| == |founds|
      requires forall i :: 0 <= i < |startVertices| ==> founds[i] == ReadTree(trees[i], startVertices[i])
      requires forall i :: 0 <= i < |startVertices| ==> RowFound(startVertices[i], endVertices, RowOf(matrixPshort, i), founds[i])
      modifies this`paths
      ensures TableValid(paths)
      ensures Extends(old(paths), paths)
      ensures newRoutes == |Slots(paths)| - |Slots(old(paths))|
      ensures MatrixRun(old(paths), startVertices, endVertices, matrixPshort, founds,
                        gamma, lohse, overlap, lengthOf) == Run(paths, newRoutes, ok)
      ensures ChangedOnly(old(paths), paths, ActivePairs(startVertices, endVertices, matrixPshort))
      ensures NoRepeats(startVertices) && NoRepeats(endVertices) ==>
        MatrixDone(old(paths), paths, startVertices, endVertices, matrixPshort, founds,
                   gamma, lohse, overlap, lengthOf, ok)
    {
      newRoutes, ok := 0, true;
      var i := 0;
      while i < |startVertices| && ok
        invariant i <= |startVertices| && TableValid(paths)
        invariant MatrixRun(old(paths), startVertices[..i], endVertices, matrixPshort, founds,
                            gamma, lohse, overlap, lengthOf) == Run(paths, newRoutes, ok)
      {
        assert founds[i] == ReadTree(trees[i], startVertices[i]);
        var count;
        count, ok := FindNewPathsOf(startVertices, endVertices, matrixPshort, gamma, lohse, trees, overlap, lengthOf,
                                    i, old(paths), founds, newRoutes);
        newRoutes := newRoutes + count;
        i := i + 1;
      }
      if ok {
        assert startVertices[..i] == startVertices;
      } else {
        MatrixRunStops(old(paths), startVertices, endVertices, matrixPshort, founds, gamma, lohse, overlap, lengthOf, i);
      }
      MatrixRunEnds(old(paths), startVertices, endVertices, matrixPshort, founds, gamma, lohse, overlap, lengthOf,
                    paths, newRoutes, ok);
    }

    /**
     * network.py:244-247: every listed vertex loses its labels and its
     * pending flag, and the origin gets the single zero-cost label that
     * starts every chain.
     */
    method StartLabels(origin: Vertex)
      requires Valid() && origin in Nodes
      modifies Nodes`preds, Nodes`wasUpdated
      ensures Valid()
      ensures origin.preds == (if origin in vertices then [] else old(origin.preds)) + [Origin(0.0)]
      ensures origin.wasUpdated == (origin !in vertices && old(origin.wasUpdated))
      ensures forall v :: v in vertices && v != origin ==> v.preds == [] && !v.wasUpdated
      ensures forall v :: v in Nodes && v !in vertices && v != origin ==>
        v.preds == old(v.preds) && v.wasUpdated == old(v.wasUpdated)
    {
      for j := 0 to |vertices|
        invariant forall i :: 0 <= i < j ==> vertices[i].preds == [] && !vertices[i].wasUpdated
        invariant forall v :: v in Nodes && v !in vertices[..j] ==>
          v.preds == old(v.preds) && v.wasUpdated == old(v.wasUpdated)
      {
        vertices[j].preds := [];
        vertices[j].wasUpdated := false;
      }
      assert vertices[..|vertices|] == vertices;
      origin.preds := origin.preds + [Origin(0.0)];
    }

    /**
     * Every unlisted vertex that was pending at `pending0` and has not had
     * its turn as an origin in `done` is still pending.
     */
    ghost predicate StillPending(pending0: set<Vertex>, done: seq<Vertex>)
      reads this`Nodes, this`vertices, Nodes`wasUpdated
    {
      forall v :: v in Nodes && v !in vertices && v !in done && v in pending0 ==> v.wasUpdated
    }

    /** Every pending vertex was pending at `pending0`. */
    ghost predicate PendingWithin(pending0: set<Vertex>)
      reads this`Nodes, Nodes`wasUpdated
    {
      forall v :: v in Nodes && v.wasUpdated ==> v in pending0
    }

    /** No listed vertex is pending. */
    ghost predicate ListedClear()
      reads this`Nodes, this`vertices, Nodes`wasUpdated
    {
      forall v :: v in Nodes && v.wasUpdated ==> v !in vertices
    }

    /**
     * Some pending vertex was made pending since `pending0`: it is listed,
     * had its turn as an origin in `done`, or was not pending at `pending0`.
     */
    ghost predicate NewlyPending(pending0: set<Vertex>, done: seq<Vertex>)
      reads this`Nodes, this`vertices, Nodes`wasUpdated
    {
      exists v :: v in Nodes && v.wasUpdated && (v in vertices || v in done || v !in pending0)
    }

    /**
     * The pending flags after the origins of `done` had their turns, from
     * flags within `pending0`: those of unlisted vertices not yet origins are
     * kept; with every turn settled, every pending vertex is within
     * `pending0` and, once there was a turn, unlisted; with the last turn
     * unsettled, the fuel was zero or some vertex was made pending.
     */
    ghost predicate PendingAfter(pending0: set<Vertex>, done: seq<Vertex>, settled: bool, fuel: nat)
      reads this`Nodes, this`vertices, Nodes`wasUpdated
    {
      && StillPending(pending0, done)
      && (settled ==> PendingWithin(pending0) && (done != [] ==> fuel > 0 && ListedClear()))
      && (!settled ==> fuel == 0 || NewlyPending(pending0, done))
    }

    /**
     * network.py:244-255, the labelling for one origin: the labels are reset
     * (StartLabels) and propagated (Propagate). `settled` holds exactly when
     * there was fuel for a turn and every vertex left pending is one outside
     * the vertex list that was pending before; a listed vertex lost its flag
     * in the reset, so one pending now was made pending by the propagation.
     * An unlisted vertex other than the origin that was pending stays so.
     * Over the origins `done` before this one, starting from flags within
     * `pending0`, the turn keeps PendingAfter.
     */
    method LabelFrom(origin: Vertex, kPaths: nat, merge: LabelMerge, fuel: nat,
                     ghost pending0: set<Vertex>, ghost done: seq<Vertex>)
      returns (settled: bool)
      requires Valid() && origin in Nodes
      requires StillPending(pending0, done) && PendingWithin(pending0)
      modifies Nodes`preds, Nodes`wasUpdated
      ensures Valid()
      ensures origin.preds == (if origin in vertices then [] else old(origin.preds)) + [Origin(0.0)]
      ensures settled <==> fuel > 0 && forall v :: v in Nodes && v.wasUpdated ==> v !in vertices && old(v.wasUpdated)
      ensures forall v :: v in Nodes && v !in vertices && v != origin && old(v.wasUpdated) ==> v.wasUpdated
      ensures PendingAfter(pending0, done + [origin], settled, fuel)
    {
      StartLabels(origin);
      settled := Propagate(origin, kPaths, merge, fuel);
      if !settled && fuel > 0 {
        ghost var w :| w in Nodes && w.wasUpdated && !(w !in vertices && old(w.wasUpdated));
        assert w in vertices || w in done + [origin] || w !in pending0;
      }
    }

    /**
     * network.py:248-254: the label propagation from `origin`, first in first
     * out. A vertex taken from the queue drops its pending flag, and every
     * outgoing edge not leading back to the origin merges the vertex's labels
     * into its target's (Vertex.Update); a target whose labels changed is
     * queued unless it is pending already. The origin's own labels never
     * change. `fuel` bounds the number of vertices taken from the queue.
     * `settled` says that the queue emptied. That happens exactly when there
     * was fuel for at least one turn and no vertex is left newly pending: a
     * queue still holding vertices when the fuel runs out holds a vertex that
     * Vertex.Update made pending. A vertex other than the origin that was
     * pending before stays pending, because only queued vertices drop the
     * flag and Vertex.Update never queues a pending vertex.
     */
    method Propagate(origin: Vertex, kPaths: nat, merge: LabelMerge, fuel: nat) returns (settled: bool)
      requires Valid() && origin in Nodes
      modifies Nodes`preds, Nodes`wasUpdated
      ensures Valid()
      ensures origin.preds == old(origin.preds)
      ensures settled <==> fuel > 0 && forall v :: v in Nodes && v.wasUpdated ==> old(v.wasUpdated)
      ensures forall v :: v in Nodes && v != origin && old(v.wasUpdated) ==> v.wasUpdated
      ensures forall v :: v in Nodes && v.preds != old(v.preds) ==> exists e :: e in Links && e.target == v
    {
      var queue := [origin];
      var steps := fuel;
      while queue != [] && steps > 0
        invariant forall v :: v in queue ==> v in Nodes
        invariant NoRepeats(queue)
        invariant 0 <= steps <= fuel && (steps == fuel ==> queue == [origin]) && (steps < fuel ==> origin !in queue)
        invariant forall v :: v in queue && v != origin ==> v.wasUpdated && !old(v.wasUpdated)
        invariant forall v :: v in Nodes && v != origin && old(v.wasUpdated) ==> v.wasUpdated
        invariant forall v :: v in Nodes && v.wasUpdated && !old(v.wasUpdated) ==> v in queue
        invariant origin.preds == old(origin.preds)
        invariant forall v :: v in Nodes && v.preds != old(v.preds) ==> exists e :: e in Links && e.target == v
        decreases steps
      {
        var vertex := queue[0];
        queue := queue[1..];
        vertex.wasUpdated := false;
        queue := Relax(origin, vertex, kPaths, merge, queue);
        steps := steps - 1;
      }
      settled := queue == [];
      if !settled && fuel > 0 {
        assert queue[0].wasUpdated && !old(queue[0].wasUpdated);
      }
    }

    /**
     * network.py:252-254, the edges out of one vertex taken from the queue:
     * each target other than the origin merges `vertex`'s labels, and is
     * appended to the queue when Vertex.Update asks for it.
     */
    method Relax(origin: Vertex, vertex: Vertex, kPaths: nat, merge: LabelMerge, queue: seq<Vertex>)
      returns (queue': seq<Vertex>)
      requires Valid() && vertex in Nodes
      requires forall v :: v in queue ==> v in Nodes
      requires NoRepeats(queue) && vertex !in queue
      requires forall v :: v in queue && v != origin ==> v.wasUpdated
      modifies Nodes`preds, Nodes`wasUpdated
      ensures Valid()
      ensures |queue| <= |queue'| && queue'[..|queue|] == queue
      ensures forall v :: v in queue' ==> v in Nodes
      ensures NoRepeats(queue')
      ensures forall v :: v in queue' && v != origin ==> v.wasUpdated
      ensures forall i :: |queue| <= i < |queue'| ==> queue'[i] != origin && queue'[i] in Nodes && !old(queue'[i].wasUpdated)
      ensures forall v :: v in Nodes && v.wasUpdated && !old(v.wasUpdated) ==> v in queue'
      ensures forall v :: v in Nodes && v.wasUpdated != old(v.wasUpdated) ==> v.wasUpdated
      ensures origin.preds == old(origin.preds)
      ensures forall v :: v in Nodes && v.preds != old(v.preds) ==>
        (exists e :: e in vertex.outEdges && e.target == v) && (v in queue' || old(v.wasUpdated))
    {
      queue' := queue;
      var out := vertex.outEdges;
      while out != {}
        invariant out <= vertex.outEdges
        invariant |queue| <= |queue'| && queue'[..|queue|] == queue
        invariant forall v :: v in queue' ==> v in Nodes
        invariant NoRepeats(queue')
        invariant forall v :: v in queue' && v != origin ==> v.wasUpdated
        invariant forall i :: |queue| <= i < |queue'| ==> queue'[i] != origin && queue'[i] in Nodes && !old(queue'[i].wasUpdated)
        invariant forall v :: v in Nodes && v.wasUpdated && !old(v.wasUpdated) ==> v in queue'
        invariant forall v :: v in Nodes && v.wasUpdated != old(v.wasUpdated) ==> v.wasUpdated
        invariant origin.preds == old(origin.preds)
        invariant forall v :: v in Nodes && v.preds != old(v.preds) ==>
          (exists e :: e in vertex.outEdges - out && e.target == v) && (v in queue' || old(v.wasUpdated))
        decreases out
      {
        var edge :| edge in out;
        out := out - {edge};
        var target := edge.target;
        if target != origin {
          var enqueue := target.Update(kPaths, edge, merge);
          if enqueue {
            queue' := queue' + [target];
          }
        }
      }
    }

    /**
     * network.py:258-286, one OD pair (s, t) of calcKPaths, with `labels` the
     * labels the propagation left at t and `routes` what they read back
     * into: the pair's list becomes what KPathsFor makes of it, the paths
     * filed before a raise included; `ok` is false where a chain runs out
     * before the origin, which raises.
     */
    method KPathsForPair(s: Vertex, t: Vertex, labels: seq<Pred>, ghost routes: seq<Option<seq<Edge>>>,
                         gamma: real, overlap: OverlapTerm, lengthOf: LengthOf) returns (count: nat, ok: bool)
      requires TableValid(paths) && s in paths && t in paths[s]
      requires routes == ReadBack(labels, t, s)
      modifies this`paths
      ensures TableValid(paths)
      ensures var r := KPathsFor(s, t, old(paths[s][t]), routes, gamma, overlap, lengthOf);
        paths == WithList(old(paths), s, t, r.list) && count == r.count && ok == r.ok
    {
      ghost var older := paths[s][t];
      LabelsAllocated(labels);
      ReadBackIsReal(labels, t, s);
      var r := KPathsList(s, t, paths[s][t], labels, gamma, overlap, lengthOf);
      KPathsForKeeps(s, t, older, routes, gamma, overlap, lengthOf);
      KPathsForFiles(s, t, older, routes, gamma, overlap, lengthOf);
      KeptListValid(older, r.list, s, t);
      SetList(s, t, r.list);
      count, ok := r.count, r.ok;
    }

    /**
     * network.py:257-259, destination t, at index j, of origin s, with `row`
     * the origin's demand row and `routes` what the labels at t read back
     * into: the pair is looked up first, and `ok` is false when the table
     * lacks it (KeyError); a pair whose ends are named alike is left as it
     * is; the demand entry is read next, and `ok` is false past the row's
     * end (IndexError); a non-zero entry gets the pair its k-paths from the
     * labels at t (KPathsForPair). KPairStep states all of this.
     */
    method KPathsTo(s: Vertex, t: Vertex, row: seq<real>, j: nat, ghost routes: seq<Option<seq<Edge>>>,
                    gamma: real, overlap: OverlapTerm, lengthOf: LengthOf) returns (count: nat, ok: bool)
      requires TableValid(paths) && routes == ReadBack(t.preds, t, s)
      modifies this`paths
      ensures TableValid(paths)
      ensures KPairStep(old(paths), s, t, row, j, routes, gamma, overlap, lengthOf) == Run(paths, count, ok)
      ensures ok ==> KSearched(old(paths), paths, s, t, row, j, routes, gamma, overlap, lengthOf)
    {
      if s !in paths || t !in paths[s] {
        return 0, false;
      }
      if s.name == t.name {
        return 0, true;
      }
      if j >= |row| {
        return 0, false;
      }
      if row[j] != 0.0 {
        count, ok := KPathsForPair(s, t, t.preds, routes, gamma, overlap, lengthOf);
      } else {
        count, ok := 0, true;
      }
    }

    /**
     * network.py:256-287, the destinations of origin s once its labels are
     * propagated, in order (KPathsTo), with `row` the origin's demand row and
     * `routes[j]` what the labels at endVertices[j] read back into: the
     * table ends as KRowRun says. The new paths are counted; `ok` is false
     * when a pair raises, which ends the run. With no destination listed
     * twice, every searched pair's list is then KPathsFor of its old list,
     * or some pair's step raises (KRowDone).
     */
    method KPathsFrom(s: Vertex, endVertices: seq<Vertex>, row: seq<real>, ghost routes: seq<seq<Option<seq<Edge>>>>,
                      gamma: real, overlap: OverlapTerm, lengthOf: LengthOf) returns (count: nat, ok: bool)
      requires TableValid(paths) && |routes| == |endVertices|
      requires forall j :: 0 <= j < |endVertices| ==> routes[j] == ReadBack(endVertices[j].preds, endVertices[j], s)
      modifies this`paths
      ensures TableValid(paths)
      ensures forall j :: 0 <= j < |endVertices| ==> routes[j] == ReadBack(endVertices[j].preds, endVertices[j], s)
      ensures KRowRun(old(paths), s, endVertices, row, routes, gamma, overlap, lengthOf) == Run(paths, count, ok)
      ensures NoRepeats(endVertices) ==>
        KRowDone(old(paths), paths, s, endVertices, row, routes, gamma, overlap, lengthOf, ok)
    {
      forall j | 0 <= j < |endVertices| ensures forall e :: e in LabelEdges(endVertices[j].preds) ==> allocated(e) {
        LabelsAllocated(endVertices[j].preds);
      }
      count, ok := 0, true;
      var j := 0;
      while j < |endVertices| && ok
        invariant j <= |endVertices| && TableValid(paths)
        invariant forall j :: 0 <= j < |endVertices| ==> routes[j] == ReadBack(endVertices[j].preds, endVertices[j], s)
        invariant KRowRun(old(paths), s, endVertices[..j], row, routes, gamma, overlap, lengthOf)
               == Run(paths, count, ok)
      {
        ghost var before := paths;
        var added;
        added, ok := KPathsTo(s, endVertices[j], row, j, routes[j], gamma, overlap, lengthOf);
        KRowRunAdvance(old(paths), s, endVertices, row, routes, gamma, overlap, lengthOf, j, before, count,
                       Run(paths, added, ok));
        count := count + added;
        j := j + 1;
      }
      if ok {
        assert endVertices[..j] == endVertices;
      } else {
        KRowRunStops(old(paths), s, endVertices, row, routes, gamma, overlap, lengthOf, j);
      }
      KRowRunMeaning(old(paths), s, endVertices, row, routes, gamma, overlap, lengthOf);
    }

    /**
     * network.py:244-287 for the origin `origin`: its labels are reset and
     * propagated (LabelFrom, at most `fuel` vertices taken from the queue);
     * once they settle, the destinations get their k-paths (KPathsFrom) from
     * the labels the propagation left, which read back into `routes`.
     * `settled` is false when the propagation ran out of fuel or left a
     * vertex newly pending, and then the path table is unchanged.
     */
    method KPathsOrigin(origin: Vertex, endVertices: seq<Vertex>, row: seq<real>, kPaths: nat,
                        gamma: real, merge: LabelMerge, overlap: OverlapTerm, lengthOf: LengthOf, fuel: nat,
                        ghost pending0: set<Vertex>, ghost done: seq<Vertex>)
      returns (count: nat, ok: bool, settled: bool, ghost routes: seq<seq<Option<seq<Edge>>>>)
      requires Valid() && origin in Nodes
      requires StillPending(pending0, done) && PendingWithin(pending0)
      modifies this`paths, Nodes`preds, Nodes`wasUpdated
      ensures Valid()
      ensures |routes| == |endVertices|
      ensures forall j :: 0 <= j < |endVertices| ==>
        routes[j] == ReadBack(endVertices[j].preds, endVertices[j], origin) && AllRoutesReal(routes[j])
      ensures !settled ==> paths == old(paths) && count == 0 && ok
      ensures settled ==>
        KRowRun(old(paths), origin, endVertices, row, routes, gamma, overlap, lengthOf) == Run(paths, count, ok)
      ensures settled && NoRepeats(endVertices) ==>
        KRowDone(old(paths), paths, origin, endVertices, row, routes, gamma, overlap, lengthOf, ok)
      ensures settled <==> fuel > 0 && forall v :: v in Nodes && v.wasUpdated ==> v !in vertices && old(v.wasUpdated)
      ensures forall v :: v in Nodes && v !in vertices && v != origin && old(v.wasUpdated) ==> v.wasUpdated
      ensures PendingAfter(pending0, done + [origin], settled, fuel)
    {
      settled := LabelFrom(origin, kPaths, merge, fuel, pending0, done);
      routes := ReadBacks(endVertices, origin);
      forall j | 0 <= j < |endVertices| ensures AllRoutesReal(routes[j]) {
        ReadBackIsReal(endVertices[j].preds, endVertices[j], origin);
      }
      if !settled {
        return 0, true, false, routes;
      }
      count, ok := KPathsFrom(origin, endVertices, row, routes, gamma, overlap, lengthOf);
    }

    /**
     * network.py:243-287, the turn of origin i of calcKPaths (KPathsOrigin,
     * with the origin's demand row), after the earlier origins ran from
     * table `start` as `searches` records, all of them settled: `searches'`
     * adds this origin's propagation to the record, and the run extends by
     * one origin. The pending flags keep PendingAfter over the origins so
     * far, so the recorded flag is the propagation's own outcome.
     */
    method KPathsOriginAt(startVertices: seq<Vertex>, endVertices: seq<Vertex>, matrixPshort: seq<seq<real>>,
                          kPaths: nat, gamma: real, merge: LabelMerge, overlap: OverlapTerm, lengthOf: LengthOf,
                          fuel: nat, i: nat, ghost start: Table, ghost searches: seq<OriginSearch>, ghost sofar: nat,
                          ghost pending0: set<Vertex>)
      returns (count: nat, ok: bool, settled: bool, ghost searches': seq<OriginSearch>)
      requires Valid() && i == |searches| < |startVertices| && startVertices[i] in Nodes
      requires forall a :: 0 <= a < i ==> |searches[a].routes| == |endVertices| && searches[a].settled
      requires forall a, j :: 0 <= a < i && 0 <= j < |endVertices| ==> AllRoutesReal(searches[a].routes[j])
      requires KMatrixRun(start, startVertices[..i], endVertices, matrixPshort, searches, gamma, overlap, lengthOf)
            == Run(paths, sofar, true)
      requires PendingAfter(pending0, startVertices[..i], true, fuel)
      modifies this`paths, Nodes`preds, Nodes`wasUpdated
      ensures Valid()
      ensures PendingAfter(pending0, startVertices[..i] + [startVertices[i]], settled, fuel)
      ensures |searches'| == i + 1 && searches'[..i] == searches
      ensures forall a :: 0 <= a <= i ==> |searches'[a].routes| == |endVertices|
      ensures forall a, j :: 0 <= a <= i && 0 <= j < |endVertices| ==> AllRoutesReal(searches'[a].routes[j])
      ensures forall a :: 0 <= a <= i && (a < i || settled) ==> searches'[a].settled
      ensures !settled ==> ok && !searches'[i].settled
      ensures forall j :: 0 <= j < |endVertices| ==>
        searches'[i].routes[j] == ReadBack(endVertices[j].preds, endVertices[j], startVertices[i])
      ensures KMatrixRun(start, startVertices[..i + 1], endVertices, matrixPshort, searches',
                         gamma, overlap, lengthOf) == Run(paths, sofar + count, ok)
    {
      ghost var before := paths;
      ghost var routes;
      count, ok, settled, routes := KPathsOrigin(startVertices[i], endVertices, RowOf(matrixPshort, i), kPaths,
                                                 gamma, merge, overlap, lengthOf, fuel, pending0, startVertices[..i]);
      ghost var x := OriginSearch(settled, routes);
      KMatrixRunAdvance(start, startVertices, endVertices, matrixPshort, searches, x,
                        gamma, overlap, lengthOf, before, sofar, Run(paths, count, ok));
      searches' := searches + [x];
      RecordGrows(searches, x, |endVertices|);
    }

    /**
     * network.py:243-287, the loop over the origins of calcKPaths: every
     * origin in turn (KPathsOriginAt) until a pair raises or a propagation
     * runs out of fuel. `searches` records, for each origin processed,
     * whether its propagation settled and what the labels it left at each
     * destination read back into; the table ends as KMatrixRun says over
     * that record, with `count` new paths, and the pending flags as
     * PendingAfter says over the origins processed.
     */
    method KPathsOrigins(startVertices: seq<Vertex>, endVertices: seq<Vertex>, matrixPshort: seq<seq<real>>,
                         kPaths: nat, gamma: real, merge: LabelMerge, overlap: OverlapTerm, lengthOf: LengthOf,
                         fuel: nat, ghost pending0: set<Vertex>)
      returns (count: nat, ok: bool, settled: bool, ghost searches: seq<OriginSearch>)
      requires Valid()
      requires forall v :: v in startVertices ==> v in Nodes
      requires PendingAfter(pending0, [], true, fuel)
      modifies this`paths, Nodes`preds, Nodes`wasUpdated
      ensures Valid()
      ensures |searches| <= |startVertices|
      ensures forall i :: 0 <= i < |searches| ==> |searches[i].routes| == |endVertices|
      ensures forall i, j :: 0 <= i < |searches| && 0 <= j < |endVertices| ==> AllRoutesReal(searches[i].routes[j])
      ensures forall i :: 0 <= i < |searches| - 1 ==> searches[i].settled
      ensures settled <==> forall i :: 0 <= i < |searches| ==> searches[i].settled
      ensures ok && settled ==> |searches| == |startVertices|
      ensures |searches| > 0 ==> forall j :: 0 <= j < |endVertices| ==>
        searches[|searches| - 1].routes[j]
          == ReadBack(endVertices[j].preds, endVertices[j], startVertices[|searches| - 1])
      ensures KMatrixRun(old(paths), startVertices[..|searches|], endVertices, matrixPshort, searches,
                         gamma, overlap, lengthOf) == Run(paths, count, ok)
      ensures PendingAfter(pending0, startVertices[..|searches|], settled, fuel)
    {
      count, ok, settled := 0, true, true;
      searches := [];
      var i := 0;
      assert startVertices[..i] == [];
      while i < |startVertices| && ok && settled
        invariant i == |searches| <= |startVertices| && Valid()
        invariant forall a :: 0 <= a < |searches| ==> |searches[a].routes| == |endVertices|
        invariant forall a, j :: 0 <= a < |searches| && 0 <= j < |endVertices| ==> AllRoutesReal(searches[a].routes[j])
        invariant forall a :: 0 <= a < |searches| && (a < |searches| - 1 || settled) ==> searches[a].settled
        invariant !settled ==> 0 < |searches| && !searches[|searches| - 1].settled
        invariant |searches| > 0 ==> forall j :: 0 <= j < |endVertices| ==>
          searches[|searches| - 1].routes[j]
            == ReadBack(endVertices[j].preds, endVertices[j], startVertices[|searches| - 1])
        invariant KMatrixRun(old(paths), startVertices[..|searches|], endVertices, matrixPshort, searches,
                             gamma, overlap, lengthOf) == Run(paths, count, ok)
        invariant PendingAfter(pending0, startVertices[..i], settled, fuel)
      {
        var added;
        TakeNext(startVertices, i);
        added, ok, settled, searches := KPathsOriginAt(startVertices, endVertices, matrixPshort, kPaths, gamma,
                                                       merge, overlap, lengthOf, fuel, i, old(paths), searches, count,
                                                       pending0);
        count := count + added;
        i := i + 1;
      }
    }

    /**
     * network.py:237-289 without the kpaths.xml output: the origins in turn
     * (KPathsOrigins). Returns `newRoutes` with the paths filed added; `ok`
     * is false when a pair raises and `settled` false when a propagation
     * ran out of fuel, either of which ends the run. A run that settled
     * leaves pending only unlisted vertices that were pending before; one
     * that did not either had no fuel or leaves pending a listed vertex, an
     * origin or a vertex that was not pending before. Only k-paths of
     * searched pairs are added, and with no origin and no destination
     * listed twice, every searched pair of a settled origin holds KPathsFor
     * of its old list, or some pair's step raises (KMatrixDone).
     */
    method CalcKPaths(kPaths: nat, newRoutes: nat, startVertices: seq<Vertex>, endVertices: seq<Vertex>,
                      matrixPshort: seq<seq<real>>, gamma: real, merge: LabelMerge,
                      overlap: OverlapTerm, lengthOf: LengthOf, fuel: nat)
      returns (newRoutes': nat, ok: bool, settled: bool, ghost searches: seq<OriginSearch>)
      requires Valid()
      requires forall v :: v in startVertices ==> v in Nodes
      modifies this`paths, Nodes`preds, Nodes`wasUpdated
      ensures Valid() && KGrown(old(paths), paths)
      ensures newRoutes' == newRoutes + |Slots(paths)| - |Slots(old(paths))|
      ensures |searches| <= |startVertices|
      ensures forall i :: 0 <= i < |searches| ==> |searches[i].routes| == |endVertices|
      ensures forall i :: 0 <= i < |searches| - 1 ==> searches[i].settled
      ensures settled <==> forall i :: 0 <= i < |searches| ==> searches[i].settled
      ensures ok && settled ==> |searches| == |startVertices|
      ensures newRoutes <= newRoutes'
      ensures KMatrixRun(old(paths), startVertices[..|searches|], endVertices, matrixPshort, searches,
                         gamma, overlap, lengthOf) == Run(paths, newRoutes' - newRoutes, ok)
      ensures |searches| > 0 ==> forall j :: 0 <= j < |endVertices| ==>
        searches[|searches| - 1].routes[j]
          == ReadBack(endVertices[j].preds, endVertices[j], startVertices[|searches| - 1])
      ensures ChangedOnly(old(paths), paths, KActivePairs(startVertices, endVertices, matrixPshort))
      ensures NoRepeats(startVertices) && NoRepeats(endVertices) ==>
        KMatrixDone(old(paths), paths, startVertices[..|searches|], endVertices, matrixPshort, searches,
                    gamma, overlap, lengthOf, ok)
      ensures settled && |searches| > 0 ==>
        fuel > 0 && forall v :: v in Nodes && v.wasUpdated ==> v !in vertices && old(v.wasUpdated)
      ensures !settled ==>
        (fuel == 0 || exists v :: v in Nodes && v.wasUpdated && (v in vertices || v in startVertices || !old(v.wasUpdated)))
    {
      var count;
      ghost var pending0 := set v | v in Nodes && v.wasUpdated;
      count, ok, settled, searches := KPathsOrigins(startVertices, endVertices, matrixPshort, kPaths, gamma, merge,
                                                    overlap, lengthOf, fuel, pending0);
      if !settled && fuel > 0 {
        ghost var w :| w in Nodes && w.wasUpdated && (w in vertices || w in startVertices[..|searches|] || w !in pending0);
        assert w in vertices || w in startVertices || !old(w.wasUpdated);
      }
      newRoutes' := newRoutes + count;
      KMatrixRunEnds(old(paths), startVertices[..|searches|], endVertices, matrixPshort, searches,
                     gamma, overlap, lengthOf, paths, count, ok);
      KActivePrefix(startVertices, endVertices, matrixPshort, |searches|);
    }

    /**
     * network.py:86-91, one forward splice: every outgoing edge of the
     * connector's target is re-attached to `node`, the connector leaves
     * `node`'s outgoing edges and its entry is deleted from the full edge
     * dict by its label (see DeleteFullEdge). `ok` is false when that
     * deletion raises; the splice has then already happened.
     */
    method SpliceForward(node: Vertex, edge: Edge) returns (ok: bool)
      requires Valid() && node in Nodes && edge in node.outEdges
      modifies node`outEdges, edge.target.outEdges`source, this`fullEdges
      ensures Valid()
      ensures node.outEdges == (old(node.outEdges) + old(edge.target.outEdges)) - {edge}
      ensures forall v :: v in Nodes ==> v.inEdges == old(v.inEdges)
      ensures forall v :: v in Nodes && v != node ==> v.outEdges == old(v.outEdges)
      ensures forall e :: e in Links ==> e.target == old(e.target)
      ensures forall e :: e in Links ==> e.source == if e in old(edge.target.outEdges) then node else old(e.source)
      ensures ok <==> DeleteFullEdge(old(fullEdges), edge).Some?
      ensures fullEdges == if ok then DeleteFullEdge(old(fullEdges), edge).value else old(fullEdges)
    {
      AttachOut(node, edge.target.outEdges);
      node.outEdges := node.outEdges - {edge};
      var r := DeleteFullEdge(fullEdges, edge);
      ok := r.Some?;
      if ok {
        fullEdges := r.value;
      }
    }

    /** The heap after one forward splice holds the value SpliceOut computes from the heap before. */
    twostate lemma SplicedOut(step: (Vertex, Edge))
      requires old(Closed()) && old(step.0 in Nodes && step.1 in Links)
      requires Nodes == old(Nodes) && Links == old(Links)
      requires forall v :: v in Nodes ==> v.inEdges == old(v.inEdges)
      requires forall v :: v in Nodes && v != step.0 ==> v.outEdges == old(v.outEdges)
      requires step.0.outEdges == (old(step.0.outEdges) + old(step.1.target.outEdges)) - {step.1}
      requires forall e :: e in Links ==> e.target == old(e.target)
      requires forall e :: e in Links ==> e.source == if e in old(step.1.target.outEdges) then step.0 else old(e.source)
      ensures Adjacency() == SpliceOut(old(Adjacency()), step.0, step.1)
    {
      var (node, edge) := step;
      var g, a := old(Adjacency()), Adjacency();
      var h := SpliceOut(g, node, edge);
      assert Moved(g, edge) == old(edge.target.outEdges);
      assert a.outs == h.outs by {
        forall v | v in Nodes ensures a.outs[v] == h.outs[v] {
        }
      }
      assert a.src == h.src by {
        forall e | e in Links ensures a.src[e] == h.src[e] {
        }
      }
      assert a.ins == h.ins by {
        forall v | v in Nodes ensures a.ins[v] == h.ins[v] {
        }
      }
      assert a.tgt == h.tgt by {
        forall e | e in Links ensures a.tgt[e] == h.tgt[e] {
        }
      }
    }

    /** SpliceForward on the graph as a value: the graph afterwards is SpliceOut of the graph before. */
    method SpliceForwardOnGraph(node: Vertex, edge: Edge, ghost cur: Graph) returns (ok: bool)
      requires Valid() && node in Nodes && edge in node.outEdges && Adjacency() == cur
      modifies node`outEdges, edge.target.outEdges`source, this`fullEdges
      ensures Valid()
      ensures node.outEdges == (old(node.outEdges) + old(edge.target.outEdges)) - {edge}
      ensures Adjacency() == SpliceOut(cur, node, edge) && edge in cur.tgt && cur.tgt[edge] == old(edge.target)
      ensures ok <==> DeleteFullEdge(old(fullEdges), edge).Some?
      ensures fullEdges == if ok then DeleteFullEdge(old(fullEdges), edge).value else old(fullEdges)
    {
      assert edge in cur.tgt && cur.tgt[edge] == edge.target;
      ok := SpliceForward(node, edge);
      SplicedOut((node, edge));
    }

    /** One turn of the loop in SpliceForwardAll: the k-th candidate spliced forward, its target collected. */
    method SpliceForwardNext(node: Vertex, cands: seq<Edge>, k: nat, removed: seq<Vertex>, ghost g0: Graph, ghost f0: map<string, Edge>)
      returns (grown: seq<Vertex>, ok: bool)
      requires Valid() && node in Nodes && NoRepeats(cands) && k < |cands|
      requires forall e :: e in cands[k..] ==> e in node.outEdges
      requires Adjacency() == SpliceOutAll(g0, node, cands[..k])
      requires DeleteAll(f0, cands[..k]) == Some(fullEdges) && removed == Ends(g0.tgt, cands[..k])
      modifies node`outEdges, Links`source, this`fullEdges
      ensures Valid()
      ensures forall e :: e in cands[k + 1..] ==> e in node.outEdges
      ensures Adjacency() == SpliceOutAll(g0, node, cands[..k + 1])
      ensures DeleteAll(f0, cands[..k + 1]) == if ok then Some(fullEdges) else None
      ensures ok ==> grown == Ends(g0.tgt, cands[..k + 1])
    {
      var edge := cands[k];
      var end := edge.target;
      SpliceOutAllSnoc(g0, node, cands, k);
      DeleteAllSnoc(f0, cands, k);
      EndsSnoc(g0.tgt, cands, k);
      assert edge.target in Nodes && edge.target.outEdges <= Links;
      ghost var cur := SpliceOutAll(g0, node, cands[..k]);
      SpliceOutAllTargets(g0, node, cands[..k]);
      RestStays(cands, k, node.outEdges);
      ok := SpliceForwardOnGraph(node, edge, cur);
      assert old(node.outEdges) - {edge} <= node.outEdges;
      grown := removed;
      if ok {
        grown := removed + [end];
      }
    }

    /**
     * network.py:86-91, the candidates of one node spliced forward in list
     * order, each by SpliceForward; `removed` collects their targets for
     * removal. `ok` is false when a deletion from the full edge dict raises,
     * which is exactly when DeleteAll fails on the candidates.
     */
    method SpliceForwardAll(node: Vertex, cands: seq<Edge>) returns (removed: seq<Vertex>, ok: bool, ghost done: nat)
      requires Valid() && node in Nodes && NoRepeats(cands)
      requires forall e :: e in cands ==> e in node.outEdges
      modifies node`outEdges, Links`source, this`fullEdges
      ensures Valid() && vertices == old(vertices)
      ensures done <= |cands| && Adjacency() == SpliceOutAll(old(Adjacency()), node, cands[..done])
      ensures ok ==> done == |cands| && Adjacency() == SpliceOutAll(old(Adjacency()), node, cands)
      ensures !ok ==> 0 < done && DeleteAll(old(fullEdges), cands[..done - 1]).Some? && DeleteAll(old(fullEdges), cands[..done]).None?
      ensures ok <==> DeleteAll(old(fullEdges), cands).Some?
      ensures ok ==> fullEdges == DeleteAll(old(fullEdges), cands).value
      ensures ok ==> removed == Ends(old(Adjacency()).tgt, cands)
    {
      removed, ok := [], true;
      ghost var g0 := old(Adjacency());
      var k := 0;
      while k < |cands| && ok
        invariant k <= |cands| && Valid()
        invariant forall e :: e in cands[k..] ==> e in node.outEdges
        invariant Adjacency() == SpliceOutAll(g0, node, cands[..k])
        invariant DeleteAll(old(fullEdges), cands[..k]) == if ok then Some(fullEdges) else None
        invariant !ok ==> 0 < k && DeleteAll(old(fullEdges), cands[..k - 1]).Some?
        invariant ok ==> removed == Ends(g0.tgt, cands[..k])
      {
        removed, ok := SpliceForwardNext(node, cands, k, removed, g0, old(fullEdges));
        k := k + 1;
      }
      done := k;
      if ok {
        assert cands[..done] == cands;
      } else {
        DeleteAllPrefix(old(fullEdges), cands, done);
      }
    }

    /**
     * network.py:93-98, one backward splice: every incoming edge of the
     * connector's source is re-attached to `node`, the connector leaves
     * `node`'s incoming edges and its entry is deleted from the full edge
     * dict by its label (see DeleteFullEdge). `ok` is false when that
     * deletion raises; the splice has then already happened.
     */
    method SpliceBackward(node: Vertex, edge: Edge) returns (ok: bool)
      requires Valid() && node in Nodes && edge in node.inEdges
      modifies node`inEdges, edge.source.inEdges`target, this`fullEdges
      ensures Valid()
      ensures node.inEdges == (old(node.inEdges) + old(edge.source.inEdges)) - {edge}
      ensures forall v :: v in Nodes ==> v.outEdges == old(v.outEdges)
      ensures forall v :: v in Nodes && v != node ==> v.inEdges == old(v.inEdges)
      ensures forall e :: e in Links ==> e.source == old(e.source)
      ensures forall e :: e in Links ==> e.target == if e in old(edge.source.inEdges) then node else old(e.target)
      ensures ok <==> DeleteFullEdge(old(fullEdges), edge).Some?
      ensures fullEdges == if ok then DeleteFullEdge(old(fullEdges), edge).value else old(fullEdges)
    {
      AttachIn(node, edge.source.inEdges);
      node.inEdges := node.inEdges - {edge};
      var r := DeleteFullEdge(fullEdges, edge);
      ok := r.Some?;
      if ok {
        fullEdges := r.value;
      }
    }

    /** The heap after one backward splice holds the value SpliceIn computes from the heap before. */
    twostate lemma SplicedIn(step: (Vertex, Edge))
      requires old(Closed()) && old(step.0 in Nodes && step.1 in Links)
      requires Nodes == old(Nodes) && Links == old(Links)
      requires forall v :: v in Nodes ==> v.outEdges == old(v.outEdges)
      requires forall v :: v in Nodes && v != step.0 ==> v.inEdges == old(v.inEdges)
      requires step.0.inEdges == (old(step.0.inEdges) + old(step.1.source.inEdges)) - {step.1}
      requires forall e :: e in Links ==> e.source == old(e.source)
      requires forall e :: e in Links ==> e.target == if e in old(step.1.source.inEdges) then step.0 else old(e.target)
      ensures Adjacency() == SpliceIn(old(Adjacency()), step.0, step.1)
    {
      var (node, edge) := step;
      var g, a := old(Adjacency()), Adjacency();
      var f := SpliceOut(Flip(g), node, edge);
      assert Moved(Flip(g), edge) == old(edge.source.inEdges);
      assert a.ins == f.outs by {
        forall v | v in Nodes ensures a.ins[v] == f.outs[v] {
        }
      }
      assert a.tgt == f.src by {
        forall e | e in Links ensures a.tgt[e] == f.src[e] {
        }
      }
      assert a.outs == f.ins by {
        forall v | v in Nodes ensures a.outs[v] == f.ins[v] {
        }
      }
      assert a.src == f.tgt by {
        forall e | e in Links ensures a.src[e] == f.tgt[e] {
        }
      }
    }

    /** SpliceBackward on the graph as a value: the graph afterwards is SpliceIn of the graph before. */
    method SpliceBackwardOnGraph(node: Vertex, edge: Edge, ghost cur: Graph) returns (ok: bool)
      requires Valid() && node in Nodes && edge in node.inEdges && Adjacency() == cur
      modifies node`inEdges, edge.source.inEdges`target, this`fullEdges
      ensures Valid()
      ensures node.inEdges == (old(node.inEdges) + old(edge.source.inEdges)) - {edge}
      ensures Adjacency() == SpliceIn(cur, node, edge) && edge in cur.src && cur.src[edge] == old(edge.source)
      ensures ok <==> DeleteFullEdge(old(fullEdges), edge).Some?
      ensures fullEdges == if ok then DeleteFullEdge(old(fullEdges), edge).value else old(fullEdges)
    {
      assert edge in cur.src && cur.src[edge] == edge.source;
      ok := SpliceBackward(node, edge);
      SplicedIn((node, edge));
    }

    /** One turn of the loop in SpliceBackwardAll: the k-th candidate spliced backward, its source collected. */
    method SpliceBackwardNext(node: Vertex, cands: seq<Edge>, k: nat, removed: seq<Vertex>, ghost g0: Graph, ghost f0: map<string, Edge>)
      returns (grown: seq<Vertex>, ok: bool)
      requires Valid() && node in Nodes && NoRepeats(cands) && k < |cands|
      requires forall e :: e in cands[k..] ==> e in node.inEdges
      requires Adjacency() == SpliceInAll(g0, node, cands[..k])
      requires DeleteAll(f0, cands[..k]) == Some(fullEdges) && removed == Ends(g0.src, cands[..k])
      modifies node`inEdges, Links`target, this`fullEdges
      ensures Valid()
      ensures forall e :: e in cands[k + 1..] ==> e in node.inEdges
      ensures Adjacency() == SpliceInAll(g0, node, cands[..k + 1])
      ensures DeleteAll(f0, cands[..k + 1]) == if ok then Some(fullEdges) else None
      ensures ok ==> grown == Ends(g0.src, cands[..k + 1])
    {
      var edge := cands[k];
      var start := edge.source;
      SpliceInAllSnoc(g0, node, cands, k);
      DeleteAllSnoc(f0, cands, k);
      EndsSnoc(g0.src, cands, k);
      assert edge.source in Nodes && edge.source.inEdges <= Links;
      ghost var cur := SpliceInAll(g0, node, cands[..k]);
      SpliceInAllSources(g0, node, cands[..k]);
      RestStays(cands, k, node.inEdges);
      ok := SpliceBackwardOnGraph(node, edge, cur);
      assert old(node.inEdges) - {edge} <= node.inEdges;
      grown := removed;
      if ok {
        grown := removed + [start];
      }
    }

    /**
     * network.py:93-98, the candidates of one node spliced backward in list
     * order, each by SpliceBackward; `removed` collects their sources for
     * removal. `ok` is false when a deletion from the full edge dict raises,
     * which is exactly when DeleteAll fails on the candidates.
     */
    method SpliceBackwardAll(node: Vertex, cands: seq<Edge>) returns (removed: seq<Vertex>, ok: bool, ghost done: nat)
      requires Valid() && node in Nodes && NoRepeats(cands)
      requires forall e :: e in cands ==> e in node.inEdges
      modifies node`inEdges, Links`target, this`fullEdges
      ensures Valid() && vertices == old(vertices)
      ensures done <= |cands| && Adjacency() == SpliceInAll(old(Adjacency()), node, cands[..done])
      ensures ok ==> done == |cands| && Adjacency() == SpliceInAll(old(Adjacency()), node, cands)
      ensures !ok ==> 0 < done && DeleteAll(old(fullEdges), cands[..done - 1]).Some? && DeleteAll(old(fullEdges), cands[..done]).None?
      ensures ok <==> DeleteAll(old(fullEdges), cands).Some?
      ensures ok ==> fullEdges == DeleteAll(old(fullEdges), cands).value
      ensures ok ==> removed == Ends(old(Adjacency()).src, cands)
    {
      removed, ok := [], true;
      ghost var g0 := old(Adjacency());
      var k := 0;
      while k < |cands| && ok
        invariant k <= |cands| && Valid()
        invariant forall e :: e in cands[k..] ==> e in node.inEdges
        invariant Adjacency() == SpliceInAll(g0, node, cands[..k])
        invariant DeleteAll(old(fullEdges), cands[..k]) == if ok then Some(fullEdges) else None
        invariant !ok ==> 0 < k && DeleteAll(old(fullEdges), cands[..k - 1]).Some?
        invariant ok ==> removed == Ends(g0.src, cands[..k])
      {
        removed, ok := SpliceBackwardNext(node, cands, k, removed, g0, old(fullEdges));
        k := k + 1;
      }
      done := k;
      if ok {
        assert cands[..done] == cands;
      } else {
        DeleteAllPrefix(old(fullEdges), cands, done);
      }
    }

    /**
     * network.py:100-101: removes each vertex of `toRemove` from the vertex
     * list, its first occurrence each time. `ok` is false where list.remove
     * raises, which is exactly when `toRemove` names some vertex more often
     * than the list holds it.
     */
    method RemoveVertices(toRemove: seq<Vertex>) returns (ok: bool)
      requires Valid()
      modifies this`vertices
      ensures Valid() && Adjacency() == old(Adjacency())
      ensures ok <==> multiset(toRemove) <= multiset(old(vertices))
      ensures ok ==> multiset(vertices) == multiset(old(vertices)) - multiset(toRemove)
    {
      ghost var before := vertices;
      vertices, ok := RemoveEach(vertices, toRemove);
      forall v | v in vertices
        ensures v in Nodes
      {
        assert v in multiset(before);
      }
    }

    /**
     * network.py:71-98, the turn of one vertex: Candidates chooses its
     * connectors, which are then spliced forward or backward, and `removed`
     * holds the vertices they leave behind. The ghost `step` is the turn as
     * Chosen describes it on the graph before. `ok` is false where a deletion
     * from the full edge dict raises; otherwise the graph afterwards is the
     * turn's Splice of the graph before and the dict has lost exactly the
     * connectors' labels.
     */
    method ReduceAt(node: Vertex) returns (removed: seq<Vertex>, ok: bool, ghost step: Step)
      requires Valid() && node in Nodes
      modifies node`outEdges, node`inEdges, Links`source, Links`target, this`fullEdges
      ensures Valid() && vertices == old(vertices)
      ensures step.node == node && Chosen(old(Adjacency()), step)
      ensures ok <==> DeleteAll(old(fullEdges), step.cands).Some?
      ensures ok ==> Adjacency() == Splice(old(Adjacency()), step) && removed == step.removed
      ensures |step.removed| == |step.cands|
      ensures ok ==> fullEdges == DeleteAll(old(fullEdges), step.cands).value
    {
      ghost var g := Adjacency();
      var split, cands := Candidates(node);
      CandidatesChosen(node, split, cands);
      step := TurnOf(g, node, split, cands);
      EndsMeaning(if split then g.tgt else g.src, cands);
      ghost var done;
      if split {
        removed, ok, done := SpliceForwardAll(node, cands);
      } else {
        removed, ok, done := SpliceBackwardAll(node, cands);
      }
    }

    /**
     * network.py:70-98: every vertex takes its turn (ReduceAt) in list
     * order and the vertices the turns leave behind are collected in
     * `toRemove`. The ghost `steps` record the turns taken (Record). `ok` is
     * false where a deletion from the full edge dict raises, which happens
     * at the last recorded turn and nowhere before it. Otherwise every vertex
     * had its turn, the graph is the one the turns leave, and the dict has
     * lost exactly the labels of all the connectors.
     */
    method ReduceAll() returns (toRemove: seq<Vertex>, ok: bool, ghost steps: seq<Step>)
      requires Valid()
      modifies this`fullEdges, Nodes`inEdges, Nodes`outEdges, Links`source, Links`target
      ensures Valid() && vertices == old(vertices)
      ensures Record(old(vertices), old(Adjacency()), steps)
      ensures ok <==> DeleteAll(old(fullEdges), AllCands(steps)).Some?
      ensures !ok ==> 0 < |steps| && DeleteAll(old(fullEdges), AllCands(steps[..|steps| - 1])).Some?
      ensures ok ==> |steps| == |old(vertices)| && Adjacency() == GraphAfter(old(Adjacency()), steps)
      ensures ok ==> toRemove == Removals(steps) && |toRemove| == |AllCands(steps)|
      ensures ok ==> fullEdges == DeleteAll(old(fullEdges), AllCands(steps)).value
      ensures ok ==> |fullEdges| == |old(fullEdges)| - |toRemove|
      ensures ok ==> forall l :: l in fullEdges ==> l in old(fullEdges) && fullEdges[l] == old(fullEdges)[l]
    {
      toRemove, ok, steps := [], true, [];
      ghost var g0 := old(Adjacency());
      var i := 0;
      while i < |vertices|
        invariant i <= |vertices| && vertices == old(vertices) && Valid()
        invariant |steps| == i && Record(old(vertices), g0, steps)
        invariant Adjacency() == GraphAfter(g0, steps)
        invariant DeleteAll(old(fullEdges), AllCands(steps)) == Some(fullEdges)
        invariant toRemove == Removals(steps) && |toRemove| == |AllCands(steps)|
      {
        var removed;
        ghost var step;
        removed, ok, step := ReduceAt(vertices[i]);
        DeleteAllAppend(old(fullEdges), AllCands(steps), step.cands);
        RecordSnoc(old(vertices), g0, steps, step);
        ghost var before := steps;
        steps := steps + [step];
        assert steps[..i] == before;
        if !ok {
          return;
        }
        toRemove := toRemove + removed;
        i := i + 1;
      }
      DeleteAllShrinks(old(fullEdges), AllCands(steps));
    }

    /**
     * network.py:70-101: the turns of ReduceAll, then the collected vertices
     * removed from the vertex list (RemoveVertices). `ok` is false where a
     * deletion from the full edge dict or a removal from the vertex list
     * raises. Otherwise the dict has lost exactly the labels of all the
     * connectors and the vertex list exactly the collected vertices.
     */
    method LinkReduce() returns (toRemove: seq<Vertex>, ok: bool, ghost steps: seq<Step>)
      requires Valid()
      modifies this`vertices, this`fullEdges, Nodes`inEdges, Nodes`outEdges, Links`source, Links`target
      ensures Valid()
      ensures Record(old(vertices), old(Adjacency()), steps)
      ensures DeleteAll(old(fullEdges), AllCands(steps)).None? ==>
        0 < |steps| && DeleteAll(old(fullEdges), AllCands(steps[..|steps| - 1])).Some?
      ensures DeleteAll(old(fullEdges), AllCands(steps)).Some? ==>
        && |steps| == |old(vertices)| && Adjacency() == GraphAfter(old(Adjacency()), steps)
        && toRemove == Removals(steps)
      ensures DeleteAll(old(fullEdges), AllCands(steps)).Some? ==> fullEdges == DeleteAll(old(fullEdges), AllCands(steps)).value
      ensures ok <==> DeleteAll(old(fullEdges), AllCands(steps)).Some? && multiset(toRemove) <= multiset(old(vertices))
      ensures ok ==> |fullEdges| == |old(fullEdges)| - |toRemove|
      ensures ok ==> forall l :: l in fullEdges ==> l in old(fullEdges) && fullEdges[l] == old(fullEdges)[l]
      ensures ok ==> multiset(vertices) == multiset(old(vertices)) - multiset(toRemove)
    {
      toRemove, ok, steps := ReduceAll();
      ghost var reduced := fullEdges;
      if ok {
        ok := RemoveVertices(toRemove);
      }
      assert fullEdges == reduced;
    }

    /** What Candidates returns at a node of the graph is the turn the graph's snapshot chooses there. */
    lemma CandidatesChosen(node: Vertex, split: bool, cands: seq<Edge>)
      requires Valid() && node in Nodes
      requires split <==> |node.inEdges| == 1 || cands == []
      requires NoRepeats(cands)
      requires |node.inEdges| == 1 ==> forall e :: e in cands <==> e in node.outEdges && ForwardCandidate(e)
      requires |node.inEdges| != 1 ==> forall e :: e in cands <==> e in node.inEdges && BackwardCandidate(e)
      ensures Chosen(Adjacency(), TurnOf(Adjacency(), node, split, cands))
    {
    }

    /** Every edge out of a vertex of Nodes leads to one, and every edge into one comes from one. */
    lemma ClosedIsEnclosed()
      requires Closed()
      ensures Enclosed(Nodes)
    {
    }

    /**
     * network.py:141-144: every edge leaving a vertex of `targets` is added to
     * the outgoing edges of `hub` and now starts there; no other edge's source
     * moves.
     */
    method MergeOut(hub: Vertex, targets: set<Vertex>)
      requires Valid() && hub in Nodes && targets <= Nodes
      modifies hub`outEdges, Links`source
      ensures Valid()
      ensures hub.outEdges == old(hub.outEdges) + old(OutOf(targets))
      ensures forall e :: e in old(OutOf(targets)) ==> e.source == hub
      ensures forall e :: e in Links && e !in old(OutOf(targets)) ==> e.source == old(e.source)
    {
      ghost var moved: set<Edge> := {};
      var todo := targets;
      while todo != {}
        invariant todo <= targets
        invariant moved <= old(OutOf(targets))
        invariant forall v :: v in targets - todo ==> old(v.outEdges) <= moved
        invariant hub.outEdges == old(hub.outEdges) + moved
        invariant forall e :: e in moved ==> e.source == hub
        invariant forall e :: e in Links && e !in moved ==> e.source == old(e.source)
        decreases |todo|
      {
        var target :| target in todo;
        assert old(target.outEdges) <= old(OutOf(targets));
        assert target.outEdges <= moved + old(target.outEdges) + old(hub.outEdges);
        AttachOut(hub, target.outEdges);
        moved := moved + old(target.outEdges);
        todo := todo - {target};
      }
      assert moved == old(OutOf(targets));
    }

    /**
     * network.py:145-148: every edge entering a vertex of `sources` is added
     * to the incoming edges of `hub` and now ends there; no other edge's
     * target moves.
     */
    method MergeIn(hub: Vertex, sources: set<Vertex>)
      requires Valid() && hub in Nodes && sources <= Nodes
      modifies hub`inEdges, Links`target
      ensures Valid()
      ensures hub.inEdges == old(hub.inEdges) + old(InOf(sources))
      ensures forall e :: e in old(InOf(sources)) ==> e.target == hub
      ensures forall e :: e in Links && e !in old(InOf(sources)) ==> e.target == old(e.target)
    {
      ghost var moved: set<Edge> := {};
      var todo := sources;
      while todo != {}
        invariant todo <= sources
        invariant moved <= old(InOf(sources))
        invariant forall v :: v in sources - todo ==> old(v.inEdges) <= moved
        invariant hub.inEdges == old(hub.inEdges) + moved
        invariant forall e :: e in moved ==> e.target == hub
        invariant forall e :: e in Links && e !in moved ==> e.target == old(e.target)
        decreases |todo|
      {
        var source :| source in todo;
        assert old(source.inEdges) <= old(InOf(sources));
        assert source.inEdges <= moved + old(source.inEdges) + old(hub.inEdges);
        AttachIn(hub, source.inEdges);
        moved := moved + old(source.inEdges);
        todo := todo - {source};
      }
      assert moved == old(InOf(sources));
    }
  
    /**
     * network.py:141-148: merges a cluster into `hub`, every edge leaving a
     * target now leaves `hub` and every edge entering a source now enters it
     * (MergeOut, then MergeIn). No other edge moves.
     */
    method MergeCluster(hub: Vertex, sources: set<Vertex>, targets: set<Vertex>)
      requires Valid() && hub in Nodes && sources <= Nodes && targets <= Nodes
      modifies hub`outEdges, hub`inEdges, Links`source, Links`target
      ensures Valid()
      ensures hub.outEdges == old(hub.outEdges) + old(OutOf(targets))
      ensures hub.inEdges == old(hub.inEdges) + old(InOf(sources))
      ensures forall e :: e in old(OutOf(targets)) ==> e.source == hub
      ensures forall e :: e in old(InOf(sources)) ==> e.target == hub
      ensures forall e :: e in Links && e !in old(OutOf(targets)) ==> e.source == old(e.source)
      ensures forall e :: e in Links && e !in old(InOf(sources)) ==> e.target == old(e.target)
    {
      MergeOut(hub, targets);
      assert InOf(sources) == old(InOf(sources)) by {
        assert forall v :: v in sources ==> v.inEdges == old(v.inEdges);
      }
      MergeIn(hub, sources);
    }

    /**
     * network.py:106-148, one seed edge of reduce. A seed whose target is
     * already visited is skipped. Otherwise the cluster search runs from that
     * target (ExpandCluster); when it meets a real edge nothing changes and
     * nothing is visited. Else the cluster's sources are visited, and the
     * cluster is merged into the seed's target exactly when every source has
     * at least as many outgoing edges as there are targets. Whatever is not
     * merged is left as it was.
     */
    method ReduceSeed(link: Edge, visited: set<Vertex>)
      returns (sources: set<Vertex>, targets: set<Vertex>, stop: bool, merged: bool, visited': set<Vertex>)
      requires Valid() && link in Links
      modifies link.target`outEdges, link.target`inEdges, Links`source, Links`target
      ensures Valid() && link.target == old(link.target)
      ensures old(link.target) in visited ==> !merged && visited' == visited
      ensures old(link.target) !in visited ==>
        && link.target in sources && sources <= Nodes && targets <= Nodes
        && (stop ==> old(TouchesReal(sources, targets)))
        && (!stop ==> old(ClosedCluster(sources, targets)))
        && old(forall S, T :: link.target in S && ClosedCluster(S, T) ==> sources <= S && targets <= T)
        && (stop <==> old(forall S, T :: link.target in S ==> !ClosedCluster(S, T)))
        && visited' == (if stop then visited else visited + sources)
        && (merged <==> !stop && forall s :: s in sources ==> |old(s.outEdges)| >= |targets|)
      ensures merged ==>
        && link.target.outEdges == old(link.target.outEdges) + old(OutOf(targets))
        && link.target.inEdges == old(link.target.inEdges) + old(InOf(sources))
        && (forall e :: e in old(OutOf(targets)) ==> e.source == link.target)
        && (forall e :: e in old(InOf(sources)) ==> e.target == link.target)
        && (forall e :: e in Links && e !in old(OutOf(targets)) ==> e.source == old(e.source))
        && (forall e :: e in Links && e !in old(InOf(sources)) ==> e.target == old(e.target))
      ensures !merged ==>
        && (forall v :: v in Nodes ==> v.outEdges == old(v.outEdges) && v.inEdges == old(v.inEdges))
        && (forall e :: e in Links ==> e.source == old(e.source) && e.target == old(e.target))
    {
      var hub := link.target;
      merged := false;
      if hub in visited {
        return {}, {}, false, false, visited;
      }
      ClosedIsEnclosed();
      ghost var nodes, links := Nodes, Links;
      sources, targets, stop := ExpandCluster(hub, Nodes);
      forall S, T | old(allocated(S)) && old(allocated(T)) && hub in S && old(ClosedCluster(S, T))
        ensures sources <= S && targets <= T
      {
        assert ClosedCluster(S, T);
      }
      if stop {
        forall S, T | old(allocated(S)) && old(allocated(T)) && hub in S
          ensures !old(ClosedCluster(S, T))
        {
          assert !ClosedCluster(S, T);
        }
      }
      assert OutOf(sources) <= links && InOf(targets) <= links && OutOf(targets) <= links && InOf(sources) <= links;
      if stop {
        return sources, targets, stop, false, visited;
      }
      visited' := visited + sources;
      var complete := IsComplete(sources, targets);
      if complete {
        MergeCluster(hub, sources, targets);
        merged := true;
      }
    }

    /**
     * network.py:103-148: every real edge, in the edge dict's order (any
     * order here), seeds a cluster search and possibly a merge (ReduceSeed).
     * The net stays closed; the vertex list, the edge dicts and the path table
     * are left alone. The set of visited vertices is returned.
     */
    method Reduce() returns (visited: set<Vertex>)
      requires Valid()
      modifies Nodes`outEdges, Nodes`inEdges, Links`source, Links`target
      ensures Valid() && visited <= Nodes
    {
      visited := {};
      var todo := edges.Values;
      while todo != {}
        invariant Valid() && visited <= Nodes && todo <= edges.Values
        decreases |todo|
      {
        var link :| link in todo;
        var sources, targets, stop, merged;
        sources, targets, stop, merged, visited := ReduceSeed(link, visited);
        todo := todo - {link};
      }
    }
  }
}
