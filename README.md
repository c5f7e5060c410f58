# Net: the road network of SUMO's traffic assignment tools

This project models the `Net` class of SUMO's assignment tools
(`sumo/tools/assign/network.py`). A `Net` holds the road network: a list
of vertices, the real edges by label, every edge (connectors included) by
label, the origins and destinations of the demand matrix, and the path
table. The path table maps an origin to a destination to the list of
candidate paths of that OD pair. The model covers:

- building the net: `newVertex`, `getEdge`, `addEdge`, `addIsolatedRealEdge`;
- setting up and clearing the path table: `initialPathSet`, `cleanPathSet`;
- the two graph simplifications, `linkReduce` and `reduce`:
  - `linkReduce` splices out connector edges;
  - `reduce` merges closed clusters of connector edges into one vertex;
- route choice:
  - `checkSmallDiff` decides whether a new shortest path is new, nearly the same as an existing one, or identical to one;
  - `findNewPath` adds the shortest path of every active OD pair;
  - `calcKPaths` propagates k-path labels from every origin and files the k-paths they describe.

Modules:

- `Elements` (elements.dfy): the vertex, edge, label and path entities, with the fields `Net` reads or writes.
- `Containers` (containers.dfy): Python's `list.remove` and `del d[k]` with their errors, and the deletion of edges from the full-edge dict.
- `PathTable` (table.dfy): the path table as a value, with its validity, its positions (`Slots`) and what replacing one list does to it.
- `Routes` (routes.dfy): reading a route back from a shortest-path tree or a label chain.
- `Novelty` (novelty.dfy): `checkSmallDiff`.
- `Overlaps` (overlaps.dfy): appending a new path to a pair's list, with the overlap sums updated.
- `KPathSets` (kpaths.dfy): what the labels of one OD pair do to its list in `calcKPaths`.
- `Searches` (searches.dfy): what `findNewPath` and `calcKPaths` do to the path table as values. It covers one pair's step, the run over an origin's demand row, and the run over the whole matrix. Each run stops at the first pair that raises.
- `Clusters` (clusters.dfy): the cluster search of `reduce`.
- `Network` (network.dfy): the `Net` class and its operations.

Vertices and edges are objects whose fields are updated in place, as in
the source. `Net` is a class with ghost footprints `Nodes` and `Links`:

- `Valid()` says that every adjacency set holds edges of the net;
- it says that every edge's endpoints are vertices of the net;
- it says that both dicts map a label to an edge of that label;
- it says that every path list holds paths of its own OD pair.

Paths are values (`Path`). A method that changes a list replaces it in
the table.

Behaviour of the source that the model keeps as written:

- When `checkSmallDiff` answers "not new, not nearly the same", the path that is credited is the last path of the list, not the identical one. That is the loop variable `path` left over from lines 198-199 (lines 227-233).
- The edge-fraction test of line 173 divides two ints with Python 2 `/`, which is floor division. So the test holds exactly when the path shares at least one edge with the candidate (`EdgeFractionTestIsSharing`).
- A path with no edges in a pair's list makes line 173 divide by zero. The model gives an error result (`ok == false`) there.
- `findNewPath` searches pairs with a positive demand (`> 0.`, line 186). `calcKPaths` searches pairs with a non-zero demand (`!= 0.`, line 259).
- `calcKPaths` looks up the pair's list (line 258) before the demand test. So a missing pair raises even when the demand is zero.
- `list.remove` of a vertex that is no longer listed raises ValueError (line 101). The model reports this as `ok == false`.
- `findNewPath` starts its count from 0 (line 182). `calcKPaths` adds to the count it is given.

A raising operation is modelled by an `ok` flag. The flag is false
exactly when the source raises, with two exceptions. The first is the
`_fullEdges` deletions of lines 90 and 97. The source raises there on
every call. `linkReduce`, `SpliceForward` and `SpliceBackward` instead
follow the corrected deletion by label described under "## Findings".
There, `ok` is false only when the label is missing. The second is the
undefined `options` of line 188 (see "## Left out"): `findNewPath` as
written raises NameError at its first origin, which the model does not. The state a raising operation
leaves is what the source had done by then.

## Model

| member | source | states |
|---|---|---|
| Network.Net.constructor | sumo/tools/assign/network.py:24-32 | a new net has no vertices, no edges, no OD lists and an empty path table, and is valid |
| Network.Net.NewVertex | sumo/tools/assign/network.py:34-37 | the new vertex is fresh, its index is the old vertex count, its name is that index in decimal, it has no edges and no labels, and it is appended to the vertex list |
| Network.Net.GetEdge | sumo/tools/assign/network.py:39-40 | the lookup succeeds exactly when the label is a key of the real-edge dict (KeyError otherwise), and it returns the edge filed under that label, a real edge of the net with that name |
| Network.Net.AddEdge | sumo/tools/assign/network.py:42-47 | the edge joins its source's outgoing and its target's incoming edges; it is filed under its label in the full dict, and in the real dict exactly when it is real, where GetEdge then finds it; the net stays valid |
| Network.Net.AddIsolatedRealEdge | sumo/tools/assign/network.py:49-51 | a fresh real edge with the given label between two fresh vertices, appended to the vertex list; it is the only edge of both vertices and is filed in both dicts |
| Network.Net.InitialPathSet | sumo/tools/assign/network.py:53-57 | every origin gets a row with an empty list per destination (replacing any old row), and every other row stays as it was |
| Network.Net.CleanPathSet | sumo/tools/assign/network.py:59-62 | succeeds exactly when there are no destinations or every origin has a row (KeyError otherwise, naming a missing origin); it then empties the destinations' lists of every origin and keeps all else |
| Network.ClearLists | sumo/tools/assign/network.py:56-62 | the row with every destination's list set to empty, and every other entry kept |
| PathTable.InitializedSnoc | sumo/tools/assign/network.py:54-57 | initialising one more origin replaces that origin's row by the empty lists and nothing else |
| PathTable.CleanedSnoc | sumo/tools/assign/network.py:60-62 | clearing one more origin's row changes that row only |
| Network.Candidates | sumo/tools/assign/network.py:72-83 | the vertex is a forward split exactly when it has one incoming edge or no candidates; the candidates are then its outgoing connectors whose target has one incoming edge, otherwise its incoming connectors whose source has one outgoing edge; none repeats |
| Network.AttachOut | sumo/tools/assign/network.py:86-88 | the vertex's outgoing edges grow by the moved links, and each of them now starts at the vertex |
| Network.AttachIn | sumo/tools/assign/network.py:93-95 | the vertex's incoming edges grow by the moved links, and each of them now ends at the vertex |
| Splicing.SpliceOutStep | sumo/tools/assign/network.py:86-89 | one forward splice changes only the vertex's outgoing edges, to its old ones plus the moved ones minus the connector, and the sources of the moved edges, which become the vertex |
| Splicing.SpliceOutAllMeaning | sumo/tools/assign/network.py:84-89 | forward splices change no other vertex's edge sets and no target; an edge starts at the vertex afterwards exactly when some splice moved it, and otherwise keeps its source |
| Splicing.SpliceOutAllOuts | sumo/tools/assign/network.py:84-89 | after forward splices a non-connector leaves the vertex exactly when it did before or some splice moved it; a connector no splice moved no longer leaves it |
| Splicing.SpliceOutAllTargets | sumo/tools/assign/network.py:84-89 | forward splices keep every edge's target |
| Splicing.SpliceInAllMeaning | sumo/tools/assign/network.py:92-96 | the mirror for backward splices: only the vertex's incoming edges and the moved edges' targets change, with the same exactly-when statements |
| Splicing.SpliceInAllSources | sumo/tools/assign/network.py:92-96 | backward splices keep every edge's source |
| Splicing.EndsMeaning | sumo/tools/assign/network.py:84-98 | when every candidate is an edge of the graph, the collected vertices are one per candidate, the i-th being the i-th candidate's end |
| Network.Net.SpliceForward | sumo/tools/assign/network.py:86-91 | the connector's target's outgoing edges join the vertex's and the connector leaves them; exactly those edges now start at the vertex, every other source and every target is kept, and no other vertex's edge sets change; the full dict loses the connector's label, failing exactly when that label is missing |
| Network.Net.SplicedOut | sumo/tools/assign/network.py:86-89 | the heap after one forward splice, read as a graph, is SpliceOut of the graph before |
| Network.Net.SpliceForwardOnGraph | sumo/tools/assign/network.py:86-91 | one forward splice turns the net's graph into SpliceOut of it, and the connector's target is the one the graph records |
| Network.Net.SpliceForwardNext | sumo/tools/assign/network.py:85-91 | one more candidate spliced forward: the graph is SpliceOutAll of one more candidate, the dict is DeleteAll of one more label (None exactly when that deletion raises), and the connector's target is collected only when it succeeds |
| Network.Net.SpliceForwardAll | sumo/tools/assign/network.py:84-91 | the graph afterwards is SpliceOutAll of the graph before over the candidates spliced, all of them when no deletion raises; the full dict loses the candidates' labels, failing exactly when DeleteAll fails, at the first missing or repeated label; the collected vertices are the candidates' targets in the graph before, in candidate order |
| Network.Net.SpliceBackward | sumo/tools/assign/network.py:93-98 | the connector's source's incoming edges join the vertex's and the connector leaves them; exactly those edges now end at the vertex, every other target and every source is kept, and no other vertex's edge sets change; the full dict loses the connector's label, failing exactly when that label is missing |
| Network.Net.SplicedIn | sumo/tools/assign/network.py:93-96 | the heap after one backward splice, read as a graph, is SpliceIn of the graph before |
| Network.Net.SpliceBackwardOnGraph | sumo/tools/assign/network.py:93-98 | one backward splice turns the net's graph into SpliceIn of it, and the connector's source is the one the graph records |
| Network.Net.SpliceBackwardNext | sumo/tools/assign/network.py:92-98 | one more candidate spliced backward: the graph is SpliceInAll of one more candidate, the dict is DeleteAll of one more label, and the connector's source is collected only when the deletion succeeds |
| Network.Net.SpliceBackwardAll | sumo/tools/assign/network.py:84-98 | the graph afterwards is SpliceInAll of the graph before over the candidates spliced, all of them when no deletion raises; the full dict loses the candidates' labels, failing exactly when DeleteAll fails; the collected vertices are the candidates' sources in the graph before, in candidate order |
| Network.Net.RemoveVertices | sumo/tools/assign/network.py:100-101 | succeeds exactly when the removals are a sub-multiset of the vertex list (ValueError otherwise); the new list is the old one minus the removed vertices, counted with repetition; the graph is untouched |
| Network.Net.ReduceAt | sumo/tools/assign/network.py:71-98 | one vertex's turn is the turn Chosen describes on the graph before (forward split exactly when one incoming edge or no candidates, the candidates exactly the qualifying connectors); it fails exactly when DeleteAll fails on its candidates; otherwise the graph is that turn's Splice of the graph before, the dict lost exactly the candidates' labels, and the collected vertices are the turn's removals |
| Network.RecordSnoc | sumo/tools/assign/network.py:72-98 | a turn chosen on the graph the recorded turns leave extends the record |
| Network.Net.ReduceAll | sumo/tools/assign/network.py:70-98 | the turns taken form a Record: in vertex-list order, each chosen on the graph the turns before it left; a failure is the last recorded turn, every earlier deletion having succeeded; without one every vertex had its turn, the graph is the one the turns leave, the dict lost exactly all candidates' labels, one entry per collected vertex, and `toRemove` is the turns' removals in order |
| Network.Net.LinkReduce | sumo/tools/assign/network.py:70-101 | the recorded turns are as in ReduceAll, whether or not a deletion raised; `ok` holds exactly when no deletion raised and the collected vertices form a sub-multiset of the vertex list; then the graph is the one the turns leave, the full dict lost exactly one entry per collected vertex and kept the rest, and the vertex list lost exactly the collected vertices |
| Containers.RemoveFirst | sumo/tools/assign/network.py:101 | `list.remove` fails exactly when the element is absent; otherwise it takes away one occurrence and nothing else |
| Containers.RemoveEach | sumo/tools/assign/network.py:100-101 | removing a list of elements one by one succeeds exactly when they form a sub-multiset of the list, and leaves the multiset difference |
| Containers.DelItem | sumo/tools/assign/network.py:90 | `del d[k]` fails exactly when k is not a key; otherwise every other key keeps its entry |
| Containers.DeleteFullEdgeAsWrittenFails | sumo/tools/assign/network.py:90 | deleting the full-edge entry with the edge object as key, as written, always fails: the dict's keys are labels |
| Containers.DeleteFullEdge | sumo/tools/assign/network.py:90 | deleting by the edge's label fails exactly when the label is absent, and otherwise removes that key only |
| Containers.DeleteFullEdgeIsDelItem | sumo/tools/assign/network.py:90 | deleting by label is `del d[edge.label]` on the dict the map stands for |
| Containers.DeleteFullEdgeRemovesEdge | sumo/tools/assign/network.py:90 | in a dict that maps labels to their edges, the deletion succeeds and removes exactly that edge from the values |
| Containers.DeleteAllMeaning | sumo/tools/assign/network.py:84-98 | deleting the candidates' labels one after another succeeds exactly when every label is present and none repeats, and leaves the dict without those labels |
| Containers.DeleteAllShrinks | sumo/tools/assign/network.py:84-98 | a successful run of deletions shrinks the dict by one entry per candidate and keeps the remaining entries |
| Clusters.ExploreOut | sumo/tools/assign/network.py:116-123 | stops exactly at a real outgoing edge of the source; otherwise every outgoing edge's target is filed; the queue grows by the newly filed targets, each of them reached by an outgoing edge |
| Clusters.ExploreIn | sumo/tools/assign/network.py:126-133 | stops exactly at a real incoming edge of the target; otherwise every incoming edge's source is filed; the queue grows by the newly filed sources, each of them reached by an incoming edge |
| Clusters.SourceRound | sumo/tools/assign/network.py:114-122 | every target filed in one source round lies in every closed cluster around the start; the round keeps the search frontier invariant unless it met a real edge, and strictly shrinks the work left |
| Clusters.TargetRound | sumo/tools/assign/network.py:123-131 | every source filed in one target round lies in every closed cluster around the start; the round keeps the search frontier invariant unless it met a real edge, and strictly shrinks the work left |
| Clusters.ExpandCluster | sumo/tools/assign/network.py:108-131 | the search contains its start and lies inside every closed cluster around the start; it stops exactly when no closed cluster contains the start, and then a real edge leaves a source or enters a target; otherwise the cluster it returns is closed, so it is the least closed cluster around the start |
| Clusters.RealEdgeOpensCluster | sumo/tools/assign/network.py:117-131 | a cluster inside every closed cluster around the start that a real edge touches leaves no closed cluster around the start |
| Clusters.IsComplete | sumo/tools/assign/network.py:135-139 | the cluster is complete exactly when every source has at least as many outgoing edges as there are targets |
| Network.Net.MergeOut | sumo/tools/assign/network.py:141-144 | the hub gains every edge leaving a target, those edges now start at the hub, and every other edge keeps its source |
| Network.Net.MergeIn | sumo/tools/assign/network.py:145-148 | the hub gains every edge entering a source, those edges now end at the hub, and every other edge keeps its target |
| Network.Net.MergeCluster | sumo/tools/assign/network.py:141-148 | both halves of the merge: the hub takes over the cluster's outgoing and incoming edges, and no other edge changes an endpoint |
| Network.Net.ReduceSeed | sumo/tools/assign/network.py:106-148 | a visited seed target changes nothing; otherwise the search returns the least closed cluster around the seed's target, or stops exactly when there is none; the sources are visited unless it stopped, and the cluster is merged into the seed's target exactly when it is closed and complete, the target taking over its edges and no other edge moving; with no merge, no edge changes |
| Network.Net.Reduce | sumo/tools/assign/network.py:103-148 | the net stays valid and the visited vertices are vertices of the net |
| Novelty.CountShared | sumo/tools/assign/network.py:167-172 | counts the existing path's edges that lie on the candidate, with repetition, and sums their current travel times |
| Novelty.SharedEdgeCount | sumo/tools/assign/network.py:167-171 | the shared count is at most the path's length, and zero exactly when no edge of the path lies on the candidate |
| Novelty.EdgeFractionTestIsSharing | sumo/tools/assign/network.py:173 | with Python 2 integer division, the edge-fraction test holds exactly when the path shares at least one edge with the candidate |
| Novelty.SmallDiff | sumo/tools/assign/network.py:162-175 | the answer is never (True, True); an empty list makes the candidate new |
| Novelty.CheckSmallDiff | sumo/tools/assign/network.py:162-175 | the loop returns the answer of the first existing path that does not differ from the candidate, (True, False) when all differ, and fails on a path with no edges |
| Novelty.FirstVerdictDecides | sumo/tools/assign/network.py:163-175 | the first existing path whose verdict is not "differs" decides the answer |
| Novelty.NewExactlyWhenAllDiffer | sumo/tools/assign/network.py:163-175 | the candidate is new exactly when every existing path differs from it |
| Novelty.NewPathIsNoDuplicate | sumo/tools/assign/network.py:164-165 | a candidate judged new repeats no existing path's edge list |
| Novelty.IdenticalPathIsNotNew | sumo/tools/assign/network.py:164-165 | an identical path, reached before any deciding verdict, gives (False, False) |
| Novelty.NearlySameWhenSharing | sumo/tools/assign/network.py:173-174 | a different path that shares an edge with the candidate and whose shared time is within 0.05 hours of the cost is judged nearly the same |
| Novelty.SmallDiffEdgesOnly | sumo/tools/assign/network.py:162-175 | the answer depends only on the existing paths' edge lists, not on their figures |
| Routes.WalkPredecessors | sumo/tools/assign/network.py:201-207 | the walk back from the destination yields the real edges of the predecessor chain, in order from origin to destination, and their set |
| Routes.RealRouteIsReal | sumo/tools/assign/network.py:201-207 | a route rebuilt from a predecessor map holds only real edges, each a predecessor edge |
| Routes.RealRouteStep | sumo/tools/assign/network.py:202-206 | the route to a vertex is the route to its predecessor edge's source, followed by that edge when it is real |
| Routes.SumFreeFlow | sumo/tools/assign/network.py:224-225 | the sum of the route's free-flow times |
| Routes.FreeFlowTimeAppend | sumo/tools/assign/network.py:224-225 | the free-flow time of two routes joined is the sum of theirs |
| Routes.Reverse | sumo/tools/assign/network.py:207 | the list reversed, element by element |
| Routes.ReadLabelChain | sumo/tools/assign/network.py:261-270 | following a label chain succeeds exactly when it reaches the origin; the collected edges, reversed, are the chain's real edges from origin to destination, and the cost is their free-flow time |
| Routes.LabelRouteIsReal | sumo/tools/assign/network.py:261-270 | a route read off a label chain holds only real edges, each recorded by the chain |
| Overlaps.AddOverlapWith | sumo/tools/assign/network.py:215-216 | every path of the list adds its overlap term with the new path, and nothing else changes |
| Overlaps.AddOverlapsOf | sumo/tools/assign/network.py:217-219 | the new path adds its overlap terms with each older path, in list order |
| Overlaps.JoinNewPath | sumo/tools/assign/network.py:212-219 | the list grows by one: the older paths each add their overlap with the new route; the new path has its length and its overlap with itself and every older path |
| Overlaps.OverlapWithEdgesOnly | sumo/tools/assign/network.py:217-219 | the new path's overlap sum depends only on the older paths' edge lists |
| Searches.ClearShortest | sumo/tools/assign/network.py:198-199 | every path of the list loses its current-shortest flag and keeps everything else |
| Searches.FileNewPath | sumo/tools/assign/network.py:210-226 | the new path is filed last, with its overlaps, its actual (or Lohse helper) time set to the cost and its free-flow time summed from its edges |
| Searches.PairOutcome | sumo/tools/assign/network.py:194-233 | the pair fails exactly when checkSmallDiff fails and gains a path exactly when the candidate is new; the list grows by at most that one path; the older paths keep their endpoints and edges; at most the last old path stays current-shortest, and only when none is added; a new path is the candidate route, current shortest, used once, and repeats no older path |
| Searches.UpdatePairList | sumo/tools/assign/network.py:194-233 | the imperative list update computes PairOutcome |
| Searches.ReadTreeAt | sumo/tools/assign/network.py:196-207 | a destination has a route in the search result exactly when the search reached it and its predecessor chain leads back to the origin, and the route is the chain's real edges |
| Searches.RowsFound | sumo/tools/assign/network.py:192-207 | when every searched destination's predecessor chain leads back to its origin, every such destination has a route in the results read as values |
| Searches.PairStep | sumo/tools/assign/network.py:193-233 | one pair of findNewPath on the table as a value; a step without a raise found the destination in the search result with a route back to the origin, and the pair in the table |
| Searches.PairStepChanges | sumo/tools/assign/network.py:193-233 | one pair's step changes that pair's list and no other |
| Searches.PairStepMissing | sumo/tools/assign/network.py:196-197 | a destination the search did not reach, or a pair missing from the table, raises KeyError and changes nothing |
| Searches.PairStepFound | sumo/tools/assign/network.py:193-233 | a pair in the table whose destination was reached along a chain gets PairOutcome's list for the real route at cost dist/3600; a filed path counts one |
| Searches.PairStepGrows | sumo/tools/assign/network.py:193-233 | one pair's step only lengthens the table, by the paths it counts |
| Searches.PairStepLocal | sumo/tools/assign/network.py:193-233 | one pair's step depends on the table only through that pair's own list |
| Searches.RowRunChanges | sumo/tools/assign/network.py:192-233 | the run over an origin's destinations changes only its active pairs (positive demand, differently named ends) |
| Searches.RowRunNext | sumo/tools/assign/network.py:192-193 | one more destination: an active pair takes its step unless something already raised; an inactive one changes nothing |
| Searches.RowRunTurn | sumo/tools/assign/network.py:192-233 | one more destination after a run without a raise: the run extends by that pair's step, or by nothing when the pair is inactive |
| Searches.RowRunGrows | sumo/tools/assign/network.py:192-233 | a row's run only lengthens the table, by the paths it counts |
| Searches.RowRunStops | sumo/tools/assign/network.py:192-233 | once a pair of the row raised, the later destinations change nothing |
| Searches.RowRunAt | sumo/tools/assign/network.py:192-233 | with no destination listed twice, an active pair of a row that ran without a raise holds the list its step makes from the table before the run |
| Searches.RowRunOk | sumo/tools/assign/network.py:192-233 | with no destination listed twice, a row runs without a raise when each active pair's step succeeds on the table before the run |
| Searches.RowRunMeaning | sumo/tools/assign/network.py:192-233 | with no destination listed twice: without a raise every active pair's list is PairOutcome of its old list; with one, some active pair's step raises |
| Searches.MatrixRunChanges | sumo/tools/assign/network.py:183-233 | the run over the matrix changes only active pairs |
| Searches.MatrixRunNext | sumo/tools/assign/network.py:183-193 | one more origin: unless something already raised or there are no destinations, a row shorter than the destinations raises IndexError first, and otherwise the row runs |
| Searches.MatrixRunAdvance | sumo/tools/assign/network.py:183-233 | one more origin whose row is long enough extends the run by that row's run |
| Searches.MatrixRunShort | sumo/tools/assign/network.py:185-186 | a missing or short row raises before any of its pairs, with the table as it was |
| Searches.MatrixRunGrows | sumo/tools/assign/network.py:183-233 | the matrix run only lengthens the table, by the paths it counts |
| Searches.MatrixRunStops | sumo/tools/assign/network.py:183-233 | once an origin raised, the later origins change nothing |
| Searches.MatrixRunLast | sumo/tools/assign/network.py:183-233 | a run without a raise ran every row before the last without one, and the last row is long enough and ran without a raise |
| Searches.MatrixRunAt | sumo/tools/assign/network.py:183-233 | with no origin and no destination listed twice, a run without a raise reached every column of every row, and every active pair's list is PairOutcome of its old list |
| Searches.MatrixRunOk | sumo/tools/assign/network.py:183-233 | with no repeats, a run succeeds when every row is long enough and every active pair's step succeeds on the table before the run |
| Searches.MatrixRunMeaning | sumo/tools/assign/network.py:183-233 | with no repeats: without a raise every row was read in full and every active pair's list is PairOutcome of its old list; with one, some row is short or some active pair's step raises |
| Searches.MatrixRunEnds | sumo/tools/assign/network.py:182-234 | a finished run lengthened the table by the paths it counted, changed only active pairs, and, with no repeats, means what MatrixRunMeaning says |
| Searches.SearchedKept | sumo/tools/assign/network.py:192-233 | a pair's updated list survives later steps of other pairs |
| Searches.RowSearched | sumo/tools/assign/network.py:192-233 | an active pair that earlier origins did not touch is updated from the original table by its row's run |
| Network.Net.FindNewPathForPair | sumo/tools/assign/network.py:193-233 | a destination missing from the search result or the path table raises and changes nothing; otherwise the pair's list becomes PairOutcome of the route read off the predecessor tree at cost dist/3600, and only that list changes; an added path holds only real edges; this is PairStep of the table before |
| Network.Net.SetList | sumo/tools/assign/network.py:197 | replacing one pair's list by a valid list keeps the table valid, and a longer list extends the table by its extra positions |
| Network.Net.FindNewPathAt | sumo/tools/assign/network.py:192-233 | one loop turn: an active pair takes its PairStep, an inactive one is skipped, so the row's run extends by one destination |
| Network.Net.FindNewPathsFrom | sumo/tools/assign/network.py:189-233 | the table, the count and `ok` are RowRun of the origin's row from the table before; with no destination listed twice, without a raise every active pair's list is PairOutcome of its old list, and a raise means some active pair's step raises |
| Network.Net.FindNewPathsOf | sumo/tools/assign/network.py:183-233 | one origin: a missing or short demand row raises before any pair, otherwise its destinations run, so the matrix run extends by one origin |
| Network.Net.FindNewPath | sumo/tools/assign/network.py:177-234 | the table, the count (restarted from zero) and `ok` are MatrixRun from the table before; the table only grows, by the count; only active pairs change; with no origin and no destination listed twice, without a raise every row was read in full and every active pair's list is PairOutcome of its old list, and a raise means a short row or an active pair whose step raises |
| Network.Net.StartLabels | sumo/tools/assign/network.py:244-247 | every listed vertex loses its labels and its pending flag, and the origin ends with the single zero-cost origin label |
| Elements.Vertex.Update | sumo/tools/assign/network.py:254 | the target's labels become the merge result; the vertex is queued exactly when they changed and it was not already pending |
| Network.Net.Relax | sumo/tools/assign/network.py:252-255 | the queue only grows at its end, without repeats, and every vertex it gains is newly pending and not the origin; every vertex that became pending is queued; pending flags are only set; the origin's labels never change; a vertex whose labels changed is the target of an edge out of the relaxed vertex and is queued or was pending already |
| Network.Net.Propagate | sumo/tools/assign/network.py:248-255 | the origin's labels are kept; only vertices some edge enters get new labels; a vertex other than the origin that was pending stays pending; `settled` holds exactly when there was fuel for a turn and no vertex is left newly pending, so a queue left non-empty when the fuel runs out means a newly pending vertex |
| Network.Net.LabelFrom | sumo/tools/assign/network.py:244-255 | the origin's labels become its reset labels plus the zero-cost origin label; `settled` holds exactly when there was fuel and every pending vertex is an unlisted one that was pending before; unlisted vertices other than the origin keep their pending flag; over a sequence of origins the flags keep PendingAfter |
| KPathSets.MinFreeIsLeast | sumo/tools/assign/network.py:273 | the cheapest free-flow time of a list is at most every path's and is some path's |
| KPathSets.ReadBackIsReal | sumo/tools/assign/network.py:260-270 | every route read back from a label holds only real edges |
| KPathSets.KPathsList | sumo/tools/assign/network.py:260-286 | the loop over a destination's labels computes what KPathsFor says of the routes read back from them |
| KPathSets.KPathsForFiles | sumo/tools/assign/network.py:272-286 | every path added is a k-path of the pair: real edges only, its free-flow and actual times the route's free-flow time in hours, and, unless first, at most 1.4 times the cheapest path before it |
| KPathSets.KPathsForStops | sumo/tools/assign/network.py:265-275 | without a raise the labels stop only at a route past the cut-off of the list as it then stands; with one, at a chain that ran out before the origin |
| KPathSets.KPathsForKeeps | sumo/tools/assign/network.py:276-286 | the older paths keep their places and every figure other than their overlap sums |
| KPathSets.KPathsForLength | sumo/tools/assign/network.py:279-287 | the list grows by exactly the number of paths counted |
| KPathSets.IsKPathKept | sumo/tools/assign/network.py:280-281 | a k-path stays a k-path when later filings change only overlap sums |
| KPathSets.KGrownTransitive | sumo/tools/assign/network.py:257-287 | growing the table by k-paths twice is growing it by k-paths |
| PathTable.WithListExtends | sumo/tools/assign/network.py:197-233 | replacing a list by one at least as long keeps every older position of the table |
| KPathSets.KPathsForFiled | sumo/tools/assign/network.py:272-287 | a first route within the cut-off is filed and counted, and the remaining labels go on from the longer list |
| Searches.KPairStep | sumo/tools/assign/network.py:257-287 | one destination of calcKPaths on the table as a value; a step without a raise found the pair in the table and, when its ends are named differently, its demand entry in the row |
| Searches.KPairStepChanges | sumo/tools/assign/network.py:257-287 | one destination's k-path step changes only that pair, and only when it is searched (non-zero demand, differently named ends) |
| Searches.KPairStepGrows | sumo/tools/assign/network.py:257-287 | one destination's step grows the table by k-paths of the pair only, by the paths it counts |
| Searches.KPairStepLocal | sumo/tools/assign/network.py:257-287 | one destination's step depends on the table only through the pair's own list |
| Searches.ReadBacks | sumo/tools/assign/network.py:257-270 | one entry per destination: what the labels at that destination read back into toward the origin |
| Searches.KRowRunChanges | sumo/tools/assign/network.py:257-287 | an origin's destinations change only its searched pairs |
| Searches.KRowRunAdvance | sumo/tools/assign/network.py:257-287 | one more destination after a run without a raise extends the run by that destination's step |
| Searches.KRowRunGrows | sumo/tools/assign/network.py:257-287 | a row's run grows the table by k-paths only, by the paths it counts |
| Searches.KRowRunStops | sumo/tools/assign/network.py:257-287 | once a pair of the row raised, the later destinations change nothing |
| Searches.KRowRunLast | sumo/tools/assign/network.py:257-287 | a row's run succeeds exactly when the run over the earlier destinations and the last step both succeed, and then ends with the last step's table |
| Searches.KRowRunAt | sumo/tools/assign/network.py:257-287 | with no destination listed twice, each pair of a row that ran without a raise holds the list its step makes from the table before the run |
| Searches.KRowRunAtLast | sumo/tools/assign/network.py:257-287 | the same for the last destination of the row |
| Searches.KRowRunOk | sumo/tools/assign/network.py:257-287 | with no destination listed twice, a row runs without a raise when every destination's step succeeds on the table before the run |
| Searches.KRowRunMeaning | sumo/tools/assign/network.py:257-287 | with no destination listed twice: without a raise every pair is in the table, its demand entry exists unless its ends are named alike, and a searched pair's list is KPathsFor of its old list; with a raise, some destination's step raises |
| Searches.KMatrixRunChanges | sumo/tools/assign/network.py:243-287 | the run over the origins changes only searched pairs |
| Searches.KMatrixRunAdvance | sumo/tools/assign/network.py:243-287 | one more origin: it changes nothing if its propagation did not settle, and otherwise extends the run by its row's run |
| Searches.KMatrixRunGrows | sumo/tools/assign/network.py:243-287 | the run over the origins grows the table by k-paths only, by the paths it counts |
| Searches.KMatrixRunLonger | sumo/tools/assign/network.py:243-287 | the run over the first origins reads only their own records |
| Searches.KMatrixRunLast | sumo/tools/assign/network.py:243-287 | a run without a raise ran the earlier origins without one, and the last origin's row too if it settled |
| Searches.KMatrixRunAt | sumo/tools/assign/network.py:243-287 | with no repeats, every pair of a settled origin in a run without a raise holds KPathsFor of its old list if searched |
| Searches.KMatrixRunOk | sumo/tools/assign/network.py:243-287 | with no repeats, a run succeeds when every pair of every settled origin takes its step on the table before the run without a raise |
| Searches.KMatrixRunMeaning | sumo/tools/assign/network.py:243-287 | with no repeats: without a raise every pair of every settled origin holds KPathsFor of its old list if searched; with a raise, some pair of a settled origin raises |
| Searches.KMatrixRunEnds | sumo/tools/assign/network.py:243-299 | a finished run grew the table by k-paths only, by the paths it counted, changed only searched pairs, and, with no repeats, means what KMatrixRunMeaning says |
| Searches.KActivePrefix | sumo/tools/assign/network.py:243-259 | the searched pairs of the first origins are among those of all origins |
| Searches.KSearchedKept | sumo/tools/assign/network.py:257-287 | a pair's k-path list survives later steps of other pairs |
| Searches.KRowSearched | sumo/tools/assign/network.py:257-287 | a pair that earlier origins did not touch is updated from the original table by its row's run |
| Network.Net.KPathsForPair | sumo/tools/assign/network.py:258-286 | the pair's list becomes what KPathsFor makes of its old list and of its labels read back, paths filed before a raise included; the count and `ok` are KPathsFor's; no other list changes |
| Network.Net.KPathsTo | sumo/tools/assign/network.py:257-287 | the table, the count and `ok` are KPairStep of the table before: a missing pair raises KeyError; a pair with ends named alike is left alone; a missing demand entry raises IndexError; a zero entry is skipped; otherwise the pair gets KPathsFor of its list |
| Network.Net.KPathsFrom | sumo/tools/assign/network.py:256-287 | the table, the count and `ok` are KRowRun of the origin's destinations from the table before; with no destination listed twice, without a raise each searched pair holds KPathsFor of its old list, and a raise means some destination's step raises |
| Network.Net.KPathsOrigin | sumo/tools/assign/network.py:243-287 | labels reset, propagated and read back for one origin, each route real; `settled` holds exactly when there was fuel and the propagation left no vertex newly pending (as LabelFrom); without settling the table is unchanged; otherwise the table, count and `ok` are KRowRun, with the per-pair meaning of KPathsFrom |
| Network.Net.KPathsOriginAt | sumo/tools/assign/network.py:243-287 | one loop turn over origins: the record gains this origin's propagation with its `settled` flag, which is the propagation's own outcome by PendingAfter over the origins so far (a settled turn leaves only old, unlisted vertices pending; an unsettled one had no fuel or left a vertex newly pending); the matrix run extends by one origin |
| Network.Net.KPathsOrigins | sumo/tools/assign/network.py:243-287 | the origins in turn until a pair raises or a propagation does not settle; every recorded origin but the last settled; without either stop all origins ran; the table, count and `ok` are KMatrixRun over the record; the pending flags satisfy PendingAfter over the origins run |
| Network.Net.CalcKPaths | sumo/tools/assign/network.py:237-299 | the count grows by the number of paths filed; the table grows by k-paths only, after the older paths, whose figures other than overlap sums are kept; only searched pairs change; the table and `ok` are KMatrixRun over the record of origins run; with no origin and no destination listed twice, without a raise every pair of every settled origin holds KPathsFor of its old list, and a raise means some pair's step raises; a settled run leaves pending only unlisted vertices that were pending before, and an unsettled one had no fuel or leaves pending a listed vertex, an origin or a vertex that was not pending before |

## Left out

- The XML readers (`NetworkReader`, `DistrictsReader`, `ExtraSignalInformationReader`, `DetectedFlowsReader`), `printNet`, `addTLJunctions` and `getJunction`, and the `_junctions` and `_detectedLinkCounts` fields: they are file I/O or bookkeeping outside the network engine.
- `createBoostGraph` and the `options.boost` branch of `findNewPath`: the boost graph library is a foreign binding. The model follows the `dijkstraPlain` branch.
- FindNewPath: line 188 reads `options`, which network.py never defines or imports (its imports are lines 14-17). As written, `findNewPath` raises NameError at the first origin's turn, right after that origin's `endSet` loop (lines 184-187). This is not modelled: the model runs the search as if `options.boost` were false.
- FindNewPath: the shortest-path search (`dijkstraPlain`, `dijkstraBoost`) is not part of this model. Its result comes in per origin as a distance map and a predecessor map (`ShortestPathTree`). The model reads each result as a value (`ReadTree`, the ghost `founds`). The caller must guarantee that the predecessor chain of every searched destination reaches the origin (`RowFound`, which `RowsFound` derives from the chains). A Dijkstra tree has that property. A walk that meets a vertex with no predecessor, which raises KeyError in the source, is therefore not reached by the methods. `PairStep` still models it as a raise.
- Network.Net.FindNewPath: the pair-by-pair meaning (`MatrixDone`) is stated only when no origin and no destination is listed twice (`NoRepeats`). With a repeat, a pair is updated twice. The result is still stated exactly by `MatrixRun`, which is the same update run pair by pair in source order.
- Network.Net.CalcKPaths: the pair-by-pair meaning (`KMatrixDone`) is likewise stated only without repeats. The table is always stated exactly by `KMatrixRun`. The record of the origins' propagations (`searches`) is ghost. Each destination's labels are read back as routes (`ReadBack`) as soon as that origin's propagation ends.
- The demand matrix may have more rows, or longer rows, than the origins and destinations; the extra entries are never read, as in the source. A missing or short row raises IndexError as in the source: in `findNewPath` before any pair of that origin (line 186), in `calcKPaths` at the first pair whose entry is read (line 259).
- CalcKPaths: the kpaths.xml output of `verbose` runs is not modelled, and neither is its `file`/`print` I/O.
- The classes of `elements` (`Vertex`, `Edge`, `Path`, `Predecessor`) are not part of this model. Only the fields `Net` uses are kept. Their constructor defaults are taken as the obvious ones: zero figures, used once, current shortest.
- Elements.Vertex.Update: the label merge is a parameter (`LabelMerge`); only the queueing protocol around it is modelled.
- Overlaps.JoinNewPath: the overlap term of `Path.updateSumOverlap` is a parameter (`OverlapTerm`). The length of `Path.getPathLength` is a parameter too (`LengthOf`).
- Network.Net.Relax: the contract says which vertices' labels may change (targets of the relaxed vertex's edges, never the origin) and that a changed vertex ends up queued or pending; it does not say which labels the merge computes, because the merge is a parameter (`LabelMerge`).
- Network.Net.Propagate: the contract does not state that the settled labels are a fixed point of the merge over every edge; that needs properties of the label merge (idempotence, monotonicity) that a parameter does not have. It states only that the origin's labels are kept, that only vertices some edge enters get new labels, and the pending flags.
- Network.Net.Propagate: termination of the label propagation depends on the label merge, which is not modelled. The loop is bounded by a `fuel` count of vertices taken from the queue. The contract states that `settled` holds exactly when there was fuel for a turn and no vertex is left newly pending; a run that does not settle stops CalcKPaths.
- Network.Net.KPathsOriginAt: the recorded `settled` flag is tied to the pending flags (PendingAfter), not to the labels, which the merge parameter does not pin. A vertex already pending before CalcKPaths may stay pending, so an unsettled turn is stated only as "no fuel, or some listed vertex, origin or newly pending vertex is left pending". A run that records an unsettled origin without propagating therefore meets the contract when the fuel is zero or a listed vertex or an origin was already pending on entry.
- Network.Net.Reduce: states only that the net stays valid and that the visited set lies in the net; what each merge does is stated per seed by ReduceSeed.
- Iteration order over Python sets and dicts (`outEdges`, `inEdges`, `_edges.itervalues()`) is not fixed. The model takes any order, and its contracts hold for every order.
- Floating point: travel times and costs are exact reals. The cut-off and tolerance comparisons of lines 173-174 and 274 are exact.
- `str(vertex)` is the vertex's name, its decimal index, in the demand tests of lines 186, 193 and 259. The readers, which are not part of this model, relabel vertices (network.py:329-330). A district's incoming and outgoing vertex share one label there (network.py:419-421). So in the source, `str(s) != str(t)` also skips the pair made of a district's own two vertices. The model names vertices by the decimal indices that `newVertex` gives (line 35). Those can repeat once `linkReduce` has removed vertices. The readers' shared district labels are not modelled, so the district pair is searched like any other.
- The vertices that `linkReduce` and `reduce` make unreachable stay allocated, as in the source. `reduce` does not remove its merged vertices from the vertex list, and neither does the model.

## Findings

| source | as written | input that shows it | evidently intended | confidence | as-written member | corrected member |
|---|---|---|---|---|---|---|
| sumo/tools/assign/network.py:90 and :97 | `del self._fullEdges[edge]` deletes with the edge object as key, but `_fullEdges` is keyed by edge labels (line 47), so the deletion raises KeyError | any net where some vertex has a single incoming edge and an outgoing connector whose target has a single incoming edge; linkReduce raises at the first splice | delete the entry of the edge's label, `del self._fullEdges[edge.label]` | not executed | Containers.DeleteFullEdgeAsWrittenFails | Containers.DeleteFullEdgeRemovesEdge |
