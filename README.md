# Cage-Moleculaire, modelled in Dafny
Cage-Moleculaire builds molecular cages around a substrate molecule. It grows an envelope of
atoms around the substrate (expansion). It inserts hydrogen-bond patterns on that envelope
(generation), and copies the cage once per dependency between pattern atoms. It marks aromatic
rings on the envelope. The assembly step then joins the separate groups of pattern atoms by
paths of inserted motifs. A path between two atoms is searched on a voxel grid of the
substrate with a heap-driven Dijkstra or A* search.
This project models the data structures and the combinatorial core of that program, and proves
what each operation does to them:
- `IdLists`: the slot-based id list `List_t`, where -1 marks a free slot. `LinkedLists`: the
  linked pair, point and cage lists (`src/structureLst.c`).
- `Graphs`, `GraphCopy`, `GraphCycles`: the graph `Graph_t` with its per-vertex neighbour
  counter, its copy and its short-cycle search (`src/structureGph.c`).
  `Degrees` and `Adjacency` state what a consistent set of neighbour lists is.
- `Shells`: the cage `Shell_t` (`src/structureShl.c`). `Molecules`: the substrate `Molecule_t`
  (`src/structureMol.c`). `Conversions`: the two conversions to graphs (`src/structure.c`).
  `Mains`: the top-level record and its cage array (`src/structureMN.c`). `Paths`: the path
  record (`src/structurePth.c`).
- `Points`, `Voxelization`, `NodeHeaps`, `PathFinding`: points and the voxel grid, the node heap
  with its voxel-to-heap position map, and the grid searches (`src/structurePT.c`,
  `src/voxelization.c`, `src/structureNH.c`, `src/pathFinding.c`).
- `Expansion`: the envelope (`src/expansion.c`). `Generation`: pattern insertion and the
  hydrogen pattern. `Dependencies`: dependency copies. `Rings`: aromatic ring marking
  and the third neighbour it places on ring atoms left with two (`src/generation.c`). `Assembly`: the assembly's grouping, reachability and path recursion
  (`src/assembly.c`).
Operations that update a record in place are methods of a class whose fields hold the record's
state. Each method is proved equal to a specification function, and the lemmas about those
functions carry the source's promises. Geometry (normals, rotations, distances, projections) is
not modelled. Where the source decides something geometric, the model takes the decision or
the computed position as a parameter.
## Model
| member | source | states |
|---|---|---|
| IdLists.FirstFree | src/structureLst.c:71-80 | the first free (-1) slot, or the length when none is free; every earlier slot holds an id |
| IdLists.IndexOf | src/structureLst.c:91-99 | -1 exactly when id is not among the ids before the first free slot; otherwise the first slot holding id |
| IdLists.UsedLength | src/structureLst.c:54-60 | the position just after the last id: every later slot is free and the slot before it holds an id |
| IdLists.StopIndex | src/structureLst.c:146-149 | the shifting loop of LST_removeElement stops at a free slot or at the last slot and passes only ids |
| IdLists.CountIdsOfPacked | src/structureLst.c:54-60 | on a packed buffer LST_nbElements, the first free index and the number of stored ids coincide |
| IdLists.AddedAbsent | src/structureLst.c:125-132 | an absent id goes into the first free slot, right after the existing ids |
| IdLists.AddedIds | src/structureLst.c:125-132 | on a packed buffer the id is appended unless already present; the buffer stays packed and grows by REALLOCSIZE only when full |
| IdLists.AddedNoDup | src/structureLst.c:125-132 | adding never creates a duplicate id |
| IdLists.RemovedAt | src/structureLst.c:142-153 | slot by slot: entries from the id's position up to the stop index shift left by one and the stop slot becomes free |
| IdLists.RemovedPresent | src/structureLst.c:142-153 | on a packed buffer holding id, the gap is closed and one fewer id remains, the others in order |
| IdLists.RemovedIds | src/structureLst.c:142-153 | on a packed buffer the ids afterwards are the old ids without the first occurrence of id; size and packing kept |
| IdLists.RemovedAbsent | src/structureLst.c:142-153 | removing an absent id changes nothing |
| IdLists.IndexOfFinds | src/structureLst.c:110-115 | LST_getIndice finds id exactly when id is stored, and then at a slot holding it |
| IdLists.WithFreeSlotFacts | src/structureLst.c:71-80 | LST_getIndiceFree grows the buffer by REALLOCSIZE free slots only when none is free, keeping the old entries |
| IdLists.CopiedIds | src/structureLst.c:178-191 | LST_copy of a packed list holds exactly its ids and no free slot |
| IdLists.AddedAllIds | src/structureLst.c:229-233 | adding ids one at a time to a packed buffer appends, in order, those not yet present |
| IdLists.MergedIds | src/structureLst.c:226-238 | LST_addList returns l1's ids in order followed by the ids of l2 not already present |
| IdLists.MergedIn | src/structureLst.c:226-238 | an id is in LST_addList(l1, l2) exactly when it is in l1 or in l2 |
| IdLists.AddToPacked | src/structureLst.c:125-132 | on a packed list: id appended unless present, list still packed |
| IdLists.IdList.constructor | src/structureLst.c:162-168 | LST_create: an empty buffer |
| IdLists.IdList.AddAlloc | src/structureLst.c:35-44 | REALLOCSIZE free slots appended |
| IdLists.IdList.NbElements | src/structureLst.c:54-60 | the backward scan returns the position after the last id (UsedLength) |
| IdLists.IdList.GetIndiceFree | src/structureLst.c:71-80 | returns the first free slot of the buffer, grown when none was free |
| IdLists.IdList.GetIndice | src/structureLst.c:91-99 | -1 exactly when id is absent, otherwise a slot holding id (IndexOf) |
| IdLists.IdList.Check | src/structureLst.c:110-115 | 1 exactly when id is stored before the first free slot, 0 otherwise |
| IdLists.IdList.AddElement | src/structureLst.c:125-132 | the buffer becomes Added(old, id) (see AddedIds) |
| IdLists.IdList.RemoveElement | src/structureLst.c:142-153 | the buffer becomes Removed(old, id) (see RemovedIds) |
| IdLists.IdList.Copy | src/structureLst.c:178-191 | a fresh list holding the first LST_nbElements entries |
| IdLists.IdList.CopyWithShift | src/structureLst.c:201-214 | a fresh list mapping each used entry e to e - shifts[e] |
| IdLists.IdList.AddList | src/structureLst.c:226-238 | LST_addList: a fresh list holding Merged(l1, l2), l1's ids in order then the ids of l2 not already present (see MergedIds) |
| LinkedLists.InsertionPoint | src/structureLst.c:487-496 | the walk of the in-order insertions stops at the first node whose distance is not below d, or at the end |
| LinkedLists.InsertKeepsAscending | src/structureLst.c:485-509 | an in-order insertion keeps an ascending list ascending |
| LinkedLists.InsertIsPermutation | src/structureLst.c:485-509 | an in-order insertion adds exactly the new node: one more node, no node lost or duplicated |
| LinkedLists.InsertPlacesNode | src/structureLst.c:485-509 | the new node sits after exactly the nodes nearer than it, the others following in their old order |
| LinkedLists.InsertionPointUnique | src/structureLst.c:489-496 | the stop index is the only one meeting both halves of the loop condition |
| LinkedLists.RemoveFirstKeepsHead | src/structureLst.c:336-346 | as written (LinkedLists.RemoveFirstAsWritten), after PR_removeFirst on [a, b] the caller's head still points to a, a node now freed, so the caller sees [a, b] rather than [b] |
| LinkedLists.FirstAt | src/structureLst.c:552-572 | the first node holding position p, the length when none does |
| LinkedLists.FirstAtUnique | src/structureLst.c:552-572 | the first node at p is the only index before which no node is at p |
| LinkedLists.RemovedPointFacts | src/structureLst.c:549-577 | a list without p is unchanged; otherwise exactly one node at p is dropped, the others kept in order, and ascending lists stay ascending |
| LinkedLists.RemovedPointCount | src/structureLst.c:549-577 | unlinking the first node at p removes exactly that node |
| LinkedLists.RemovedPointAscending | src/structureLst.c:549-577 | unlinking one node keeps the others ascending |
| LinkedLists.PairList.constructor | src/structureLst.c:264-269 | PR_init: the empty list |
| LinkedLists.PairList.AddElement | src/structureLst.c:280-288 | PR_addElement: the pair becomes the new head and the rest of the list follows unchanged |
| LinkedLists.PairList.AddElementInOrder | src/structureLst.c:300-327 | PR_addElementInOrder: the pair is inserted at the walk's stop index, keeping the list ascending and adding exactly one node |
| LinkedLists.PairList.RemoveFirst | src/structureLst.c:336-346 | corrected PR_removeFirst: the head node is unlinked; an empty list stays empty (only an error message) |
| LinkedLists.PointList.constructor | src/structureLst.c:446-452 | LSTs_init: the empty list |
| LinkedLists.PointList.AddElement | src/structureLst.c:463-473 | LSTs_addElement: a new head node at the given position |
| LinkedLists.PointList.AddElementInOrder | src/structureLst.c:485-509 | LSTs_addElementInOrder: insertion at the walk's stop index, ascending kept, exactly one node added |
| LinkedLists.PointList.RemoveFirst | src/structureLst.c:518-523 | LSTs_removeFirst: the head node is unlinked |
| LinkedLists.PointList.RemoveElement | src/structureLst.c:549-577 | LSTs_removeElement: the list becomes RemovedPoint(old, p) |
| LinkedLists.MocStack.constructor | src/structureLst.c:380-386 | mSTK_init: the empty stack |
| LinkedLists.MocStack.AddElement | src/structureLst.c:396-404 | mSTK_addElement: the cage goes on top |
| LinkedLists.MocStack.RemoveFirst | src/structureLst.c:413-419 | mSTK_removeFirst: the top cage is taken off |
| LinkedLists.MocStack.Delete | src/structureLst.c:428-435 | mSTK_delete: cages are taken off until the stack is empty |
| Graphs.IndexOfVertex | src/structureGph.c:137-146 | -1 exactly when no slot holds id; otherwise the first slot holding it |
| Graphs.IndexOfSameIds | src/structureGph.c:137-146 | lookup depends only on the ids of the slots |
| Graphs.FreedSlot | src/structureGph.c:179-193 | freeing the slot of id changes no other lookup and keeps ids unique |
| Graphs.WithUnusedFacts | src/structureGph.c:116-126 | GPH_getIndiceFree grows by REALLOCSIZE unused slots only when none is unused; the slot it returns is unused and every earlier slot used |
| Graphs.AddVertexFacts | src/structureGph.c:158-169 | a known id keeps its slot and nothing changes; a new id takes the first unused slot, no other slot changes, and GPH_nbVertex grows by one |
| Graphs.AddVertexIdempotent | src/structureGph.c:158-169 | adding the same vertex twice is adding it once |
| Graphs.AddVertexLookup | src/structureGph.c:158-169 | adding a new id changes no other lookup |
| Graphs.AddVertexOk | src/structureGph.c:158-169 | GPH_addVertex keeps the graph consistent (well-formed slots, unique ids, symmetric edges) |
| Graphs.AddVertexGrows | src/structureGph.c:158-169 | GPH_addVertex loses no vertex and no edge, and id is a vertex afterwards |
| Graphs.AddVertexBound | src/structureGph.c:158-169 | GPH_addVertex adds no vertex but id and, when unused slots have empty lists, no edge |
| Graphs.EdgeNeedsBothVertices | src/structureGph.c:204-231 | GPH_addEdge and GPH_removeEdge change nothing unless both ids are vertices |
| Graphs.AddEdgeFrame | src/structureGph.c:204-212 | adding a missing edge appends each end to the other's list and changes no other list and no id |
| Graphs.AddEdgeOk | src/structureGph.c:204-212 | adding a missing edge between distinct vertices keeps the graph consistent |
| Graphs.AddEdgeLinks | src/structureGph.c:204-212 | afterwards the two ends are adjacent both ways |
| Graphs.AddEdgeGrows | src/structureGph.c:204-212 | GPH_addEdge loses no vertex and no edge; between two vertices it joins them both ways |
| Graphs.AddEdgeBound | src/structureGph.c:204-212 | GPH_addEdge keeps the vertex set and adds no edge but a-b and b-a |
| Graphs.RemoveEdgeFrame | src/structureGph.c:223-231 | removing an existing edge deletes each end from the other's list and changes nothing else |
| Graphs.RemoveEdgeOk | src/structureGph.c:223-231 | removing an existing edge keeps the graph consistent |
| Graphs.RemoveEdgeUnlinks | src/structureGph.c:223-231 | afterwards the two ends are no longer adjacent |
| Graphs.RemoveEdgeDrops | src/structureGph.c:223-231 | the list of either end no longer holds the other end |
| Graphs.AddEdgeTwiceDrifts | src/structureGph.c:37-41 | as written, adding an existing edge leaves both lists unchanged but increments both counters, so nbNeighbors no longer matches the list |
| Graphs.RemoveAbsentEdgeDrifts | src/structureGph.c:51-55 | as written, removing an absent edge leaves both lists unchanged but decrements both counters |
| Graphs.RemoveAbsentVertex | src/structureGph.c:179-193 | removing an id that is not a vertex changes nothing |
| Graphs.RemoveVertexDefined | src/structureGph.c:179-193 | on a consistent graph the removal loop stays inside the list and finds every neighbour it reads |
| Graphs.RemoveVertexCount | src/structureGph.c:179-193 | GPH_removeVertex lowers GPH_nbVertex by one |
| Graphs.RemoveVertexOk | src/structureGph.c:179-193 | on a consistent graph: the id is no longer a vertex, its slot is reset, it leaves each neighbour's list, nothing else changes, and the graph stays consistent |
| Graphs.RemovalLoopNext | src/structureGph.c:184-189 | one turn of the removal loop extends the loop state by one neighbour |
| Graphs.Graph.constructor | src/structureGph.c:353-361 | GPH_create: no slots |
| Graphs.Graph.AddAlloc | src/structureGph.c:95-105 | n unused slots appended |
| Graphs.Graph.NbVertex | src/structureGph.c:77-85 | the number of used slots |
| Graphs.Graph.GetIndice | src/structureGph.c:137-146 | the first slot holding id, -1 when none (IndexOfVertex) |
| Graphs.Graph.GetIndiceFree | src/structureGph.c:116-126 | the first unused slot, after growing when none is unused |
| Graphs.Graph.CheckVertex | src/structureGph.c:320-329 | 1 exactly when some slot holds id |
| Graphs.Graph.CheckBond | src/structureGph.c:341-344 | 1 exactly when id2 is in the list of vertex id1, 0 otherwise; requires id1 to be a vertex, as the C reads its slot unchecked |
| Graphs.Graph.AddVertex | src/structureGph.c:158-169 | the slots become AddedVertex(old, id) and the returned index is id's slot (see AddVertexFacts) |
| Graphs.Graph.AddNeighborAt | src/structureGph.c:37-41 | GPH_addNeighbor on slot k: the id added to its list and the counter incremented |
| Graphs.Graph.AddEdge | src/structureGph.c:204-212 | the slots become AddedEdge(old, id1, id2) (see AddEdgeGrows, AddEdgeBound) |
| Graphs.Graph.RemoveEdge | src/structureGph.c:223-231 | the slots become RemovedEdge(old, id1, id2) (see RemoveEdgeFrame) |
| Graphs.Graph.RemoveVertex | src/structureGph.c:179-193 | the slots become the result of the removal (see RemoveVertexOk) |
| Adjacency.Neighbourhoods | src/structureShl.c:47-50 | one entry per atom: the ids its buffer lists before the first free slot |
| Adjacency.JoinedRow | src/structureShl.c:253-260 | adding the edge a-b puts b in the buffer of a and a in the buffer of b without duplicates, and changes no other buffer |
| Adjacency.JoinedConsistent | src/structureShl.c:253-260 | adding an edge between two distinct atoms keeps the buffers packed and symmetric and adds exactly the two directions of the edge |
| Adjacency.SeparatedRow | src/structureShl.c:272-279 | removing the edge a-b drops b from the buffer of a and a from the buffer of b, and changes no other buffer |
| Adjacency.SeparatedConsistent | src/structureShl.c:272-279 | removing an edge keeps the buffers consistent and removes exactly its two directions |
| Adjacency.IsolatedConsistent | src/structureShl.c:312-332 | removing an atom empties its buffer, drops exactly the edges at it and keeps the buffers consistent |
| Adjacency.IsolatedKeeps | src/structureShl.c:312-332 | a buffer that does not list the removed atom is unchanged |
| Degrees.LengthIsCount | src/structureShl.c:159-166 | a duplicate-free list of ids below hi is as long as the number of ids it holds |
| Degrees.CountInBound | src/structureShl.c:159-166 | at most hi ids lie below hi |
| Degrees.CountInGrows | src/structureShl.c:159-166 | a larger set counts at least as many ids, and more when it holds one more in range |
| Degrees.SquareIsTwicePairs | src/structureShl.c:159-166 | the first n rows and columns of symmetric lists hold twice the edges among the first n atoms |
| Degrees.DegreeSumIsRows | src/structureShl.c:159-166 | rows holding only ids below hi count as many ids as their lengths add up to |
| Degrees.Handshake | src/structureMol.c:143-150 | MOL_nbEdges and SHL_nbEdges: for symmetric simple lists the neighbour counts add up to twice the number of edges, so half the sum is the edge count |
| GraphCopy.AddVertexInRange | src/structureGph.c:389-407 | the index GPH_addVertex returns in the copy loop is a slot of the new graph |
| GraphCopy.CopyStepFills | src/structureGph.c:389-407 | each new id fills the first unused slot of a copy made of used slots followed by unused ones |
| GraphCopy.CompactedIds | src/structureGph.c:389-407 | every compacted slot is used and holds an id from the first n slots of the original |
| GraphCopy.CompactedLookup | src/structureGph.c:389-407 | looking an id up in the compacted slots finds the copy of the slot that holds it in the original |
| GraphCopy.CopyLoopCompacts | src/structureGph.c:396-404 | after n turns of the GPH_copy loop the copy is the compacted prefix followed by the slots still unused |
| GraphCopy.CopyIsCompacted | src/structureGph.c:389-407 | GPH_copy of a graph with unique ids is the used slots in order, same ids, lists and counters, with as many vertices as the original |
| GraphCopy.CopySameVertices | src/structureGph.c:389-407 | an id is a vertex of the copy exactly when it is one of the original, with the same neighbours and counter |
| GraphCopy.CompactedDistinct | src/structureGph.c:389-407 | no two slots of the copy hold the same id |
| GraphCopy.CopySlot | src/structureGph.c:389-407 | slot q of the copy is the copy of the original slot with the same id, and lookup finds q |
| GraphCopy.CopyOk | src/structureGph.c:389-407 | the copy of a consistent graph is consistent |
| GraphCopy.Copy | src/structureGph.c:389-407 | a fresh graph whose slots are GraphCopy of the original (see CopyIsCompacted, CopyOk) |
| GraphCycles.ListedVertices | src/structureGph.c:257-262 | on a walkable graph every neighbour the search tries is a vertex |
| GraphCycles.AnyFromSome | src/structureGph.c:259-263 | the loop of GPH_cycle succeeds exactly when one of the remaining neighbours other than the parent does |
| GraphCycles.CycleFromSound | src/structureGph.c:245-266 | whenever the search succeeds from a path at a candidate, the path extends through the candidate to a closed walk |
| GraphCycles.CycleFromComplete | src/structureGph.c:245-266 | the search succeeds for every closed walk that extends the path through the candidate |
| GraphCycles.CycleIffWalk | src/structureGph.c:245-266 | GPH_cycle(g, l, id, -1) on an empty path answers 1 exactly when id lies on a closed walk of at most six distinct vertices that never steps straight back |
| GraphCycles.FoundWalk | src/structureGph.c:245-266 | a success from the empty path yields a cycle through id |
| GraphCycles.WalkFound | src/structureGph.c:245-266 | every cycle through id makes the search from the empty path succeed |
| GraphCycles.Cycle | src/structureGph.c:245-266 | GPH_cycle: 1 exactly when the bounded search succeeds, with the path list holding on return the ids it held on entry |
| GraphCycles.Explore | src/structureGph.c:259-263 | the loop of GPH_cycle: 1 exactly when one of the neighbours other than the parent succeeds, the path list restored |
| GraphCycles.GraphOkListed | src/structureGph.c:245-266 | a consistent graph is walkable and the search tries exactly a vertex's neighbour ids |
| GraphCycles.PrunedWalk | src/structureGph.c:289-299 | a cycle found after pruning is a cycle of the graph before pruning |
| GraphCycles.PruneRemoval | src/structureGph.c:297 | removing a vertex with at most one neighbour changes only that neighbour's slot, whose counter drops by one |
| GraphCycles.PruneQueued | src/structureGph.c:289-299 | every vertex left in the queue after one round is still queued |
| GraphCycles.PruneCovered | src/structureGph.c:289-299 | after one round every vertex with exactly one neighbour is queued |
| GraphCycles.PruneStep | src/structureGph.c:289-299 | one round of the pruning loop keeps the pruning invariant and removes one vertex |
| GraphCycles.CycleLong | src/structureGph.c:245-266 | a consistent graph has no loop, so its short cycles have at least three vertices |
| GraphCycles.CycleVertexBusy | src/structureGph.c:289-299 | on a consistent graph every vertex of a short cycle has at least two neighbours |
| GraphCycles.RemovalKeepsEdge | src/structureGph.c:179-193 | GPH_removeVertex of x keeps every edge between two other vertices |
| GraphCycles.PruneKeepsWalk | src/structureGph.c:297 | removing a vertex with at most one neighbour keeps every short cycle |
| GraphCycles.PruneKeepsWalks | src/structureGph.c:289-299 | one round of pruning keeps every short cycle of the graph |
| GraphCycles.PendantIdsFacts | src/structureGph.c:284-287 | the starting queue holds, once each, exactly the vertices with one neighbour |
| GraphCycles.InitialQueue | src/structureGph.c:284-287 | the first loop sets up the pruning invariant |
| GraphCycles.OnCycleFacts | src/structureGph.c:301-305 | the collected ids are, once each, the vertices the bounded search reports |
| GraphCycles.PrunedSearch | src/structureGph.c:277-309 | what the search reports on the pruned graph is what holds of the original graph |
| GraphCycles.PendantQueue | src/structureGph.c:284-287 | the first loop: a fresh list of the ids of the slots whose counter is 1 |
| GraphCycles.PruneRound | src/structureGph.c:290-298 | one round of pruning keeps the invariant and every short cycle, and lowers the vertex count |
| GraphCycles.Prune | src/structureGph.c:289-299 | the pruning loop keeps the graph consistent and every short cycle, empties the queue and leaves no vertex with exactly one neighbour |
| GraphCycles.PruneDone | src/structureGph.c:289-299 | once the queue is empty no vertex has exactly one neighbour |
| GraphCycles.CollectCycles | src/structureGph.c:301-305 | the last loop: a fresh list of exactly the vertices the bounded search reports |
| GraphCycles.CollectAt | src/structureGph.c:302-304 | one turn of the last loop extends the output by slot i's id exactly when the search from it succeeds |
| GraphCycles.SeekCycle | src/structureGph.c:277-309 | GPH_seekCycle, corrected: the output lists, once each, exactly the vertices of the original graph on a cycle of three to six vertices; the pruned graph stays consistent, keeps every such cycle and has no vertex with one neighbour |
| GraphCycles.SeekCycleReadsMissingSlot | src/structureGph.c:284-302 | on a triangle no vertex has one neighbour, so the first loop leaves the path list without a buffer, and the last loop's first call reads elts(l,0) of it although vertex 0 lies on a short cycle |
| GraphCycles.TriangleOk | src/structureGph.c:277-309 | the triangle is a consistent graph whose every vertex has two neighbours |
| GraphCycles.TriangleCycle | src/structureGph.c:245-266 | the triangle is a short cycle through vertex 0 |
| Shells.FirstUnusedAtom | src/structureShl.c:177-186 | the first unused slot, the length when all are used |
| Shells.WithFreeAtom | src/structureShl.c:177-186 | the slots after the search always contain the first unused slot |
| Shells.AtomRemoved | src/structureShl.c:312-332 | SHL_removeAtom keeps the number of slots |
| Shells.AddAtomFacts | src/structureShl.c:292-301 | SHL_addAtom takes the first unused slot, growing only when there is none; the new atom is used, no other slot changes and SHL_nbAtom rises by one |
| Shells.AddEdgeFacts | src/structureShl.c:253-260 | SHL_addEdge of two distinct slots keeps consistent lists consistent, adds exactly the two directions and never makes an atom its own neighbour |
| Shells.EdgeAddedKeeps | src/structureShl.c:253-260 | SHL_addEdge leaves every other atom as it was |
| Shells.RemoveEdgeFacts | src/structureShl.c:272-279 | SHL_removeEdge keeps consistent lists consistent and removes exactly the two directions |
| Shells.DetachedFrom | src/structureShl.c:322-324 | the neighbour loop of SHL_removeAtom makes every neighbour listed from slot i on lose id, and changes nothing else |
| Shells.DetachedIsolates | src/structureShl.c:322-330 | the lists after the neighbour loop and the reset of the slot are the atom's removal from the adjacency |
| Shells.RemoveAtomFacts | src/structureShl.c:312-332 | on consistent lists: the lists stay consistent and lose exactly the edges at id, the slot is reset, the cycle list loses id, the other atoms keep their fields and the graph loses the vertex |
| Shells.RemovedIdsFacts | src/structureLst.c:142-153 | LST_removeElement of a present id leaves one occurrence fewer, so a list that held it once no longer holds it |
| Shells.AbsorbedFacts | src/structureShl.c:425-429 | the loop of SHL_mergeAtom joins the eater to every slot the eaten atom lists other than itself, and only the lists change |
| Shells.AbsorbedKeeps | src/structureShl.c:425-429 | the loop leaves every atom but the eater and the listed ones as it was |
| Shells.AbsorbingFacts | src/structureShl.c:421-437 | SHL_mergeAtom before its final removal: the joins, the inherited parent, the cycle membership and the larger flag |
| Shells.BufferHolds | src/structureShl.c:416-440 | on consistent lists the slots an atom's buffer names are exactly its neighbours |
| Shells.MergeAtomFacts | src/structureShl.c:416-440 | SHL_mergeAtom (Shells.AtomsMerged) on consistent lists: the eater is joined to every former neighbour of the eaten atom, the eaten atom leaves every list and its slot is reset, the eater takes its parent and the larger flag, and the lists stay consistent |
| Shells.CycleKeeps | src/structureShl.c:432-438 | adding the eater to the cycle list and then removing the eaten atom keeps the eater there |
| Shells.EdgeCountIsEdges | src/structureShl.c:159-166 | SHL_nbEdges is the number of edges: half the summed list lengths is the number of unordered adjacent pairs |
| Shells.CopyFacts | src/structureShl.c:492-512 | SHL_copy is a deep copy: same flags, coordinates and parents, lists with the same ids, so consistent lists stay consistent with the same edges |
| Shells.PrunedFrom | src/structureShl.c:530-534 | the first loop of SHL_copyCageAtoms keeps the number of slots |
| Shells.RemoveAnyVertexOk | src/structureGph.c:179-193 | GPH_removeVertex is defined on a consistent graph, whether the id is present or not, and keeps it consistent |
| Shells.PruneStep | src/structureShl.c:530-534 | one turn of the pruning loop keeps its invariant |
| Shells.PrunedFacts | src/structureShl.c:530-534 | on a consistent shell: the pruning is defined, every envelope atom is reset and leaves every list, the other atoms keep their fields, and the lists and graph stay consistent |
| Shells.TidyNeighbours | src/structureShl.c:522-565 | on consistent tidy lists every neighbour of a used atom is used |
| Shells.RankGrows | src/structureShl.c:542-550 | the rank of used slots strictly grows, so distinct used atoms land in distinct slots of the copy |
| Shells.CompactedAt | src/structureShl.c:554-562 | the copy of the first n slots holds one atom per used slot, each at its rank |
| Shells.ShiftedIsRank | src/structureShl.c:542-559 | with the offset table the second loop fills, LST_copyWithShift renumbers every neighbour of a used atom to its rank |
| Shells.CompactionKeepsEdges | src/structureShl.c:522-565 | SHL_copyCageAtoms keeps the structure: one atom per used slot, each at its rank with its flag, coordinates and parent, and y is a neighbour of x in the copy exactly when their originals are neighbours |
| Shells.OuterMerged | src/structureShl.c:344-362 | LST_addList of two lists of border atoms is one, and holds both |
| Shells.Shell.constructor | src/structureShl.c:472-482 | SHL_create: no slot, an empty cycle list, an empty graph |
| Shells.Shell.Copy | src/structureShl.c:492-512 | SHL_copy: every list copied by LST_copy and a fresh graph equal to GPH_copy of the original (see CopyFacts) |
| Shells.Shell.AddNeighbor | src/structureShl.c:88-91 | SHL_addNeighbor: LST_addElement on the list of atom i, nothing else changed |
| Shells.Shell.RemoveNeighbor | src/structureShl.c:101-104 | SHL_removeNeighbor: LST_removeElement on the list of atom i, nothing else changed |
| Shells.Shell.AddAllocAtom | src/structureShl.c:115-131 | SHL_addAllocAtom: REALLOCSIZE unused atoms appended |
| Shells.Shell.NbAtom | src/structureShl.c:141-149 | SHL_nbAtom: the number of used slots |
| Shells.Shell.NbEdges | src/structureShl.c:159-166 | SHL_nbEdges: half the summed list lengths (see EdgeCountIsEdges) |
| Shells.Shell.GetIndiceFreeAtom | src/structureShl.c:177-186 | SHL_getIndiceFreeAtom: an unused slot, the first one, after growing only when there is none |
| Shells.Shell.AddVertex | src/structureShl.c:197-200 | SHL_addVertex: GPH_addVertex on the graph |
| Shells.Shell.RemoveVertex | src/structureShl.c:210-213 | SHL_removeVertex: GPH_removeVertex on the graph |
| Shells.Shell.AddBond | src/structureShl.c:224-227 | SHL_addBond: GPH_addEdge on the graph |
| Shells.Shell.RemoveBond | src/structureShl.c:238-241 | SHL_removeBond: GPH_removeEdge on the graph |
| Shells.Shell.AddEdge | src/structureShl.c:253-260 | SHL_addEdge: both directions between two distinct slots, nothing else (see AddEdgeFacts) |
| Shells.Shell.RemoveEdge | src/structureShl.c:272-279 | SHL_removeEdge: both directions between two slots, nothing else (see RemoveEdgeFacts) |
| Shells.Shell.AddAtom | src/structureShl.c:292-301 | SHL_addAtom: an envelope atom in the first unused slot, whose index is returned (see AddAtomFacts) |
| Shells.Shell.AddCycle | src/structureShl.c:400-403 | SHL_addCycle: LST_addElement on the cycle list |
| Shells.Shell.RemoveAtom | src/structureShl.c:312-332 | SHL_removeAtom: the state becomes AtomRemoved of the old one (see RemoveAtomFacts) |
| Shells.Shell.Detach | src/structureShl.c:322-324 | the neighbour loop of SHL_removeAtom (see DetachedFrom) |
| Shells.Shell.Absorb | src/structureShl.c:425-429 | the neighbour loop of SHL_mergeAtom (see AbsorbedFacts) |
| Shells.Shell.Inherit | src/structureShl.c:430-436 | the eater takes the eaten atom's parent, its cycle membership and the larger flag |
| Shells.Shell.MergeAtom | src/structureShl.c:416-440 | SHL_mergeAtom: the state becomes AtomsMerged of the old one (see MergeAtomFacts) |
| Shells.Shell.SeekBorder | src/structureShl.c:344-362 | SHL_seekBorder: a fresh list of border atoms only; a border start gives just itself; otherwise the start is marked visited, only inner atoms are added to the visited list, and, when the atoms visited before the call were inner, every border atom at the end of a walk from the start through inner atoms not visited before is reported (ReachesAll) |
| Shells.Shell.Scan | src/structureShl.c:344-362 | the neighbour loop of SHL_seekBorder: only inner atoms join the visited list, every border neighbour is reported, and every atom it visits has all its neighbours visited or reported, which is what makes SeekBorder's walks end on reported atoms |
| Shells.Shell.Explore | src/structureShl.c:344-362 | one neighbour not visited yet: a border neighbour is reported, an inner one is visited, and every border atom reachable from it through inner atoms not visited before is added to the reported list, which keeps what it held |
| Shells.Shell.Prune | src/structureShl.c:530-534 | the first loop of SHL_copyCageAtoms (see PrunedFacts) |
| Shells.Shell.EmptyPositions | src/structureShl.c:542-550 | the offset table: for each used slot, the number of unused slots before it |
| Shells.Shell.CompactAtoms | src/structureShl.c:554-562 | the used atoms in order, as many as SHL_nbAtom, their lists renumbered (see CompactionKeepsEdges) |
| Shells.Shell.CopyCageAtoms | src/structureShl.c:522-565 | SHL_copyCageAtoms: this shell pruned, and a fresh copy with its used atoms compacted, its cycle list copied and a fresh copy of its graph |
| Molecules.AbsTruncBand | src/structureMol.c:86-117 | the truncation inside abs does not move the band of the 120-degree test: abs((int)(120 - alpha)) < 4 exactly when 116 < alpha < 124 |
| Molecules.StericNumber | src/structureMol.c:86-117 | MOL_nbLonePairs (Molecules.LonePairs) makes ligands plus lone pairs 2 for a hydrogen, 4 for a halogen or a saturated atom, 3 near 120 degrees or in a ring beside a trigonal atom, 4 near the tetrahedral angle otherwise, and gives no lone pair above 124 degrees |
| Molecules.LigandCountOfPacked | src/structureMol.c:64-73 | on a packed list of at most four ids MOL_nbLigands counts exactly the neighbours |
| Molecules.HoledCount | src/structureMol.c:49-55 | MOL_removeNeighbor (Molecules.Holed) keeps the buffer's length; a neighbour in one of the first four slots lowers the ligand count by one; an absent id changes nothing |
| Molecules.HoleHidesNeighbour | src/structureMol.c:26-55 | the hole MOL_removeNeighbor leaves hides later neighbours from LST_getIndice: in [1, 2] with 1 removed, adding the edge to 2 again stores 2 twice and counts two ligands |
| Molecules.LigandSumIsDegreeSum | src/structureMol.c:143-150 | when every ligand count is up to date, their sum is the degree sum of the lists |
| Molecules.EdgeCountIsBonds | src/structureMol.c:143-150 | MOL_nbEdges counts the bonds: on consistent lists with up-to-date ligand counts, half the sum is the number of unordered bonded pairs |
| Molecules.AddEdgeConsistent | src/structureMol.c:162-167 | MOL_addEdge of two distinct atoms keeps the lists consistent, joins the two atoms both ways and changes nothing else |
| Molecules.Molecule.constructor | src/structureMol.c:290-305 | MOL_create: size atoms as MOL_createAtom leaves them, no cycle list, an empty graph |
| Molecules.Molecule.AddNeighbor | src/structureMol.c:26-38 | MOL_addNeighbor: an absent id goes into the first free slot, the list growing when none is free |
| Molecules.Molecule.RemoveNeighbor | src/structureMol.c:49-55 | MOL_removeNeighbor: the slot of id, when found, is freed in place, leaving a hole |
| Molecules.Molecule.NbLigands | src/structureMol.c:64-73 | MOL_nbLigands: the ligand field becomes the number of used slots among the first four |
| Molecules.Molecule.NbLonePairs | src/structureMol.c:86-117 | MOL_nbLonePairs: the lone-pair field becomes LonePairs of the atom (see StericNumber) |
| Molecules.Molecule.NbEdges | src/structureMol.c:143-150 | MOL_nbEdges: half the sum of the ligand counts (see EdgeCountIsBonds) |
| Molecules.Molecule.AddEdge | src/structureMol.c:162-167 | MOL_addEdge: the atoms become Molecules.EdgeAdded of the old ones, both directions between two distinct atoms (see AddEdgeConsistent) |
| Molecules.Molecule.RemoveEdge | src/structureMol.c:179-183 | MOL_removeEdge: the atoms become Molecules.EdgeRemoved of the old ones, both directions freed in place by Molecules.Holed, holes left |
| Molecules.Molecule.CreateBond | src/structureMol.c:215-246 | MOL_createBond: for every O, N or F atom its group (itself when it has a lone pair, and its hydrogen neighbours) becomes a clique of the bond graph; no vertex is lost or added except group members, and, when unused slots have empty lists, no edge is added except between two members of a group |
| Molecules.Molecule.BondGroup | src/structureMol.c:222-244 | one polar atom: its group becomes a clique and the graph gains only group members and edges inside the group |
| Molecules.Molecule.Collect | src/structureMol.c:227-237 | the group's list holds, once each, exactly the atom when it has a lone pair and its hydrogen neighbours, each also a vertex |
| Molecules.Molecule.CollectStep | src/structureMol.c:233-237 | one turn of the neighbour loop: a hydrogen neighbour joins the list and the graph |
| Molecules.Molecule.Join | src/structureMol.c:229-236 | one member added to the list and, by GPH_addVertex, to the graph |
| Molecules.Molecule.LinkFrom | src/structureMol.c:240-241 | the inner pair loop links position j to every later position of the list |
| Molecules.PairInGroup | src/structureMol.c:239-241 | two positions j < k of the duplicate-free list hold two distinct group members |
| Molecules.LinkOne | src/structureMol.c:241 | GPH_addEdge of positions j and k extends the links made so far |
| Molecules.PairsStep | src/structureMol.c:239-241 | one turn of the outer pair loop links position j to all later positions |
| Molecules.CliqueOfPairs | src/structureMol.c:239-241 | when every pair of positions is linked, the group is a clique |
| Molecules.CliqueGrows | src/structureMol.c:221-245 | later groups keep the cliques made before |
| Molecules.JoinBound | src/structureMol.c:230-236 | GPH_addVertex of a group member stays within the group's additions |
| Molecules.LinkBound | src/structureMol.c:241 | GPH_addEdge of two distinct members stays within the group's additions |
| Molecules.BondsStep | src/structureMol.c:221-245 | the additions of the first i groups and of group i make those of the first i + 1; an atom that is not O, N or F adds nothing |
| Molecules.BondsPresent | src/structureMol.c:221-245 | with every group a clique, every member is a vertex and every pair of members an edge |
| NodeHeaps.CreateNode | src/structure.c:82-89 | createNode: the node of the point with the given g and h, and f = g + h |
| NodeHeaps.RootIsMin | src/structureNH.c:120-133 | the root of a heap in order holds a least f |
| NodeHeaps.SwapContents | src/structureNH.c:53-59 | exchanging two held positions keeps the multiset of nodes |
| NodeHeaps.ExtractContents | src/structureNH.c:126-130 | moving the last node to the root and shrinking takes exactly the root out of the multiset |
| NodeHeaps.ExtractOrder | src/structureNH.c:126-130 | after that move the heap is out of order only below the root |
| NodeHeaps.SiftDownStep | src/structureNH.c:71-87 | one level of sift-down, to the smaller child, leaves the heap out of order only below that child |
| NodeHeaps.SiftUpStep | src/structureNH.c:146-153 | one exchange with a larger parent leaves the heap out of order only above the parent |
| NodeHeaps.RaisedOnceBreaksOrder | src/structureNH.c:150-152 | as written (NodeHeaps.RaisedOnce, the one-level sift), on the heap with f values 1, 5, 6, 7, lowering position 4 to f 0 moves it one level only, under a root of f 1, so the result is not a heap |
| NodeHeaps.NodeHeap.constructor | src/structureNH.c:24-29 | NH_initAlloc: an empty heap with one slot per voxel of the grid plus position 0 |
| NodeHeaps.NodeHeap.Swap | src/structureNH.c:53-59 | swap: the two positions exchanged and both new positions recorded in the voxel map |
| NodeHeaps.NodeHeap.Stack | src/structureNH.c:71-87 | stack: heap order restored at i, the same multiset of nodes, the voxel map still right |
| NodeHeaps.NodeHeap.SinkStep | src/structureNH.c:80-85 | one exchange of stack with the smaller child: order holds below the child, the same multiset of nodes, both moved nodes recorded at their new positions |
| NodeHeaps.NodeHeap.Insert | src/structureNH.c:98-108 | NH_insert: one more node, heap order kept, the multiset gains exactly p and the voxel map records p's position |
| NodeHeaps.NodeHeap.Climb | src/structureNH.c:101-105 | the loop of NH_insert: the gap climbs while its parent has a larger f than p |
| NodeHeaps.NodeHeap.MoveDown | src/structureNH.c:102-104 | the parent moves down into the gap and the voxel map records its new position |
| NodeHeaps.NodeHeap.FillGap | src/structureNH.c:106-107 | p fills the gap, where heap order holds |
| NodeHeaps.NodeHeap.ExtractMin | src/structureNH.c:120-133 | NH_extractMin: None on an empty heap; otherwise the old root, whose f is least, leaves the multiset, order and voxel map are kept, and the root's map cell reads -1, or 1 when it was the only node |
| NodeHeaps.NodeHeap.TakeRoot | src/structureNH.c:126-130 | the root leaves the heap, the last node takes its place, order holds except below the root |
| NodeHeaps.NodeHeap.IncreasePriority | src/structureNH.c:146-153 | NH_increase_priority as written: the node gets g = distG and f = g + h, then climbs at most one level |
| NodeHeaps.NodeHeap.DecreaseKey | src/structureNH.c:146-153 | the corrected decrease-key: the node is rekeyed and keeps climbing, so heap order and the voxel map hold and the multiset changes only in that node |
| NodeHeaps.NodeHeap.RaiseStep | src/structureNH.c:150-151 | one exchange of the decrease-key loop |
| NodeHeaps.LoweredOrder | src/structureNH.c:148-149 | lowering one node's f leaves the heap out of order only above it |
| NodeHeaps.AboveDone | src/structureNH.c:150 | once the node is the root or under a parent with no larger f, the heap is in order |
| NodeHeaps.GapStep | src/structureNH.c:101-105 | moving a parent larger than p down into the gap moves the gap up one level, keeping order around it |
| PathFinding.PointTests | src/pathFinding.c:11-17 | isPointGoal (PathFinding.IsPointGoal) is equality of points and isPointValid (PathFinding.IsPointValid) membership of the grid; isPointTraversable (PathFinding.IsPointTraversable), a zero cell, is what makes a walk free in the search contracts |
| PathFinding.Cost | src/pathFinding.c:39-47 | cost is at least LENGTH_GRID |
| PathFinding.CostByAxes | src/pathFinding.c:39-47 | between neighbours the step costs LENGTH_GRID, √2·LENGTH_GRID or √3·LENGTH_GRID as one, two or three axes change, and it is symmetric |
| PathFinding.ManhattanDistance | src/pathFinding.c:49-53 | manhattanDistance is never negative |
| PathFinding.SpreadBounds | src/pathFinding.c:60-68 | the voxelDist formula lies between the largest per-axis distance and their sum, and is zero when all are |
| PathFinding.VoxelDistBounds | src/pathFinding.c:60-68 | voxelDist is symmetric, zero from a voxel to itself, at least the largest per-axis distance and at most manhattanDistance |
| PathFinding.PathCostNonnegative | src/pathFinding.c:121 | a walk never costs less than zero |
| PathFinding.ReachedStart | src/pathFinding.c:90-92 | the start is reached at cost zero |
| PathFinding.ReachedStep | src/pathFinding.c:117-123 | one step to a free neighbour extends a walk by the cost of that step |
| PathFinding.ExtendPath | src/pathFinding.c:117-123 | a free walk plus a step to a free neighbour of its end is a free walk, longer by the step's cost |
| PathFinding.ReachedFacts | src/pathFinding.c:75-139 | whatever the search reaches is the start or a free voxel, at a cost of at least zero |
| PathFinding.CodeInjective | src/pathFinding.c:76 | different voxels of the grid have different numbers |
| PathFinding.GridCard | src/pathFinding.c:76 | no set of grid voxels has more than GRID_SIZE³ members, so the heap never overflows |
| PathFinding.Dijkstra | src/pathFinding.c:75-139 | dijkstra: -1, or the cost of a free 26-connected walk from start to goal that no other such walk undercuts; -1 only when no such walk exists; 0 when start is goal; -1 when the goal is outside the grid or occupied |
| PathFinding.AStar | src/pathFinding.c:141-205 | aStarPathfinding: with f = g + voxelDist(., goal), the same least cost of a free walk, and -1 exactly when there is none |
| PathFinding.Search | src/pathFinding.c:96-138 | the search loop shared by both, for any consistent heuristic: the goal's g at its first extraction is the least cost of a free walk to it; an empty heap means no free walk reaches the goal |
| PathFinding.Answered | src/pathFinding.c:101-108 | the goal's g at its extraction answers the search: a reached cost no free walk undercuts, 0 when the start is the goal, never -1 |
| PathFinding.Unanswered | src/pathFinding.c:136-138 | when the heap empties before the goal is extracted, no free walk reaches the goal, and the start is not the goal, so -1 is the right answer |
| PathFinding.Setup | src/pathFinding.c:76-92 | a fresh heap holding only the start at distance 0, and a voxel map of unseen cells at FLT_MAX |
| PathFinding.TakeMin | src/pathFinding.c:97 | the node of least f leaves the heap and the frontier invariant is kept |
| PathFinding.Expand | src/pathFinding.c:111-133 | the three neighbour loops relax every voxel next to the extracted one, keeping the frontier invariant |
| PathFinding.Relax | src/pathFinding.c:117-130 | one neighbour: in the grid, not extracted and free, and improved through the extracted voxel, it gets the new distance and is queued or rekeyed; the frontier invariant holds and recorded distances only drop |
| PathFinding.Queue | src/pathFinding.c:123-126 | first improvement of an unseen voxel: its distance is recorded and its node inserted |
| PathFinding.SetDist | src/pathFinding.c:123 | the voxel's recorded distance becomes the new one and nothing else changes |
| PathFinding.Enlist | src/pathFinding.c:125-126 | NH_insert of the node of a voxel never queued: the heap gains exactly that node and the voxel is no longer unseen |
| PathFinding.Unmarked | src/pathFinding.c:118-124 | a voxel of the grid was never queued exactly when its map cell reads unseen, and no cell reads -2 |
| PathFinding.Blank | src/pathFinding.c:78-88 | the voxel map of a new search: every cell at FLT_MAX and never queued |
| PathFinding.Improve | src/pathFinding.c:122-129 | a later improvement: the distance drops to g and the voxel's node is replaced by the same node at g, the frontier invariant kept |
| PathFinding.ExpandPlane | src/pathFinding.c:112-132 | the dy and dz loops for one dx: every neighbour at that dx is recorded no farther than through the extracted voxel, and no distance grows |
| PathFinding.ExpandRow | src/pathFinding.c:113-131 | the dz loop for one dx and dy, with the same guarantee |
| PathFinding.RelaxAt | src/pathFinding.c:114-130 | one offset: the extracted voxel itself is skipped, any other neighbour is relaxed |
| PathFinding.Passed | src/pathFinding.c:118-120 | a neighbour skipped as outside the grid, extracted or occupied already has a distance no larger than through the extracted voxel, when it is free |
| PathFinding.Visit | src/pathFinding.c:121-130 | a free neighbour not marked extracted: when the distance through the extracted voxel is lower it is recorded and the node queued or rekeyed; a voxel already extracted never improves, so the rekey always finds the voxel's own node |
| PathFinding.QueueNeighbor | src/pathFinding.c:124-126 | the first improvement of a voxel: it leaves unseen and its node enters the heap |
| PathFinding.ImproveNeighbor | src/pathFinding.c:127-129 | a later improvement of a queued voxel: its node, found at the position the map records, is lowered to the new distance |
| PathFinding.ClosedBelow | src/pathFinding.c:118-122 | a voxel extracted earlier is never farther than through the voxel extracted now, so `tentativeGScore < dist` fails for it |
| PathFinding.GoalBound | src/pathFinding.c:96-108 | while the goal is not extracted, every free walk to it is matched by a heap node whose f is at most the walk's cost plus the heuristic at its end |
| PathFinding.RouteHeld | src/pathFinding.c:96-138 | while the goal is not extracted and some free walk reaches it, the heap is not empty |
| PathFinding.VoxelDistConsistent | src/pathFinding.c:60-68 | voxelDist to the goal never drops by more than the cost of one step, so A* extracts each voxel at its least cost |
| PathFinding.ZeroConsistent | src/pathFinding.c:91 | the zero heuristic of dijkstra is consistent |
| PathFinding.Rekey | src/pathFinding.c:128 | NH_decrease_priority on the voxel's node, keeping the frontier invariant and the recorded distances |
| Points.AddSubInverse | src/structurePT.c:39-66 | PT_sub (Points.Sub) undoes PT_add (Points.Add) and PT_add undoes PT_sub, both componentwise |
| Points.DivUndoesMul | src/structurePT.c:77-108 | PT_div (Points.Div) by a non-zero scalar undoes PT_mul (Points.Mul); PT_div by 0 gives PT_init(0) (Points.Init), the origin |
| Points.MergeFacts | src/structurePT.c:123-131 | PT_merge (Points.Merge) is symmetric, is half of PT_add, lies halfway between its arguments and gives a point back when merged with itself |
| Points.EqualMeansSame | src/structurePT.c:110-146 | PT_equal (Points.Equal) is 1 and PT_compare (Points.Compare) true exactly when the two points are equal |
| Points.TruncToInt | src/structurePT.c:157-187 | the C cast to int: the integer nearest the real toward zero, never farther than 1 from it |
| Points.ToGridInGrid | src/structurePT.c:157-187 | createPoint3D (Points.ToGrid, one axis at a time by Points.GridIndex) always gives an index triple inside the grid |
| Points.GridIndexExact | src/structurePT.c:157-187 | a coordinate whose truncated index is in range is not moved by the clamp |
| Points.GridRoundTrip | src/structurePT.c:157-204 | createPoint3D of createPoint_t (Points.FromGrid) of a grid index gives the index back, in exact arithmetic |
| Voxelization.InsideFacts | src/voxelization.c:27-35 | isPointInsideSphere (Voxelization.IsPointInsideSphere) is inclusive, symmetric, holds at exactly the radius along an axis and fails one unit beyond it |
| Voxelization.AxisWithin | src/voxelization.c:27-35 | a point inside the sphere is within the radius on every axis |
| Voxelization.WindowCovers | src/voxelization.c:70-90 | the index window scanned around each atom covers every cell within DIST_GAP_SUBSTRATE of it |
| Voxelization.OccupiedUnion | src/voxelization.c:70-90 | the grid of a substrate is the union of the grids of its parts, whatever the order of the atoms |
| Voxelization.InitVoxelGrid | src/voxelization.c:45-58 | a fresh GRID_SIZE³ grid of zeros |
| Voxelization.Voxelize | src/voxelization.c:70-90 | a fresh grid whose cell is 1 exactly when its point lies within DIST_GAP_SUBSTRATE of an atom centre, 0 otherwise |
| Voxelization.Stamp | src/voxelization.c:75-88 | one atom: every in-grid cell of its window within the distance is set to 1, no other cell changes |
| Voxelization.StampPlane | src/voxelization.c:77-87 | the y loop for one plane of the window, with the same frame |
| Voxelization.StampRow | src/voxelization.c:79-86 | the z loop for one row of the window, with the same frame |
| Paths.RingCount | src/structurePth.c:79-87 | the number of the first n columns holding an aromatic ring: at most n, and 0 exactly when none does |
| Paths.Path.Init | src/structurePth.c:36-64 | PTH_init: size + 2 blank columns, orientations and last-position indices -1, counters 0, the two ends of the pair, sizeMax = size + 1, and no aromatic ring |
| Paths.Path.CountAroRings | src/structurePth.c:79-87 | PTH_countAroRings: the number of columns 0 .. sizeMax holding an aromatic ring, at most sizeMax + 1 |
| Mains.FirstNull | src/structureMN.c:62-72 | the first free cage slot, the length when every slot holds a cage |
| Mains.WithNullFacts | src/structureMN.c:62-93 | the free-slot search (Mains.WithNull) returns the first free slot, growing the array by exactly the given amount only when it is full, and keeps the slots that were there |
| Mains.Main.constructor | src/structureMN.c:121-131 | MN_create: no substrate, no envelope and no cage slots |
| Mains.Main.AddAlloc | src/structureMN.c:39-50 | MN_addAlloc: size free slots appended |
| Mains.Main.GetIndiceFree | src/structureMN.c:62-72 | MN_getIndiceFree: the first free slot, after growing by REALLOCSIZE when there is none |
| Mains.Main.GetIndiceFree2 | src/structureMN.c:83-93 | MN_getIndiceFree2: the first free slot, after growing by one when there is none |
| Mains.Main.SeekFree | src/structureMN.c:66-70 | the search loop of MN_getIndiceFree and MN_getIndiceFree2: the first slot holding no cage, the length when every slot holds one (FirstNull) |
| Mains.Main.CopyMoc | src/structureMN.c:105-111 | MN_copyMoc: a fresh deep copy of the cage in the first free slot, whose index is returned; every other slot keeps its cage |
| Conversions.Present | src/structure.c:22-38 | the entries of a buffer other than FREE, in order, holes included |
| Conversions.MolGraph | src/structure.c:22-38 | one vertex per atom, in slot i for atom i |
| Conversions.FilledStep | src/structure.c:31-34 | one more buffer entry is one more GPH_addNeighbor call when it is not FREE |
| Conversions.ListedFacts | src/structure.c:31-34 | a vertex built from a buffer lists each present entry once, and its counter is the number of present entries |
| Conversions.PresentOfPacked | src/structure.c:22-38 | on a packed buffer the present entries are the ids a scan sees |
| Conversions.ListedGraphOk | src/structure.c:22-68 | slots filled from the buffers of their own ids, with unique ids and closed buffers, make a consistent graph |
| Conversions.MolGraphIndex | src/structure.c:22-38 | atom i's vertex is found in slot i and no other id is a vertex |
| Conversions.MolGraphFacts | src/structure.c:22-38 | MolToGph gives each atom a vertex joined to exactly the present entries of its buffer, and symmetric simple buffers give a consistent graph |
| Conversions.MolGraphStep | src/structure.c:27-35 | one turn of the outer loop: GPH_addVertex(g, i) takes slot i and filling it extends the result by one vertex |
| Conversions.DenseFacts | src/structure.c:50-68 | the dense part holds one vertex per used atom, atom i at its rank among the used atoms |
| Conversions.ShlIndex | src/structure.c:50-68 | where the vertices built so far are: a used atom at its rank, no other id, the free slots after the dense part |
| Conversions.ShlGraphStep | src/structure.c:55-65 | one turn of the outer loop of the corrected conversion: the vertex takes the slot after the dense part, growing the graph when there is none |
| Conversions.ShlGraphFacts | src/structure.c:50-68 | the corrected conversion gives every used atom a vertex at its rank joined to exactly its present entries, and no other id |
| Conversions.ShlGraphOk | src/structure.c:50-68 | the corrected conversion of consistent buffers is a consistent graph |
| Conversions.ExampleAsWritten | src/structure.c:59-63 | on a shell whose atom 0 is unused, the source writes atom 1's neighbours into vertex 2's slot and atom 2's neighbours into an unused slot |
| Conversions.ShlToGphMisplaces | src/structure.c:59-63 | on that shell the as-written conversion (Conversions.ShlGraphAsWritten) loses the edge 1-2 and makes vertex 2 its own neighbour, while the corrected one keeps the edge both ways |
| Conversions.ShlToGphOverruns | src/structure.c:59-63 | when four unused atoms precede the first used one, the source writes past the graph's last slot |
| Conversions.FillSlot | src/structure.c:31-34 | GPH_addNeighbor on slot k for every entry other than FREE, no other slot changed |
| Conversions.MolToGph | src/structure.c:22-38 | a fresh graph equal to MolGraph (see MolGraphFacts) |
| Conversions.ShlToGph | src/structure.c:50-68 | the corrected conversion: a fresh graph equal to ShlGraph (see ShlGraphFacts) |
| Expansion.AfterStep | src/expansion.c:197-206 | taking step n applies one placement to the shell the first n steps left |
| Expansion.AddedStep | src/structureShl.c:292-301 | one SHL_addAtom takes the first unused slot for the point, keeps the atoms in use and adds one to SHL_nbAtom |
| Expansion.Trace | src/expansion.c:197-206 | the atom slots after each prefix of the steps, one more than there are steps |
| Expansion.ChainKeeps | src/expansion.c:197-206 | along the steps SHL_nbAtom rises by one per step, the atoms in use stay and every new atom has the parent |
| Expansion.ChainTook | src/expansion.c:197-206 | each step took the slot that was first unused before it |
| Expansion.ChainDistinct | src/expansion.c:197-206 | no two steps take the same slot |
| Expansion.PlacedAllAtoms | src/expansion.c:20-182 | the steps of one atom raise SHL_nbAtom by their number, each taking a distinct slot not in use and giving it its point and the parent |
| Expansion.HasVertexAdded | src/structureGph.c:158-169 | GPH_addVertex of an id adds exactly that id to the vertices |
| Expansion.AddedVertexBare | src/structureGph.c:158-169 | GPH_addVertex never fills a neighbour list, and puts a new id in the first unused slot |
| Expansion.AfterVertices | src/expansion.c:28-31 | after n steps the vertices are those before plus the slots of the steps that make vertices, and a graph without edges stays without edges |
| Expansion.AddedMember | src/structureLst.c:125-132 | LST_addElement of an id to a packed list adds exactly that id |
| Expansion.AfterCycle | src/expansion.c:84-87 | after n steps the cycle list stays packed and holds the ids before plus the slots of the steps that join it |
| Expansion.Place | src/expansion.c:28-31 | one step: SHL_addAtom of the point with the parent, then SHL_addVertex and SHL_addCycle of its slot when the step says so |
| Expansion.IsVertex | src/expansion.c:30 | checkVertex(m, id): whether the atom is a vertex of the molecule's graph |
| Expansion.InCycle | src/expansion.c:84 | cycle(m, id): whether the atom is on the molecule's cycle list |
| Expansion.AddGuarded | src/expansion.c:51-77 | one guarded point: when the ligand test holds, the next position becomes a point, made a vertex when the atom is one |
| Expansion.AddPerpendicular | src/expansion.c:82-91 | the two perpendicular points that end expansion_steric3, both joining the cycle list when the atom is on the molecule's |
| Expansion.ExpandAX1E1 | src/expansion.c:20-32 | expansion_AX1E1: one point, a vertex when the atom is one |
| Expansion.Steric3Steps | src/expansion.c:42-92 | the steps of a steric-3 atom are its guarded points followed by the two perpendicular ones |
| Expansion.ExpandSteric3 | src/expansion.c:42-92 | expansion_steric3: a point below two ligands, one below three, each a vertex when the atom is one, then the two perpendicular points, on the cycle list when the atom is |
| Expansion.ExpandSteric4 | src/expansion.c:102-151 | expansion_steric4: a point below two, three and four ligands, each a vertex when the atom is one |
| Expansion.ExpandAX2E0 | src/expansion.c:162-182 | expansion_AX2E0: four points, none a vertex |
| Expansion.PlacedAllFacts | src/expansion.c:20-182 | what one atom's case does: SHL_nbAtom rises by the number of points, old atoms are kept, new ones have the parent, exactly the flagged slots become vertices, a graph without edges stays consistent and edgeless, and exactly the flagged slots join the cycle list |
| Expansion.AtomStepsFlags | src/expansion.c:197-206 | an atom's steps only make vertices when it is a vertex of the molecule's graph, and only join the cycle list when it is a steric-3 atom on the molecule's cycle list |
| Expansion.GrownPlaced | src/expansion.c:197-206 | placing atom n's steps extends the description of the shell from n to n + 1 atoms |
| Expansion.StagesFacts | src/expansion.c:197-206 | along the atom loop from an empty shell, the description holds and SHL_nbAtom counts the points |
| Expansion.ExpandedFacts | src/expansion.c:197-206 | after the first n atoms SHL_nbAtom is the number of points their cases add, and each point's slot, parent, vertex and cycle membership are as their case says |
| Expansion.VisitedNext | src/expansion.c:209-217 | visiting the pair (i, j) visits exactly that pair |
| Expansion.WantedNext | src/expansion.c:211-216 | visiting a linked pair adds exactly its two directions to the edges wanted |
| Expansion.AddedEdgeMember | src/structureGph.c:204-212 | GPH_addEdge of a missing edge puts each end in the other's list and nothing else |
| Expansion.AddedEdgeShape | src/structureGph.c:204-212 | GPH_addEdge of a missing edge keeps the graph well formed and changes no id |
| Expansion.EdgeAdded | src/expansion.c:211-216 | a linked pair gets its edge, which it did not have |
| Expansion.EdgeSkipped | src/expansion.c:211-216 | a pair that is not linked changes nothing wanted |
| Expansion.NextRow | src/expansion.c:209-210 | when j reaches the first unused slot the graph is as wanted at the start of the next row |
| Expansion.PairRule | src/expansion.c:209-217 | after the loops, two vertices are joined exactly when their points share a parent or their parents are bonded in the molecule |
| Expansion.BondEnds | src/expansion.c:209-217 | after the loops every edge joins two distinct vertices of the graph the scan started from |
| Expansion.EdgeRule | src/expansion.c:209-217 | when the loops are over the graph is bonded as that rule says |
| Expansion.Anchored | src/expansion.c:211-214 | the two vertices a pass looks at are vertices of the starting graph, made for points whose parents are vertices of the molecule |
| Expansion.StopsAtUnused | src/expansion.c:209-210 | the scans stop at the first unused slot |
| Expansion.BondPair | src/expansion.c:211-216 | one pass of the inner loop: the graph stays consistent and the pair is bonded when linked |
| Expansion.BondFrom | src/expansion.c:210-217 | the inner loop bonds slot i to every later linked vertex up to the first unused slot |
| Expansion.BondDependencies | src/expansion.c:209-217 | the edge loop: the graph stays consistent and ends bonded exactly as the rule says |
| Expansion.PlanRing | src/expansion.c:84-91 | the ring flag only matters to the perpendicular points of a steric-3 atom |
| Expansion.ExpandedNext | src/expansion.c:197-206 | the shell grows by the steps of the atom just processed |
| Expansion.ExpandAtom | src/expansion.c:198-205 | one turn of the atom loop: the if-chain picks the atom's case and places exactly its steps |
| Expansion.ExpandAtoms | src/expansion.c:197-206 | the atom loop from an empty shell gives the shell Expanded describes |
| Expansion.Expand | src/expansion.c:191-219 | expansion: the shell's atoms and cycle list are those Expanded describes, SHL_nbAtom is the number of points the atoms' cases add, and the graph ends consistent and bonded exactly between vertices whose points share a parent or whose parents are bonded |
| Generation.AtomCountSameUse | src/structureShl.c:141-149 | SHL_nbAtom depends only on which slots are used |
| Generation.GrownConsistent | src/structureShl.c:115-131 | appending empty buffers keeps the buffers consistent with the same edges |
| Generation.StrippedFacts | src/generation.c:95-98 | the stripping loop on consistent buffers keeps them consistent, removes exactly the edges at c and changes nothing but the buffers |
| Generation.StripStep | src/generation.c:95-98 | one turn: the first entry of c's buffer is another atom, and removing that edge shortens c's list by one |
| Generation.StripDone | src/generation.c:95 | when c's buffer starts with a free slot the loop stops and changes nothing |
| Generation.OpenedFacts | src/generation.c:91-98 | opening c: it is flagged HYDRO_PATTERN_F, every edge at c is gone, the other edges stay and no other atom changes |
| Generation.GrownListsFacts | src/structureShl.c:292-301 | making room keeps the edges and their consistency, and the first unused slot is then a slot |
| Generation.SproutedLists | src/generation.c:114-116 | one pattern atom adds exactly the edge between the anchor and the new slot |
| Generation.AnchorGrows | src/generation.c:114-116 | the anchor's buffer only grows, and no buffer but the new atom's changes otherwise |
| Generation.SproutedSlots | src/generation.c:114-118 | one pattern atom goes into the first unused slot with its flag, position and no parent; the other slots keep everything but the anchor's buffer |
| Generation.SproutedCount | src/generation.c:114-118 | one pattern atom raises SHL_nbAtom by one |
| Generation.TidySpokes | src/generation.c:114-125 | tidiness survives a step that only adds edges at a used anchor or at new atoms |
| Generation.SproutedFacts | src/generation.c:114-118 | one pattern atom: its slot, its edge, the count and consistency together |
| Generation.FanSlots | src/generation.c:113-125 | a fan from the anchor: one new atom per position with the flag, no parent and its position; the other atoms keep everything but their buffers, which do not shrink |
| Generation.FanLists | src/generation.c:113-125 | the edges of a fan: those there were plus one between the anchor and each new atom |
| Generation.FanFacts | src/generation.c:113-125 | a fan all together: one new atom per position, each joined to the anchor and to nothing else, consistency kept and SHL_nbAtom raised by the number of positions |
| Generation.OpenedLengths | src/generation.c:91-98 | opening keeps the length of every buffer |
| Generation.OpenedConflict | src/generation.c:105-111 | on a conflict both insertions leave c SHELL_F without edges and change nothing else |
| Generation.AcceptorGrown | src/generation.c:113-125 | insertAcceptor1 without a conflict adds the two pattern atoms to the opened shell |
| Generation.AcceptorFacts | src/generation.c:84-131 | insertAcceptor1 on a used atom of consistent buffers keeps them consistent; on a conflict c ends SHELL_F with its edges gone and nothing added; otherwise c ends HYDRO_PATTERN_F joined only to two new LINKABLE_F atoms and SHL_nbAtom rises by two |
| Generation.DonorGrown | src/generation.c:175-194 | insertDonor1 and insertDonor2 without a conflict add the centre and its fan |
| Generation.DonorFacts | src/generation.c:141-276 | insertDonor1 and insertDonor2 on a used atom of consistent buffers keep them consistent; on a conflict c ends SHELL_F with its edges gone; otherwise c ends HYDRO_PATTERN_F joined only to a new HYDRO_PATTERN_F centre without parent, itself joined to the new LINKABLE_F atoms, and SHL_nbAtom rises by one plus their number |
| Generation.Strip | src/generation.c:95-98 | the stripping loop: the atoms become Stripped of the old ones (see StrippedFacts) |
| Generation.Clash | src/generation.c:105-111 | the conflict scan: true exactly when a solid atom lies within DIST_GAP_CAGE of one of the positions |
| Generation.Open | src/generation.c:91-98 | c flagged HYDRO_PATTERN_F and stripped of its edges (see OpenedFacts) |
| Generation.AddPatternAtom | src/generation.c:114-116 | SHL_addAtom at the position without parent, in the first unused slot with SHELL_F, then SHL_addEdge from the anchor |
| Generation.AddLinkable | src/generation.c:114-118 | a pattern atom whose flag is raised to LINKABLE_F when lower |
| Generation.AddFlagged | src/generation.c:248-258 | a pattern atom whose flag is set, in the first unused slot |
| Generation.InsertAcceptor1 | src/generation.c:84-131 | insertAcceptor1 with its two positions given: the atoms become Acceptor of the old ones (see AcceptorFacts) |
| Generation.InsertDonor1 | src/generation.c:141-200 | insertDonor1 with the centre and two positions given: the atoms become Donor of the old ones (see DonorFacts) |
| Generation.InsertDonor2 | src/generation.c:210-276 | insertDonor2 with the centre and three positions given: the atoms become Donor of the old ones (see DonorFacts) |
| Generation.KindOf | src/generation.c:305-320 | the acceptor exactly for a hydrogen parent, insertDonor1 exactly for another parent of steric number 3 |
| Generation.InsertedFacts | src/generation.c:305-320 | any insertion on a used atom of consistent buffers keeps them consistent and every used atom in place with its parent, and ends with c HYDRO_PATTERN_F with the whole pattern, or SHELL_F with nothing added |
| Generation.HydrogenStepFacts | src/generation.c:290-322 | one vertex: a free vertex or an atom with a solid atom too close changes nothing, otherwise the pattern of its parent is inserted; readiness and the insertion guarantees hold and SHL_nbAtom never drops |
| Generation.HydrogenPatternKeeps | src/generation.c:290-323 | whatever every step keeps holds after the steps on the first j vertices |
| Generation.HydrogenPatternFacts | src/generation.c:290-323 | every step of the loop keeps readiness and the insertion guarantees, and never lowers the number of atoms |
| Generation.HydrogenReady | src/generation.c:292-296 | before step j the vertex names a used atom with a buffer and a substrate parent, in consistent buffers |
| Generation.Crowding | src/generation.c:298-303 | the scan for a solid atom other than id within DIST_GAP_CAGE, stopping at the first: true exactly when there is one |
| Generation.HydrogenAt | src/generation.c:292-321 | the body of the loop for one vertex: the atoms become HydrogenStep of the old ones |
| Generation.HydrogenPass | src/generation.c:290-323 | the loop over the vertices: the atoms become HydrogenPattern of the old ones |
| Generation.GenerateHydrogenPattern | src/generation.c:283-326 | generateHydrogenPattern on cage 0: its atoms become HydrogenPattern over every vertex of its dependency graph, its cycle list unchanged |
| Dependencies.ThinnedKeepsEmpty | src/generation.c:22-36 | slots emptied of neighbours earlier stay empty as cage 0's graph is thinned |
| Dependencies.RemoveNeighbourStep | src/generation.c:27-34 | one turn of the while loop on a consistent graph: the first neighbour of the vertex is another vertex, and removing it is defined, keeps the graph consistent and lowers the vertex's counter |
| Dependencies.NoCountNoNeighbour | src/generation.c:27 | the vertex has no neighbour once its counter is 0 |
| Dependencies.CopyWithout | src/generation.c:28-31 | the copy of a consistent graph without one of its vertices is consistent and lacks that vertex |
| Dependencies.CopyWithoutVertex | src/generation.c:28-31 | MN_copyMoc of cage 0 into the first free slot, then SHL_removeVertex of the vertex on the copy: a fresh cage with cage 0's atoms and cycle list and its graph without that vertex; cage 0 untouched |
| Dependencies.DropNeighbour | src/generation.c:33 | SHL_removeVertex of the vertex's first neighbour on cage 0: GPH_removeVertex of it, the counter lowered |
| Dependencies.SplitOnce | src/generation.c:28-33 | one turn of the while loop: one fresh copy, without the vertex, in the first free slot; the earlier copies untouched; cage 0 loses the first neighbour |
| Dependencies.SplitStep | src/generation.c:27-34 | one turn with its bookkeeping: every copy recorded so far still holds cage 0's atoms and cycle list and its own graph |
| Dependencies.SplitVertex | src/generation.c:25-35 | the while loop for slot j: afterwards the vertex has no neighbour, and each copy made holds cage 0's atoms and cycle list and cage 0's graph at that moment without the vertex |
| Dependencies.EmptyBeforeNext | src/generation.c:22-36 | the outer loop moves on from slot j once it has no neighbours |
| Dependencies.GenerateDependencies | src/generation.c:11-41 | generateDependancies on cage 0: its atoms and cycle list stay, its graph is a consistent thinning with no edge left (unchanged when it has no atom), and each new slot holds a fresh copy with cage 0's atoms and cycle list whose graph is cage 0's graph at that step without the vertex being processed |
| Assembly.TypeInsert | src/assembly.c:55-68 | the flag of the inserted atom: 1 exactly for motif 0, 3 exactly for motif 1, 4 otherwise |
| Assembly.BordureCheck | src/assembly.c:525-538 | bordureCheck: 1 exactly when atom i is in a pattern and one of its neighbours is an envelope atom |
| Assembly.LinkedPrepend | src/assembly.c:541-577 | a move to y followed by a walk from y to b is a walk from a to b |
| Assembly.WalkStaysMarked | src/assembly.c:541-577 | a walk that starts in a closed set of marks stays in it and never meets b |
| Assembly.NotLinked | src/assembly.c:541-577 | nothing outside a closed set of marks is reachable from inside it |
| Assembly.ClosedOutsideGrows | src/assembly.c:541-577 | marks closed before stay closed as the marks grow |
| Assembly.ScannedClosed | src/assembly.c:552-574 | an atom whose listed pattern neighbours are all marked and differ from b is closed |
| Assembly.Parcours | src/assembly.c:541-577 | parcours: marks grow and include a; 1 only when b is reachable from a through pattern atoms, and 0 only when every newly marked atom is closed, so that b is not reachable from it |
| Assembly.ScanAt | src/assembly.c:552-574 | one turn of parcours's loop: a pattern neighbour that is b gives 1, another unmarked one is searched |
| Assembly.Visit | src/assembly.c:562-569 | a pattern neighbour other than b is searched only when not marked yet, with the same guarantees |
| Assembly.ExisteChemin | src/assembly.c:581-591 | existeChemin: 1 exactly when b is reachable from a through pattern atoms, 0 otherwise |
| Assembly.ListedStep | src/assembly.c:602-611 | one turn of the inner loop of choixSommets appends (i, j) exactly when it is chosen |
| Assembly.OrderedStep | src/assembly.c:602-611 | appending (i, j) after pairs that all come before it keeps the loop order |
| Assembly.ListedAll | src/assembly.c:598-613 | once the outer loop is over, every chosen pair is listed |
| Assembly.ChoixSommets | src/assembly.c:594-616 | choixSommets: exactly the pairs of border atoms in different groups, the smaller index first, in the loops' order |
| Assembly.InitMocAtt | src/assembly.c:619-642 | initMocAtt: the queue holds cage 0 alone when there is one, nothing otherwise, and the cage array is emptied |
| Assembly.Rings | src/assembly.c:494-497 | the number of ring motifs in a path, at most its length |
| Assembly.QueuedLift | src/assembly.c:499-510 | a path queued from a cage one motif further along is queued from this one too |
| Assembly.AllQueuedConcat | src/assembly.c:473-517 | two lists of queued cages put one after the other are queued |
| Assembly.GenererChemin | src/assembly.c:445-518 | genererChemin: a crowded start queues nothing; every cage queued is the closed form of a cage reached by extending the path with motifs 2 and 4, within tailleMax atoms of the starting cage and near the arrival atom, whose path holds at least one ring motif and fewer than three before its last insertion; conversely, when the start is not crowded, every cage that inserting motif 4, or motif 2 on a path already holding a ring, produces within tailleMax atoms and near the arrival atom is queued |
| Rings.Candidates | src/generation.c:343-349 | the ring candidates are slots below n |
| Rings.CandidatesAre | src/generation.c:343-349 | the candidates are exactly the used atoms on the cycle list, in increasing order |
| Rings.CycleAtoms | src/generation.c:340-349 | the first loop of generateCycle: a fresh packed list holding exactly the candidates |
| Rings.AddIfCandidate | src/generation.c:344-348 | one turn: slot i joins the list exactly when it is a candidate |
| Rings.OffsAre | src/generation.c:356-361 | the cut neighbours are listed once each: exactly the listed neighbours not on the ring list or farther than MAXDIS_CYCLE |
| Rings.OffRing | src/generation.c:353-361 | the neighbour loop for candidate x: a fresh list of exactly its cut neighbours |
| Rings.CutEdges | src/generation.c:366-368 | SHL_removeEdge for every cut neighbour: the lists stay consistent and lose exactly those edges, flags and other fields kept |
| Rings.DropCount | src/generation.c:363 | SHL_nbNeighborhood minus the number cut is the number of neighbours kept |
| Rings.RingStep | src/generation.c:352-369 | one candidate: it reports whether at least two neighbours are not cut; if so, exactly its edges to the cut neighbours go and it becomes CYCLE_F, keeping at least two ring neighbours; otherwise nothing changes |
| Rings.EnoughKept | src/generation.c:363-369 | after the cut edges go, x keeps at least two ring neighbours |
| Rings.RingKeptSurvives | src/generation.c:351-369 | a flagged candidate keeps its ring neighbours through the cut step of another candidate |
| Rings.CandidatesDistinct | src/generation.c:343-349 | no slot is a candidate twice |
| Rings.Merge | src/structureShl.c:416-440 | SHL_mergeAtom is defined on consistent lists and a consistent graph and keeps both consistent, the array keeping its size |
| Rings.MergeDefined | src/structureShl.c:416-440 | on consistent lists and a consistent graph, SHL_mergeAtom of any two slots is defined and keeps both consistent, the array keeping its size |
| Rings.MergeCycle | src/structureShl.c:416-440 | the cycle list after SHL_mergeAtom stays packed; the eater is on it when either atom was, and no other atom but the eaten one joins or leaves it |
| Rings.MergeKeeps | src/structureShl.c:416-440 | after SHL_mergeAtom the eaten slot is blank, the eater keeps its coordinates and takes the eaten atom's parent and the larger flag, the other atoms keep all but their lists, and the edges are the old ones without the eaten atom plus the eater joined to its former neighbours |
| Rings.AddedTwice | src/structureLst.c:125-132 | LST_addElement of an id already added changes nothing |
| Rings.Turn | src/generation.c:376-389 | one turn of the merge loop at slot j: the lists and graph stay consistent, and the state is merged exactly when slot j is a used non-envelope atom, other than the new one, closer than MINDIS_CYCLE to the new point |
| Rings.Gathered | src/generation.c:376-389 | the merge loop from slot j on keeps the lists and graph consistent and the array's size |
| Rings.EatenLater | src/generation.c:376-389 | after one turn, the atoms met later are eaten exactly when they were before, and the other atoms keep all but their lists |
| Rings.MergeTurnHolds | src/generation.c:376-389 | one turn resets the eaten slot, gives the new atom the larger flag and that slot's parent, and leaves the rest unchanged but for lists |
| Rings.AtomsStep | src/generation.c:376-389 | what the loop does to the atoms from slot j + 1 on, composed with the turn at j, is what it does from slot j on |
| Rings.EaterFlagStep | src/generation.c:385-387 | over one more turn the new atom's flag remains the largest of its own and the eaten atoms' flags |
| Rings.EaterParentStep | src/generation.c:385-387 | over one more turn the new atom's parent remains that of the last atom eaten, or its own when none is |
| Rings.NoneEaten | src/generation.c:376 | past the last slot nothing is eaten and the atoms stay as they are |
| Rings.TurnAtoms | src/generation.c:376-389 | the turn at slot j followed by the rest of the loop is the loop from slot j, as far as the atoms go |
| Rings.GatheredAtoms | src/generation.c:376-389 | after the merge loop every eaten atom is reset, every other atom keeps all but its list, and the new atom keeps its place and gets the largest flag and the parent of the last atom eaten |
| Rings.EdgeTurnHolds | src/generation.c:385-387 | one turn removes the eaten slot's edges and joins the new atom to its other neighbours; nothing else changes |
| Rings.FedStep | src/generation.c:376-389 | a neighbour of an atom eaten from slot j on is a neighbour of slot j, when that is eaten, or of an atom eaten later |
| Rings.EdgesStep | src/generation.c:376-389 | the edges left by the loop from slot j + 1 on, composed with the turn at j, are those the loop from slot j leaves |
| Rings.TurnEdges | src/generation.c:376-389 | the turn at slot j followed by the rest of the loop is the loop from slot j, as far as the edges go |
| Rings.NoneFed | src/generation.c:376 | past the last slot the edges stay as they are |
| Rings.GatheredEdges | src/generation.c:376-389 | after the merge loop an edge exists exactly when neither end was eaten and it existed before, or it joins the new atom to a neighbour of an eaten atom |
| Rings.CycleTurnHolds | src/generation.c:385-387 | one turn keeps the cycle list packed and changes the membership of the eaten slot and the new atom only |
| Rings.SightedStep | src/generation.c:376-384 | whether a close atom on the cycle list lies ahead is decided by slot j and the state after the turn |
| Rings.GatheredRing | src/generation.c:376-384 | the ring list gains the new atom exactly when a used atom closer than MINDIS_CYCLE to the point is on the cycle list, once however many are |
| Rings.SlotAdded | src/structureShl.c:292-301 | SHL_addAtom(p, -1) puts an envelope atom at p in the first unused slot, keeps the other atoms and the edges, and blanks any slots it grows |
| Rings.ThirdPlaced | src/generation.c:370-394 | the whole third-point branch keeps the lists and the graph consistent |
| Rings.Raised | src/generation.c:390-392 | the new atom's flag is raised to LINKABLE_F when not above it; no list changes |
| Rings.ThirdAtomsOf | src/generation.c:370-394 | the merge loop's atoms and the flag raise together give the third-point branch's atoms |
| Rings.ThirdPointAtoms | src/generation.c:370-394 | after the branch the new atom sits in the first unused slot at the placed point, with the larger of LINKABLE_F and the eaten atoms' flags and the parent of the last atom eaten (-1 when none), every eaten atom is reset and every other atom keeps all but its list |
| Rings.ThirdEdgesOf | src/generation.c:370-394 | the merge loop's edges and SHL_addEdge together give the third-point branch's edges |
| Rings.ThirdPointEdges | src/generation.c:370-394 | after the branch the edges are those of the merge loop plus the edge between the ring atom and the new atom |
| Rings.ThirdPointRing | src/generation.c:370-394 | the ring list gains the new atom exactly when a close used atom, or its own slot, is on the cycle list; the lists stay packed |
| Rings.SightedAdded | src/structureShl.c:292-301 | a close atom on the cycle list after SHL_addAtom is an earlier one or the new atom |
| Rings.GatherAt | src/generation.c:376-389 | the imperative turn of the merge loop at slot j does what Turn says |
| Rings.Gather | src/generation.c:376-389 | the imperative merge loop over every slot does what Gathered says |
| Rings.ThirdPoint | src/generation.c:374-393 | SHL_addAtom, the merge loop, the flag raise and SHL_addEdge do what ThirdPlaced says |
| Rings.CutKeeps | src/generation.c:363-369 | the cut step of an entry keeps the loop invariant: edges only go, and only that entry may become CYCLE_F |
| Rings.ThirdOutcome | src/generation.c:370-394 | the third-point branch keeps the loop invariant, the new atom joining the made ones |
| Rings.ThirdPending | src/generation.c:370-394 | after the branch the unused entries not yet handled, including any the merges reset, have no neighbours |
| Rings.ThirdKeeps | src/generation.c:370-394 | the third-point branch keeps the loop invariant and the packing of both lists, and the ring list only grows |
| Rings.RingTurn | src/generation.c:351-396 | one turn of the loop, the cut step then the third-point branch, keeps the loop invariant and only grows the ring list |
| Rings.ThirdBranch | src/generation.c:369-394 | the guard SHL_nbNeighborhood == 2 and the point placed at SIMPLE_CYCLE from the atom's two neighbours: the invariant is kept either way |
| Rings.GenerateCycle | src/generation.c:337-400 | generateCycle: lists, graph and cycle list stay consistent; every edge is an old one or touches a new atom; every other atom is reset by a merge or keeps its coordinates, parent and flag or becomes CYCLE_F; every new atom still present is at least LINKABLE_F |

## Left out

Where the repository's documentation and its code disagree, the model follows the code:

- the voxel grid marks the voxels within DIST_GAP_SUBSTRATE of an atom, whatever the atom's radius;
- out-of-grid coordinates are clamped instead of raising an error;
- heap ties are not broken in insertion order;
- the decrease-key call is made without comparing the keys, because its caller does that comparison.

Not modelled:

- Geometry: `src/util.c`, normals, rotations, `encombrement`, the `projection*` and `ajoutMotif*` functions, `insererMotif`, `MOL_seekNormal`, and the distance tests of `genererChemin`. The model takes the positions and decisions they produce as parameters. `Assembly.GenererChemin` receives the geometry as functions and requires that every insertion adds atoms, which is what bounds the source's recursion.
- The assembly driver `assemblage` and its OpenMP pragma. The printing helpers (`printVoxelGrid`, `NH_print`, `PTH_print*`, `affichage`).
- The `alphaShape` and `createShell` functions, which call into embedded R. `src/initialization.c`, `main.c`, `interface.c`, the input and output code, and the `AStar.c` file. These are not part of this model.
- Memory: allocation, `free`, `LST_delete`, `PTH_delete`, `MN_initMoc`, `MN_delete`, and the leaks in `PR_init` are not modelled. List_t buffers owned by several records are copied, not shared, so aliasing between them is not modelled.
- Pointer splicing in the linked lists: each linked list is a sequence of nodes.
- `Paths.Path.Init` takes the blank point as a parameter, because `PTH_init` calls `PT_init()` without its argument.
- C `float` becomes `real` in `Points`, `Voxelization`, `NodeHeaps` and `PathFinding`, so single-precision rounding is not modelled.
- Graphs: the neighbour counter `count` is an `int`. The source's `unsigned nbNeighbors` wraps around below 0, and the model does not. `Graphs.RemoveAbsentEdgeDrifts` shows the counter going below the list's length.
- Graphs.Graph.AddEdge: as in `GPH_addNeighbor`, the counter is incremented even when the edge is already there. The graph stays consistent only when the edge is absent (`Graphs.AddEdgeOk`). `Graphs.AddEdgeTwiceDrifts` shows the drift. The model keeps this behaviour rather than correcting it.
- Graphs.Graph.RemoveVertex requires `RemovedVertex(...).Some?`: the source's loop must find every neighbour it reads, and a drifted or inconsistent graph makes it read outside the list. `Graphs.RemoveVertexOk` shows that a consistent graph meets this requirement.
- Shells.Shell.RemoveVertex requires the same thing of the cage's graph.
- Shells.Shell.RemoveAtom requires every entry of the atom's list to be a slot of the cage, which the source reads without checking.
- Shells.Shell.MergeAtom requires that the eaten atom does not list itself as a neighbour, and that the merge is defined.
- Dependencies.GenerateDependencies requires cage 0's graph to be consistent (`GraphOk`). Graphs whose counters have drifted, which `Graphs.AddEdgeTwiceDrifts` shows are reachable, are not covered.
- Molecules.Molecule.NbLigands requires the atom's buffer to hold at least four slots, as `MOL_nbLigands` reads four slots unconditionally. An isolated atom, whose buffer the source leaves unallocated, is excluded.
- Molecules.Molecule.CreateBond: the vertex set is always stated exactly: the old vertices plus the group members. The edge set (the old edges plus the clique pairs) is stated only for a bond graph whose unused slots have empty lists (`FreeEmpty`), as `GPH_initVertex` leaves them. For other graphs only growth and the cliques are stated.
- Generation.Strip, Generation.Open, Generation.InsertAcceptor1, Generation.InsertDonor1 and Generation.InsertDonor2 require the centre atom's buffer to be non-empty. The source reads its first neighbour unconditionally, and an empty buffer is unallocated there.
- Expansion.ExpandSteric3, Expansion.InCycle and Expansion.ExpandAtom require the substrate's cycle list to exist (`m.cycle.Some?`). The source dereferences it unconditionally in the steric-3 case.
- LinkedLists.PointList.RemoveFirst and LinkedLists.MocStack.RemoveFirst require a non-empty list, as `LSTs_removeFirst` and `mSTK_removeFirst` dereference the head unconditionally.
- NodeHeaps.NodeHeap.DecreaseKey requires the new f not to exceed the old one. The search only lowers keys.
- PathFinding.Search: the search re-keys a voxel through the corrected `NodeHeaps.NodeHeap.DecreaseKey`, whose sift-up climbs as far as heap order needs. The source calls `NH_decrease_priority`, which `src/structureNH.c` does not define; its `NH_increase_priority` climbs at most one level (`src/structureNH.c:150-152`, see Findings). With that heap the source can extract voxels out of order and return a cost that is not the least. The optimality and completeness proved for `Search`, `Dijkstra` and `AStar` hold for the corrected heap only.
- Rings.GenerateCycle requires consistent neighbour lists, a consistent bond graph and a packed cycle list, which the merges of the third-point branch need. `addThirdPoint` is the parameter `place`: the model covers every point it may return. Whether the source's loop over the growing ring list ends depends on where those points fall, so the model handles at most `fuel` entries and the contract holds after any number of them.
- Rings.GenerateCycle states the outcome as a relation (`Outcome`), not the exact final state: edges to the new atoms, merges that reset atoms and a merged neighbour's flag carried onto a new atom are all allowed. The exact effect of each branch is stated by `ThirdPointAtoms`, `ThirdPointEdges` and `ThirdPointRing`. That every flagged candidate keeps two ring neighbours to the end is not stated, since a later merge may reset it.
- The removal of a close atom from the list of cut neighbours (`src/generation.c:378-380`) is not modelled: that list is not read again before it is deleted.
- Assembly.BordureCheck, Assembly.Parcours, Assembly.ExisteChemin and Assembly.ChoixSommets require every neighbour id and flag to be in range (`ListsInRange`, `UsedInRange`). The source indexes the atom array with them unchecked.
- Assembly.GenererChemin states completeness for the cages closed at the first level only. Deeper in the recursion, whether a cage is extended depends on the ring counter, which also counts the earlier solutions of the same insertion, so a general converse would restate the enumeration itself.

## Findings

| source | as written | input that shows it | evidently intended | confidence | as-written member | corrected member |
|---|---|---|---|---|---|---|
| src/structureLst.c:336-346 | `PR_removeFirst` takes the head pointer by value, so it reassigns only its own copy and frees the node the caller still points to | the list [a, b]: the caller still holds a (freed) at its head | the caller's list becomes [b] | not executed | LinkedLists.RemoveFirstKeepsHead | LinkedLists.PairList.RemoveFirst |
| src/structureGph.c:277-309 | `GPH_seekCycle` passes the pendant queue `l` to `GPH_cycle`, which reads `elts(l,0)` first (`src/structureGph.c:250`). When no vertex has exactly one neighbour, `l` was never given a buffer | a triangle: no pendant vertex, and every vertex lies on a short cycle | the first comparison is skipped while the list is empty, and the search reports the triangle's vertices | not executed | GraphCycles.SeekCycleReadsMissingSlot | GraphCycles.SeekCycle |
| src/structure.c:59-63 | `ShlToGph` adds vertex i with `GPH_addVertex` but writes its neighbours into `vertex(g,i)`, slot i, which is another vertex's slot (or past the end) once an unused atom precedes atom i | atoms [unused, used joined to 2, used joined to 1]: the edge 1-2 is lost and vertex 2 becomes its own neighbour; four unused atoms before a used one write past the slots | the neighbours go to the slot `GPH_addVertex` filled for atom i | not executed | Conversions.ShlToGphMisplaces | Conversions.ShlToGph |
| src/structureNH.c:150-152 | the sift-up loop of `NH_increase_priority` never moves `i`, so the node climbs one level at most | f values 1, 5, 6, 7 at positions 1..4, with the node at position 4 lowered to 0: it stops at position 2, below the root's 1 | the node climbs while its parent's f is larger, restoring heap order | not executed | NodeHeaps.RaisedOnceBreaksOrder | NodeHeaps.NodeHeap.DecreaseKey |
