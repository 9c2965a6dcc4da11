# Ripple broadcast strategy — a Dafny model

This project models the "ripple" broadcast strategy of the mesh relay simulator, `MatrixBroadcast` in
`src/matrix/ripple.mb.ts`. When a node relays a message towards an end point, the strategy
decides in which order to forward it to its connected neighbours.

- **Index.** `_init` builds a two-level index of the neighbours. Each neighbour gets a distance
  score, an angle score and a coarse grid cell (`minPointId`).
  - The neighbours are grouped by cell.
  - Each group is sorted by the 6:4 angle/distance comparator.
  - The occupied cells are ranked by the same comparator on their own scores.
  - The result is the ordered task list `todoTasks`.
- **Resolution tracking.** `resolvePoint` records which cells have already received the message.
- **Generator.** `doBroadcast` is a resumable generator. Each pass has two levels.
  - Level 1 yields the best neighbour of every cell that is neither dominated by the current skip
    reference cell nor already resolved. A resolved cell becomes the new skip reference.
  - Level 2 floods every neighbour the pass has not yielded yet and the base controller has not
    resolved.
  - Passes repeat while the base controller still has rejected points.

The model has three modules.

- `StableSort` (`stable_sort.dfy`): the stable sort by a scalar key that both `Array.prototype.sort`
  calls compute.
  - The sort is defined as a function, with proofs that it is sorted, a permutation of its input,
    and stable.
  - It also has an in-place insertion sort on an `array`, proved equal to that function.
- `RippleIndex` (`ripple_index.dfy`): the index, in two forms.
  - Functions of the neighbour list, with the partition and ordering facts about them.
  - `BuildIndex` and its helper methods, which follow the loops of `_init` and are proved equal
    to those functions.
- `RippleBroadcast` (`ripple_broadcast.dfy`): the generator and the strategy object.
  - One pull is a function (`PullSpec`) of the generator state: a cursor, the skip reference,
    `finishedPds` and the skip log.
  - The class `MatrixBroadcast` holds the index and the generator state in fields. Its
    `PullNext` method runs the two scans as loops and is proved to agree with `PullSpec`.
  - The class invariant records what the current pass has yielded: no point twice, at most one
    level-1 point per cell, and every neighbour behind the level-2 cursor covered. Covered means
    yielded in this pass, or resolved by the base controller at some pull of this pass.

The following are parameters of the model:

- The geometry (`placeOf`, `cellPlaceOf`).
- What the base controller knows: its resolved points, the answer of its own `resolvePoint`, and
  whether its rejected set is empty.

## Model

| member | source | states |
|---|---|---|
| StableSort.Insert | src/matrix/ripple.mb.ts:83-86 | one step of a stable sort by key: the new element goes right behind the last element whose key is not greater |
| StableSort.SortByKey | src/matrix/ripple.mb.ts:83-86 | the order both `.sort` calls produce with a key-difference comparator, defined as an insertion sort |
| StableSort.SortByKeySpec | src/matrix/ripple.mb.ts:83-86 | sorting with a key-difference comparator keeps the length, is a permutation, is non-decreasing in the key, and keeps each key class in input order (stable) |
| StableSort.InsertPermutes | src/matrix/ripple.mb.ts:83-86 | one insertion step adds exactly the inserted element to the multiset |
| StableSort.InsertKeepsSorted | src/matrix/ripple.mb.ts:83-86 | inserting into a key-sorted sequence leaves it key-sorted |
| StableSort.InsertWithKey | src/matrix/ripple.mb.ts:83-86 | inserting appends the element to the end of its own key class and leaves the other classes unchanged |
| StableSort.SortByKeyPermutes | src/matrix/ripple.mb.ts:83-86 | the sort is a permutation of its input |
| StableSort.SortByKeyIsSorted | src/matrix/ripple.mb.ts:83-86 | the sort is non-decreasing in the key |
| StableSort.SortByKeyIsStable | src/matrix/ripple.mb.ts:83-86 | elements with equal keys keep their input order |
| StableSort.InsertAt | src/matrix/ripple.mb.ts:83-86 | the insertion point is just after the last element whose key is not greater |
| StableSort.InsertInPlace | src/matrix/ripple.mb.ts:83-86 | shifting one array element left into the sorted prefix gives the functional insertion, and the rest of the array is unchanged |
| StableSort.SortInPlace | src/matrix/ripple.mb.ts:112-117 | sorting an array in place leaves exactly the stable sort of its old contents |
| RippleIndex.PointKey | src/matrix/ripple.mb.ts:83-86 | the scalar a neighbour is ranked by within its cell: 6·angle + 4·distance |
| RippleIndex.CellKey | src/matrix/ripple.mb.ts:112-117 | the scalar a cell is ranked by: 6·minAngle + 4·minDistance |
| RippleIndex.ComparePoints | src/matrix/ripple.mb.ts:83-86 | the per-cell comparator equals PointKey(a) - PointKey(b), so it orders a before b exactly when a's 6·angle + 4·distance is not larger |
| RippleIndex.CompareCells | src/matrix/ripple.mb.ts:112-117 | the cell comparator equals CellKey(a) - CellKey(b), with the same reading |
| RippleIndex.DetailOf | src/matrix/ripple.mb.ts:60-68 | the PointDetail of one neighbour: its id, its distance and angle scores and its cell id |
| RippleIndex.Details | src/matrix/ripple.mb.ts:49-68 | the PointDetails in the order the neighbours are visited |
| RippleIndex.PointDetailMap | src/matrix/ripple.mb.ts:37-70 | allPointDetailMap, built by setting each neighbour's detail under its id |
| RippleIndex.InCell | src/matrix/ripple.mb.ts:72-77 | the list of one cell in groupedPointDetailList: its neighbours in push order |
| RippleIndex.OccupiedCells | src/matrix/ripple.mb.ts:72-76 | the keys of groupedPointDetailList in insertion order |
| RippleIndex.CellDetailOf | src/matrix/ripple.mb.ts:98-111 | the MinPointDetail of one occupied cell: its id and its cell-level distance and angle scores |
| RippleIndex.CellDetails | src/matrix/ripple.mb.ts:89-111 | allMinPointDetailList before its sort: one MinPointDetail per group key, in key order |
| RippleIndex.RankedCells | src/matrix/ripple.mb.ts:89-117 | allMinPointDetailList after its sort |
| RippleIndex.CellDetailMap | src/matrix/ripple.mb.ts:118-120 | allMinPointDetailMap, built from the ranked list |
| RippleIndex.TodoTasks | src/matrix/ripple.mb.ts:122-127 | todoTasks: the ranked cells in order, each with its sorted neighbour list |
| RippleIndex.DetailsAt | src/matrix/ripple.mb.ts:49-70 | every neighbour gets exactly one PointDetail, at its own position, built from its own placement |
| RippleIndex.DetailsDistinct | src/matrix/ripple.mb.ts:49-70 | distinct neighbours give distinct PointDetails |
| RippleIndex.PointDetailMapSpec | src/matrix/ripple.mb.ts:37-70 | allPointDetailMap has a key exactly for each neighbour, mapped to that neighbour's own detail with its own point id |
| RippleIndex.InCellMembers | src/matrix/ripple.mb.ts:72-77 | the list pushed for a cell holds exactly the neighbours whose minPointId is that cell |
| RippleIndex.InCellDistinct | src/matrix/ripple.mb.ts:72-77 | a cell list repeats no entry when the neighbours are distinct |
| RippleIndex.OccupiedCellsSpec | src/matrix/ripple.mb.ts:72-76 | the group keys list each cell at most once, and a cell is a key exactly when some neighbour lies in it |
| RippleIndex.RankedCellsMembers | src/matrix/ripple.mb.ts:89-111 | each ranked cell entry is an occupied cell carrying its own scores |
| RippleIndex.RankedCellsCover | src/matrix/ripple.mb.ts:89-111 | every occupied cell appears in the ranked list |
| RippleIndex.RankedCellsDistinct | src/matrix/ripple.mb.ts:89-117 | no cell id appears twice in the ranked list |
| RippleIndex.RankedCellsSpec | src/matrix/ripple.mb.ts:89-117 | the ranked list has one entry per occupied cell with its own scores, is non-decreasing in 6·minAngle + 4·minDistance, and keeps tied cells in first-occurrence order |
| RippleIndex.TodoTasksMembers | src/matrix/ripple.mb.ts:122-127 | each todoTasks list holds exactly the neighbours of its own cell |
| RippleIndex.TodoTasksWellFormed | src/matrix/ripple.mb.ts:122-127 | the task cells are distinct, and every listed neighbour lies in the cell it is listed under |
| RippleIndex.TodoTasksCover | src/matrix/ripple.mb.ts:49-78 | every neighbour is listed under some task |
| RippleIndex.TodoTasksListsDistinct | src/matrix/ripple.mb.ts:72-77 | with distinct neighbours, no task list is empty and none repeats an entry |
| RippleIndex.TodoTasksPartition | src/matrix/ripple.mb.ts:49-78 | partition: every neighbour is in exactly one list, the one of its own cell, and the lists are non-empty and duplicate-free |
| RippleIndex.TodoTasksSorted | src/matrix/ripple.mb.ts:82-87 | each task list is its cell's pushed neighbours, as a permutation, non-decreasing in 6·angle + 4·distance, with ties in push order |
| RippleIndex.CellDetailMapOf | src/matrix/ripple.mb.ts:118-120 | the cell map has a key exactly for each listed cell id, mapped to an entry of the list with that id |
| RippleIndex.CellMapSpec | src/matrix/ripple.mb.ts:89-120 | allMinPointDetailMap has a key exactly for each occupied cell, mapped to that cell's own scores |
| RippleIndex.PushToCell | src/matrix/ripple.mb.ts:72-77 | one push creates the cell's list on first use and appends the detail; the group keys and lists then describe the visited prefix extended by that detail |
| RippleIndex.GroupByCell | src/matrix/ripple.mb.ts:49-78 | the first loop leaves allPointDetailMap, the key order of the groups, and each group's push-ordered list as the index functions define them |
| RippleIndex.SortCellList | src/matrix/ripple.mb.ts:83-86 | sorting one cell list yields its stable sort by PointKey |
| RippleIndex.SortCellLists | src/matrix/ripple.mb.ts:82-87 | the second loop sorts every group and touches no key |
| RippleIndex.RankCells | src/matrix/ripple.mb.ts:89-117 | one MinPointDetail per group key, in key order, then stably sorted by CellKey |
| RippleIndex.PairedListsAreTodoTasks | src/matrix/ripple.mb.ts:122-127 | pairing each ranked cell with its sorted group gives todoTasks |
| RippleIndex.BuildIndex | src/matrix/ripple.mb.ts:29-127 | _init yields the point map, the cell map and the task list defined by the index functions |
| RippleBroadcast.LevelOf | src/matrix/ripple.mb.ts:149-152 | `_level` read off the suspension point: 1 during the level-1 scan, 2 after it |
| RippleBroadcast.Dominated | src/matrix/ripple.mb.ts:163-166 | the pruning test: the cell is no farther than the skip reference and no better aligned |
| RippleBroadcast.IsCandidate | src/matrix/ripple.mb.ts:162-180 | a cell level 1 yields from: not dominated by the reference, with a top neighbour whose cell is unresolved |
| RippleBroadcast.RefAfter | src/matrix/ripple.mb.ts:162-176 | the skip reference after one cell: kept for a dominated cell, replaced by a non-dominated cell whose top neighbour's cell is resolved |
| RippleBroadcast.LogOf | src/matrix/ripple.mb.ts:162-177 | the skip event one cell emits: its id when it is dominated or its top neighbour's cell is resolved |
| RippleBroadcast.RefAt | src/matrix/ripple.mb.ts:158-176 | the skip reference in force at each cell of a scan, folding the rule forwards from the start |
| RippleBroadcast.SkipLog | src/matrix/ripple.mb.ts:161-177 | the skip events a scan emits up to a cell, folding the rule forwards |
| RippleBroadcast.ScanLevel1 | src/matrix/ripple.mb.ts:161-182 | the level-1 scan stops at the end of the list or at a cell that is not dominated, has a neighbour, and whose cell is unresolved |
| RippleBroadcast.ScanLevel1Exact | src/matrix/ripple.mb.ts:161-182 | the scan stops at the FIRST cell that is a candidate under the reference then in force (RefAt). Every cell before it is not a candidate. It leaves exactly RefAt's reference at that cell and exactly SkipLog's events |
| RippleBroadcast.ScanLevel1Log | src/matrix/ripple.mb.ts:161-177 | when no cell is empty, every cell passed over emits a skip event, so the log is exactly the ids of those cells in order. The reference at the end is the starting one or a passed-over cell whose cell id is resolved |
| RippleBroadcast.Eligible | src/matrix/ripple.mb.ts:187-192 | a neighbour level 2 yields: not in finishedPds and not resolved by the base controller |
| RippleBroadcast.NextLevel2 | src/matrix/ripple.mb.ts:185-196 | the level-2 position found is at or after the cursor, holds a neighbour not in finishedPds and not resolved by the base, and strictly fewer positions remain after it |
| RippleBroadcast.NextLevel2Exact | src/matrix/ripple.mb.ts:185-196 | every position between the cursor and the one found (or the end) holds a finished or base-resolved neighbour, so level 2 yields, in cell-then-list order, exactly the eligible neighbours |
| RippleBroadcast.ResumeLevel2Covers | src/matrix/ripple.mb.ts:185-196 | after a level-2 step, every neighbour behind the cursor was yielded in the pass or was base-resolved at a pull that passed it |
| RippleBroadcast.Resume | src/matrix/ripple.mb.ts:153-196 | resuming a pass keeps the cursor in range, and a pass that yields nothing ends with the cursor past the last cell |
| RippleBroadcast.ResumeLevel2 | src/matrix/ripple.mb.ts:185-196 | the level-2 part of a resume keeps the cursor in range and at level 2 |
| RippleBroadcast.PullSpec | src/matrix/ripple.mb.ts:153-198 | one pull leaves the cursor in range |
| RippleBroadcast.RetrySpec | src/matrix/ripple.mb.ts:156-159 | a repeated pass, started with no reference and an empty finishedPds, leaves the cursor in range |
| RippleBroadcast.PullWithoutRejections | src/matrix/ripple.mb.ts:156-197 | with no rejected points, a pull never reports NoConvergence. It ends the sequence exactly when the generator is exhausted, and every yield strictly lowers the bound on the yields left in the pass, so the generator ends after that single pass |
| RippleBroadcast.EndIsFinal | src/matrix/ripple.mb.ts:197-198 | once a pull has answered End, every later pull answers End and changes nothing, whatever the resolved cells and the base controller's inputs are by then |
| RippleBroadcast.RunLevel1 | src/matrix/ripple.mb.ts:161-182 | the level-1 for loop computes ScanLevel1 |
| RippleBroadcast.RunLevel2 | src/matrix/ripple.mb.ts:185-196 | the nested level-2 for loops find NextLevel2 |
| RippleBroadcast.Level1OnePerCell | src/matrix/ripple.mb.ts:171-180 | single candidate per cell: the level-1 yields of a pass come from pairwise different cells |
| RippleBroadcast.Level1HeadIsFresh | src/matrix/ripple.mb.ts:159-180 | the neighbour level 1 is about to yield has not been yielded in this pass |
| RippleBroadcast.MatrixBroadcast.constructor | src/matrix/ripple.mb.ts:29-130 | the strategy starts with the index built by _init, no resolved cells, level 1, the generator before its first pull, and nothing covered yet |
| RippleBroadcast.MatrixBroadcast.HasResolvedMinPointId | src/matrix/ripple.mb.ts:134-137 | a cell reported resolved is the cell of some known neighbour |
| RippleBroadcast.MatrixBroadcast.CurrentLevel | src/matrix/ripple.mb.ts:149-152 | the level is 1 exactly while the level-1 scan is under way, and 2 otherwise |
| RippleBroadcast.MatrixBroadcast.ResolvePoint | src/matrix/ripple.mb.ts:139-146 | an unknown point returns false and changes nothing. A known point adds its cell and no other, after which HasResolvedMinPointId holds for that cell, and returns the base controller's answer |
| RippleBroadcast.MatrixBroadcast.ResumeLevel2At | src/matrix/ripple.mb.ts:185-196 | the level-2 loops move the state as ResumeLevel2 says and append the yielded point to the pass trace |
| RippleBroadcast.MatrixBroadcast.YieldHead | src/matrix/ripple.mb.ts:171-180 | yields the first neighbour of the cell where the scan stopped, records it in finishedPds, and moves past the cell |
| RippleBroadcast.MatrixBroadcast.EnterLevel2 | src/matrix/ripple.mb.ts:183-196 | switches to level 2 and runs it from the first position |
| RippleBroadcast.MatrixBroadcast.ResumeLevel1At | src/matrix/ripple.mb.ts:161-183 | the level-1 loop moves the state as Resume says |
| RippleBroadcast.MatrixBroadcast.ResumePass | src/matrix/ripple.mb.ts:153-196 | resuming the pass moves the state as Resume says and keeps the class invariant: no point twice in a pass, at most one level-1 point per cell, the level matching the scan |
| RippleBroadcast.MatrixBroadcast.StartPass | src/matrix/ripple.mb.ts:156-159 | a pass starts at level 1 with no skip reference, an empty finishedPds and an empty coverage record |
| RippleBroadcast.MatrixBroadcast.RetryPass | src/matrix/ripple.mb.ts:156-197 | the do-while going round runs a fresh pass as RetrySpec says. A yield is the only entry of the new trace, and NoConvergence leaves the trace empty |
| RippleBroadcast.MatrixBroadcast.PullNext | src/matrix/ripple.mb.ts:153-198 | one pull moves the state exactly as PullSpec says and leaves the resolved cells alone. The point yielded is the last entry of the pass trace, which never repeats. A pull that continues the pass extends the trace by exactly that point. A pull adds only its own base-resolved points to the coverage record. A pull that starts a new pass leaves only its own base-resolved points there. So the sequence ends only when every neighbour was yielded in the last pass or was resolved by the base controller at some pull of that pass |

## Left out

- Geometry and floating point. The scores, cells and cell scores come from the two placement functions, as exact reals.
  - The model does not cover `makeVector`, `calcDistancePow2`, `calcAngle`, `minPoint`, `toNumber` or `toBigInt`.
  - It does not cover the `Math.sqrt`, `Math.SQRT2` and `Math.PI` normalisation, the grid size of 4, or the rounding of the float comparator.
  - `src/matrix/Point.ts` is not part of this model.
  - Exact reals cannot express NaN, and the source may produce it. If `calcAngle` of a zero vector is NaN, a cell's angle score is NaN. That would happen for the current node's own cell (lines 103-104), or for every cell when the start and end points share a cell (line 96). A NaN comparator result counts as 0 for `Array.prototype.sort`, and a NaN score makes the dominance test at lines 164-165 false. Whether this happens depends on `Point.ts`.
- `minPointCacheList` and the `point` / `minPoint` object fields. The model assumes a cell's `MinPointDetail` carries the same id it was grouped under. A yield returns the point's id.
- The base class `BaseMatrixBroadcast` (`src/matrix/mb.ts`) is not part of this model.
  - `super.resolvePoint`, `hasResolvedPoint` and `_rejectedPointIds.size > 0` become parameters (`delegated`, `baseResolved`, `rejectedNonEmpty`), taken as they stand at each call.
  - The class `RippleBroadcastMatrix` (lines 6-10) only names the strategy class and is left out.
- `onSkipMinPointId` (an `Evt` channel) becomes the appended log `skippedLog`. Subscribers are not modelled.
- The async generator machinery. Suspension at `yield` is an explicit cursor, and `finishedPds.add` after a resumed `yield` is done at the yield itself; no caller can observe the difference.
- Object identity. `Set<PointDetail>` and the `todoTasks` map compare objects, and the model compares values. The two agree under one assumption: the `toBigInt()` ids of the connected points are distinct. Line 49 iterates `connectedPoints.values()`, a collection declared in `src/matrix/mb.ts`, so the source itself does not guarantee this.
- RippleBroadcast.MatrixBroadcast.constructor: requires distinct neighbour ids, which the source does not check. The proofs do not need it. It is there so that comparing values agrees with the source's comparison of objects.
- RippleBroadcast.PullSpec: when a repeated pass yields nothing while the rejected set is still non-empty, the source loops forever inside that pull, because every later pass starts from the same state. The model stops and answers `NoConvergence` (cursor `Hung`) instead of diverging.
- RippleBroadcast.ScanLevel1Log: stated only for task lists without empty lists (the index never builds one, see `TodoTasksListsDistinct`). Its reference clause says only "some" resolved cell. `ScanLevel1Exact` states the exact reference and log for every task list.
- `src/views/Home.ts` (UI, rendering, persistence, random mesh generation, step harness) is not part of this model.
