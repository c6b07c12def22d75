# Skyline rectangle packer and memory-layout containers

A Dafny model of two parts of the Dear ImGui code in this repository, with proofs:

* the skyline bottom-left rectangle packer in `3rdparty/imgui/imstb_rectpack.h`: initialization, the search
  under both heuristics, the splice of a placed box into the skyline, and packing whole arrays;
* the containers that lay data out by hand: `ImVector`, `ImPool`, `ImChunkStream`, `ImStableVector` and the bit
  array range operation.

`dafny verify dfyconfig.toml` checks everything.

## How it is organized

The packer is modelled twice. `RectPacker.Context` is the code: nodes linked through `next` into an active list
and a free list, changed in place by loops, with `prev_link` as a `Link` (head of the list, or a node's `next`).
`PackerRuns` is a state machine on values: a skyline is a sequence of segments, `Legal` says which answers an
event may get, `After` the next state. Every method of `Context` is proved to be a step of the state machine, and
`Context.Valid` says that the calls made since initialization form a run, so each theorem about all runs is a
theorem about every sequence of calls on a context.

| file | contents |
|---|---|
| Arithmetic.dfy, IntBits.dfy | products and multiples of integers; bitwise operators on them |
| Skyline.dfy | skylines, the height of a column, maximum, area and waste over columns |
| FloorScan.dfy | the scan of `stbrp__skyline_find_min_y` and the meaning of its two results |
| Search.dfy | what the two heuristics select, compared with all integer positions |
| Splice.dfy | what placing a box does to the height of each column |
| PackerRuns.dfy | the state machine, what is accepted and where, safety of runs |
| NodeSupply.dfy, RunTotals.dfy, SnugRuns.dfy | nodes and areas over runs, and when columns beside a box are raised |
| RectPacker.dfy | the packer with linked nodes |
| Permutations.dfy, PackRects.dfy, PackCalls.dfy | sorting, packing and unsorting an array |
| Refusals.dfy | what becomes of boxes that were refused |
| ImVector.dfy, ImPool.dfy, ImChunkStream.dfy, ImStableVector.dfy, BitArray.dfy | the containers |

## What was found

* **The header's promise about node storage does not hold for all widths.** Lines 149-150 of `imstb_rectpack.h` say
  that rounding widths guarantees that the algorithm does not run out of nodes. Only the search rounds; the splice
  uses the given width, so a row of unit squares uses up the nodes if there are fewer nodes than columns (`RowRun`,
  under either heuristic). `CanTurnAwayIff` says exactly when that makes the packer refuse a box that fits, which is
  line 459 failing on `free_head` alone: there must be fewer nodes than columns, and the bin must be at least 2 high, or
  1 high with one rounded column left behind the row. `EnoughForMultiples` is what the promise is good for: widths that
  are multiples of the quantization.
* **The waste that `stbrp__skyline_find_min_y` reports can be too high**, because its else branch ignores that the
  first segment may start left of the window. `ScanWasteExactIff` says exactly when it is the true waste, and
  `ScanWasteCanBeTooHigh` and `BestFitNeedsExactScans` show an input where best-fit then picks a worse position.
  **But no run of the packer reaches such a skyline**: in every reachable state only the segment before the sentinel can
  be at height 0 (`GroundIsLast`, part of `WellFormed`), which makes every scan of the search exact. Hence
  `PlacementIsOptimal` holds for best-fit too: over all integer positions the choice is the lowest, then least
  wasteful, then leftmost.
* **A best-fit placement with rounded width can raise columns beside the box**, because the splice uses the given
  width. `PutIsExactIff` says when one placement does, and `CanRaiseBesideIff` in which bins and with which storage some
  run does: at least three nodes, more than three columns for each, three rows, and not ten columns (with three nodes),
  where only switching the rounding off and on again makes it possible. `AreaIsAlwaysExactIff` is the same for the
  conservation of area. Safety does not depend on it.
* A refusal is final, for larger boxes too, unless the rounding is switched off afterwards (`NotPackedStaysOut`).
* `IM_MEMALIGN` rounds to multiples of its second argument if and only if that is a power of two (`MemAlignRoundsIff`).
* Iterating an `ImChunkStream` whose last chunk was allocated with size 0 fails an assertion (`VisitAllIff`).

## Model

| member | source | states |
|---|---|---|
| Skyline.MaxOverIsMax | 3rdparty/imgui/imstb_rectpack.h:311-338 | the reference maximum over a window of columns is an upper bound and is attained |
| FloorScan.ScanMinY | 3rdparty/imgui/imstb_rectpack.h:291-339 | the height that the scan computes segment by segment is the greatest column height in the window, wherever the window starts |
| FloorScan.ScanWasteExactIff | 3rdparty/imgui/imstb_rectpack.h:309-337 | the computed waste never falls below the area between the floor and the skyline, and equals it if and only if a condition on the skyline holds |
| FloorScan.ScanWasteCanBeTooHigh | 3rdparty/imgui/imstb_rectpack.h:326-333 | a skyline and window for which the computed waste is 3 and the true waste 1 |
| FloorScan.ScanCannotOverflow | 3rdparty/imgui/imstb_rectpack.h:309-337 | in a bin of fewer than 2^30 unit squares every intermediate value of the scan is a signed 32-bit number and the waste stays below the start value 1 << 30, for left- and right-aligned windows |
| Search.RoundUpIsLeastMultiple | 3rdparty/imgui/imstb_rectpack.h:353-356 | the rounded width is the least multiple of the alignment that is not smaller |
| Search.RoundUpFitsIff | 3rdparty/imgui/imstb_rectpack.h:353-356 | rounding a width up stays within signed 32-bit numbers if and only if the width is at most 2^31 - 1 less the alignment |
| Search.BottomLeftIsOptimal | 3rdparty/imgui/imstb_rectpack.h:365-391 | the first lowest position among segment starts is the lowest, then leftmost, among all integer positions |
| Search.SlideToCandidate | 3rdparty/imgui/imstb_rectpack.h:393-408 | from any position on the lowest floor some position aligned left or right with a node is on the same floor with no more waste |
| Search.BestFitIsOptimal | 3rdparty/imgui/imstb_rectpack.h:376-440 | if the scans of the candidates are exact, the best-fit choice is least in (height, true waste, x) among all integer positions |
| Search.BestFitNeedsExactScans | 3rdparty/imgui/imstb_rectpack.h:326-333 | without that the best-fit choice can waste more than another candidate on the same floor |
| Search.BestFitStepKeeps | 3rdparty/imgui/imstb_rectpack.h:376-437 | the comparisons of the two best-fit passes keep the least candidate seen so far in (height, waste, x) |
| Splice.PutKeepsSkyline | 3rdparty/imgui/imstb_rectpack.h:464-506 | after a placement the skyline still starts at 0, increases strictly, stays within the bin height and ends in the untouched sentinel |
| Splice.PutHeights | 3rdparty/imgui/imstb_rectpack.h:475-499 | the height of every column after a placement: the top of the box over the raised columns, unchanged elsewhere |
| Splice.PutIsExactIff | 3rdparty/imgui/imstb_rectpack.h:475-499 | exactly the columns of the box are raised if and only if the box starts with a segment or reaches the next one |
| Splice.PutNeverLowers | 3rdparty/imgui/imstb_rectpack.h:464-499 | no placement lowers any column |
| PackerRuns.QuantizedAlignIsCeiling | 3rdparty/imgui/imstb_rectpack.h:253-262 | the alignment is the least number that, times the number of nodes, covers the width |
| PackerRuns.RoundingCannotOverflow | 3rdparty/imgui/imstb_rectpack.h:245-263 | in every reachable state of a bin narrower than 2^30, rounding any width below 2^30 stays within signed 32-bit numbers |
| PackerRuns.Init | 3rdparty/imgui/imstb_rectpack.h:265-288 | after initialization every column is empty, all given nodes are free, the heuristic is bottom-left, widths are rounded, and the invariant of every reachable state holds |
| PackerRuns.SelectsIfFits | 3rdparty/imgui/imstb_rectpack.h:347-459 | the search comes up with a position that has room for the box if and only if some integer position has |
| PackerRuns.EveryEventHasAnswer | 3rdparty/imgui/imstb_rectpack.h:347-462 | both searches end with a selection or with none, so that in every reachable state every event has an answer |
| PackerRuns.LegalIsDeterministic | 3rdparty/imgui/imstb_rectpack.h:347-462 | the state determines the answer to an event |
| PackerRuns.AcceptsIffFits | 3rdparty/imgui/imstb_rectpack.h:347-462 | under either heuristic a box is accepted if and only if a node is free and the rounded width fits at some integer position above the skyline, and it goes to the least such height |
| PackerRuns.HeuristicsAgree | 3rdparty/imgui/imstb_rectpack.h:370-441 | from states that differ only in the heuristic both accept the same boxes and place them at the same height |
| PackerRuns.PlacementIsOptimal | 3rdparty/imgui/imstb_rectpack.h:365-441 | in every reachable state bottom-left minimizes (height, x) and best-fit (height, true waste, x) over all integer positions |
| PackerRuns.BestFitDoesNotSplitGround | 3rdparty/imgui/imstb_rectpack.h:410-441 | best-fit never places a box inside a last segment at height 0, which keeps the inexact scans out of reach |
| PackerRuns.After | 3rdparty/imgui/imstb_rectpack.h:233-288 | every answered event leads to a well-formed state: the skyline invariant, ground only before the sentinel, one of the two alignments, no negative number of free nodes |
| PackerRuns.SettingsInForce | 3rdparty/imgui/imstb_rectpack.h:233-275 | after any run from initialization heuristic and alignment are those of the last call that set them, or bottom-left and the quantization if there was none |
| PackerRuns.PlacementFollowsSettings | 3rdparty/imgui/imstb_rectpack.h:154-172 | where a box goes after any run from initialization, over all integer positions, as the calls of the run decide: by default to the least (y, x) for its rounded width |
| PackerRuns.DisjointMeans | 3rdparty/imgui/imstb_rectpack.h:94-102 | boxes do not overlap if and only if they share no unit cell |
| PackerRuns.StepAvoids | 3rdparty/imgui/imstb_rectpack.h:459-499 | a new box is disjoint from every box that lies under the skyline |
| PackerRuns.StaysUnder | 3rdparty/imgui/imstb_rectpack.h:546-584 | a box under the skyline stays under it over every run and is disjoint from all boxes placed later |
| PackerRuns.RunIsSafe | 3rdparty/imgui/imstb_rectpack.h:94-117 | over every run all packed boxes lie in the bin, under the final skyline, and are pairwise disjoint |
| PackerRuns.RunsAreDeterministic | 3rdparty/imgui/imstb_rectpack.h:546-584 | the same events from the same state get the same answers |
| NodeSupply.EnoughForColumns | 3rdparty/imgui/imstb_rectpack.h:145-147 | with at least as many nodes as columns the alignment is 1 and a node is free in every reachable state |
| NodeSupply.EnoughForMultiples | 3rdparty/imgui/imstb_rectpack.h:149-150 | a node is free after every run whose widths are multiples of the quantization, under both heuristics, also if the bin width is no such multiple |
| NodeSupply.NotBesideStrip | 3rdparty/imgui/imstb_rectpack.h:410-441 | best-fit never puts such a box against the right edge of the bin off the multiples, because the last multiple to the left is at least as good |
| NodeSupply.RowRun | 3rdparty/imgui/imstb_rectpack.h:485-499 | under either heuristic, with fewer nodes than columns, a run of unit squares that uses up all nodes although widths are rounded |
| NodeSupply.TurnsAwayMeans | 3rdparty/imgui/imstb_rectpack.h:456-462 | a placement fails on the empty free list alone if and only if no node is free and the box fits at some integer position |
| NodeSupply.CanTurnAwayIff | 3rdparty/imgui/imstb_rectpack.h:149-150 | with which bins and storage some run ends in a state where a box that fits is refused for lack of a node: exactly if there are fewer nodes than columns, and the height is at least 2, or it is 1 and a rounded column is left behind as many unit squares as nodes, or it is 1 and the run may switch the rounding off |
| NodeSupply.RoomWithoutNodes | 3rdparty/imgui/imstb_rectpack.h:456-462 | what any reachable state without a free node and with room for a box says about the bin and the storage |
| NodeSupply.FreeListCanEmptyIff | 3rdparty/imgui/imstb_rectpack.h:245-263 | some run of a fresh packer finds the free list empty, whether a node is then needed or not, if and only if there are fewer nodes than columns |
| RunTotals.AreaIsConserved | 3rdparty/imgui/imstb_rectpack.h:449-499 | over every run the area under the skyline grows by at least the packed areas plus the true wastes, and by exactly that if and only if every placement raises only its own columns |
| RunTotals.RunIsSnug | 3rdparty/imgui/imstb_rectpack.h:475-499 | that is so for all runs with alignment 1 and for all bottom-left runs |
| RunTotals.AmpleRunIsSnug | 3rdparty/imgui/imstb_rectpack.h:145-147 | and for all runs with as many nodes as columns |
| RunTotals.PackedAreaFitsTheBin | 3rdparty/imgui/imstb_rectpack.h:94-117 | the packed areas of any run from a fresh bin sum to at most the area of the bin |
| SnugRuns.LooseStep | 3rdparty/imgui/imstb_rectpack.h:393-441 | what is around a box beside which columns are raised: best-fit is set, the box lies inside one segment, and its rounded right edge is the end of a higher segment further right |
| SnugRuns.LooseNeeds | 3rdparty/imgui/imstb_rectpack.h:353-441 | a placement that raises columns beside its box takes, in every reachable state, at least three nodes, more than three columns for each, and three rows |
| SnugRuns.PackedRisesFit | 3rdparty/imgui/imstb_rectpack.h:464-499 | while widths are rounded, wherever the skyline rises the higher segment, rounded up, lies in the bin; every placement keeps that |
| SnugRuns.TenColumnsAreSnug | 3rdparty/imgui/imstb_rectpack.h:393-441 | under that invariant no column beside a box is raised in a bin of ten columns |
| SnugRuns.LooseRun | 3rdparty/imgui/imstb_rectpack.h:393-441 | for every other such bin and storage, three boxes the last of which also raises columns beside it |
| SnugRuns.BestFitGoesTo | 3rdparty/imgui/imstb_rectpack.h:376-441 | best-fit puts a box at the position that no other integer position beats in (height, true waste, x) |
| SnugRuns.CanRaiseBesideIff | 3rdparty/imgui/imstb_rectpack.h:353-355 | with which bins and storage some run raises a column beside a box: exactly if there are at least three nodes, more than three columns for each node, and three rows, except in a bin of ten columns unless the rounding may be switched off |
| SnugRuns.AreaIsAlwaysExactIff | 3rdparty/imgui/imstb_rectpack.h:449-499 | with which bins and storage the area under the skyline is the packed areas plus the true wastes after every run: exactly all others |
| Refusals.RejectedIffRefuses | 3rdparty/imgui/imstb_rectpack.h:456-462 | a box is rejected if and only if no node is free or it fits at no integer position |
| Refusals.StepFits | 3rdparty/imgui/imstb_rectpack.h:456-499 | what fits after a step fitted before it, under either heuristic, unless the step switches the rounding off |
| Refusals.RefusesOn | 3rdparty/imgui/imstb_rectpack.h:456-499 | a state that refuses a box, for lack of a node or of room, leads only to states that refuse it, unless the rounding is switched off |
| Refusals.RefusesLarger | 3rdparty/imgui/imstb_rectpack.h:353-462 | a state that refuses a box refuses every box at least as wide and high |
| Refusals.NotPackedStaysOut | 3rdparty/imgui/imstb_rectpack.h:109-117 | a rectangle returned as not packed is not packed by any later call, nor is any larger one, whatever calls are made between them that do not switch the rounding off |
| RectPacker.Context.InitTarget | 3rdparty/imgui/imstb_rectpack.h:265-288 | links the storage into the free list and leaves a valid context in the initial state with the default heuristic, holding exactly the given nodes and the two extra ones |
| RectPacker.Context.SetAllowOutOfMem | 3rdparty/imgui/imstb_rectpack.h:245-263 | changes the alignment to 1 or to the quantization and nothing else |
| RectPacker.Context.SetHeuristic | 3rdparty/imgui/imstb_rectpack.h:233-243 | changes the heuristic and nothing else |
| RectPacker.Context.FindMinY | 3rdparty/imgui/imstb_rectpack.h:291-339 | the loop over nodes returns the maximum of the skyline over the window and the scanned waste, and follows no null link |
| RectPacker.Context.SearchLeft | 3rdparty/imgui/imstb_rectpack.h:365-391 | the left-aligned pass: the bottom-left selection, or a best-fit candidate no worse than any left-aligned one |
| RectPacker.Context.SearchRight | 3rdparty/imgui/imstb_rectpack.h:410-441 | the right-aligned pass: the best-fit selection among all candidates, or none exactly when no candidate fits |
| RectPacker.Context.FindBestPos | 3rdparty/imgui/imstb_rectpack.h:347-447 | returns what the heuristic selects, with its height and the link to the node under its left edge, or reports that there is nothing to select |
| RectPacker.Context.FreeCovered | 3rdparty/imgui/imstb_rectpack.h:485-492 | moves exactly the covered nodes to the free list, last one first |
| RectPacker.Context.SpliceIn | 3rdparty/imgui/imstb_rectpack.h:464-499 | the active list shows the skyline after the placement; both lists are acyclic and disjoint, hold the same nodes as before and end as they must |
| RectPacker.Context.PackRectangle | 3rdparty/imgui/imstb_rectpack.h:449-526 | one step of the state machine, with the node pool unchanged |
| RectPacker.SplicedApart | 3rdparty/imgui/imstb_rectpack.h:501-523 | no node is lost, duplicated or shared by the two lists, whatever number of nodes one splice frees |
| Permutations.SortedPermutationIsIdentity | 3rdparty/imgui/imstb_rectpack.h:572-573 | sorting the saved indices puts every element back where it was |
| Permutations.SortedArrangementsAgree | 3rdparty/imgui/imstb_rectpack.h:555-556 | two sorted arrangements of the same elements have equivalent elements at every position |
| PackRects.ComparatorsAreConsistent | 3rdparty/imgui/imstb_rectpack.h:528-544 | both comparators are consistent orders: taller then wider first, and by the saved index |
| PackRects.Sort | 3rdparty/imgui/imstb_rectpack.h:555-573 | the contract of the sort: a rearrangement that is in order |
| PackRects.UnsortRestoresOrder | 3rdparty/imgui/imstb_rectpack.h:550-573 | after the second sort each rectangle is at the index it came from |
| PackRects.PackRects | 3rdparty/imgui/imstb_rectpack.h:546-584 | the boxes are placed in sorted order by the state machine, and each result is at its rectangle's index with its flag; the status tells whether all were placed |
| PackCalls.TallestFirst | 3rdparty/imgui/imstb_rectpack.h:528-556 | the order in which a call places its rectangles: higher ones first, and wider ones first among equally high ones |
| PackCalls.EmptyIsAtOrigin | 3rdparty/imgui/imstb_rectpack.h:560-563 | a rectangle without width or without height is returned as packed at (0, 0) |
| PackCalls.OutputKeepsInput | 3rdparty/imgui/imstb_rectpack.h:546-584 | every index keeps its id, width and height, and `was_packed` is 0 exactly for rejected rectangles |
| PackCalls.StatusFromAnswers | 3rdparty/imgui/imstb_rectpack.h:575-583 | the status is 1 if and only if no rectangle was rejected |
| PackCalls.CallIsSafe | 3rdparty/imgui/imstb_rectpack.h:94-117 | the placed rectangles of one call lie in the bin and do not overlap |
| PackCalls.CallsAreApart | 3rdparty/imgui/imstb_rectpack.h:109-114 | what a later call returns as placed does not overlap what an earlier call did, whatever calls are made between them |
| PackCalls.AllCallsAreSafe | 3rdparty/imgui/imstb_rectpack.h:109-114 | all boxes recorded by the calls made on a context since initialization lie in the bin and do not overlap |
| PackCalls.SortDoesNotMatter | 3rdparty/imgui/imstb_rectpack.h:555-573 | sorts that order equal sizes differently give the same status, the same final state and the same sizes at the same positions |
| ImVectors.GrowCapacity | 3rdparty/imgui/imgui.h:2275 | the least capacity that is both enough and half as large again as the old one, or 8 at first |
| ImVectors.ImVector.Reserve | 3rdparty/imgui/imgui.h:2279 | keeps the contents; the buffer moves only when it grows, and that is when the elements are copied |
| ImVectors.ImVector.Resize | 3rdparty/imgui/imgui.h:2276 | cuts the contents or extends them at the end; the buffer moves only for a size above the capacity |
| ImVectors.ImVector.ResizeFill | 3rdparty/imgui/imgui.h:2277 | cuts the contents or extends them with copies of a value; the buffer moves only for a size above the capacity |
| ImVectors.ImVector.PushBack | 3rdparty/imgui/imgui.h:2283 | appends; the buffer moves only when it is full, and exactly then the elements are counted as copied |
| ImVectors.ImVector.Insert | 3rdparty/imgui/imgui.h:2289 | inserts at an offset, moving the rest up in place unless the buffer is full |
| ImVectors.ImVector.PushFront | 3rdparty/imgui/imgui.h:2285 | prepends, in place unless the buffer is full |
| ImVectors.ImVector.Erase | 3rdparty/imgui/imgui.h:2286 | removes one element, moving the rest down in place |
| ImVectors.ImVector.EraseRange | 3rdparty/imgui/imgui.h:2287 | removes a range |
| ImVectors.ImVector.EraseUnsorted | 3rdparty/imgui/imgui.h:2288 | the last element takes the place of the erased one and all others stay where they are |
| ImVectors.LastMovedRemovesOne | 3rdparty/imgui/imgui.h:2288 | putting the last element in the place of an erased one removes exactly that one |
| ImVectors.Find | 3rdparty/imgui/imgui.h:2291 | the first offset of a value, or the size |
| ImVectors.FindErase | 3rdparty/imgui/imgui.h:2294 | removes the first occurrence, all others staying in order, and tells whether there was one; the buffer stays |
| ImVectors.WithoutFirstRemovesOne | 3rdparty/imgui/imgui.h:2294 | removing the first occurrence takes one element out of the multiset, if there is one |
| ImVectors.FindEraseUnsorted | 3rdparty/imgui/imgui.h:2295 | puts the last element in the place of the first occurrence, all others staying where they are, and tells whether there was one; the buffer stays |
| ImVectors.PushesAreAmortized | 3rdparty/imgui/imgui.h:2275-2283 | n pushes onto an empty vector copy fewer than 4 n elements in all |
| ImVectors.PushedVectorCopiesFew | 3rdparty/imgui/imgui.h:2275-2283 | a vector that has only been pushed to has copied fewer than 4 elements for each one it holds |
| ImPools.ImPool.GetByKey | 3rdparty/imgui/imgui_internal.h:782 | the index of a live key's object, and -1 for every other key |
| ImPools.ImPool.GetOrAddByKey | 3rdparty/imgui/imgui_internal.h:785 | on keys and objects, adds the key if it is missing, at the head of the free list; no live key's index changes |
| ImPools.ImPool.Add | 3rdparty/imgui/imgui_internal.h:788 | takes the first free slot, or a new one if there is none |
| ImPools.ImPool.Remove | 3rdparty/imgui/imgui_internal.h:790 | on keys and objects, removes the key; no other key's index changes, and its slot becomes the head of the free list |
| ImPools.ImPool.SlotsArePartitioned | 3rdparty/imgui/imgui_internal.h:772-799 | live keys have different indices, every slot is either a key's or on the free list, and the free list ends at the buffer's size |
| ImPools.FollowChain | 3rdparty/imgui/imgui_internal.h:777-790 | following the links stored in dead slots visits the free list in order |
| ImChunkStreams.DecodeEncode | 3rdparty/imgui/imgui_internal.h:814-817 | a chunk size survives being written to and read from four bytes |
| ImChunkStreams.VisitAllIff | 3rdparty/imgui/imgui_internal.h:815-818 | iterating over the bytes visits exactly the allocated chunks in order and then ends, if and only if the last chunk is not empty |
| ImChunkStreams.ImChunkStream.AllocChunk | 3rdparty/imgui/imgui_internal.h:814 | appends one chunk, aligned and large enough; earlier chunks keep offsets and bytes |
| ImChunkStreams.WriteKeepsTiles | 3rdparty/imgui/imgui_internal.h:806-822 | writing to the contents of a chunk leaves all headers intact |
| ImStableVectors.ImStableVector.Reserve | 3rdparty/imgui/imgui_internal.h:751-762 | adds fresh blocks behind the existing ones, and only as many as needed |
| ImStableVectors.ImStableVector.Resize | 3rdparty/imgui/imgui_internal.h:750 | remaining elements keep their slots and values; blocks are added only if needed, and only as many as needed |
| ImStableVectors.ImStableVector.PushBack | 3rdparty/imgui/imgui_internal.h:765 | appends; all other elements keep their slots and values |
| ImStableVectors.ImStableVector.SlotsAreInOrder | 3rdparty/imgui/imgui_internal.h:763-764 | elements lie in order in each block, and the elements of one block size further on lie at the same position of the next block |
| ImStableVectors.ImStableVector.SlotsAreDistinct | 3rdparty/imgui/imgui_internal.h:763-764 | different indices are stored in different slots |
| IntBits.DigitsOfOperators | 3rdparty/imgui/imgui_internal.h:643-647 | the bitwise operators work on each binary digit by itself |
| IntBits.LowBits | 3rdparty/imgui/imgui_internal.h:643-647 | masking with one less than a power of two, complementing the mask, filling it, and shifting compute remainder, multiple, end of block, and quotient |
| IntBits.MemAlignIsLeastMultiple | 3rdparty/imgui/imgui_internal.h:283 | for every power of two the bitwise macro yields the least multiple that is not smaller |
| IntBits.MemAlignRoundsIff | 3rdparty/imgui/imgui_internal.h:283 | its results are multiples for every argument if and only if the alignment is a power of two |
| BitArrays.TestBitAt | 3rdparty/imgui/imgui_internal.h:635 | tells whether a bit is set, by the bitwise operations of the source |
| BitArrays.TestBitMeans | 3rdparty/imgui/imgui_internal.h:635 | bit n is the one of weight 2 to the n mod 32 in word n / 32 |
| BitArrays.SetBitRange | 3rdparty/imgui/imgui_internal.h:638-649 | sets the bits of the range and no others, for every range including empty ones, and ends |
| BitArrays.SetBitsSets | 3rdparty/imgui/imgui_internal.h:643-646 | the mask of one word sets exactly the bits between its two bounds |
| BitArrays.PositionArithmetic | 3rdparty/imgui/imgui_internal.h:643-647 | the bitwise operations that the loop performs on positions yield the offset in the word, the word, the word's last position and the start of the next word |

## Left out

- Machine integers: coordinates and sizes are unbounded integers. `ScanCannotOverflow` covers the arithmetic of the scan and `RoundUpFitsIff` the rounding of widths; container sizes close to 2^31 would overflow in the source.
- Negative box sizes, which the source neither rejects nor gives a meaning: boxes have non-negative width and height.
- `init_mode` of the context and the assertion in `stbrp_setup_heuristic`, which only guard against an uninitialized context; the heuristic is a boolean.
- RectPacker.Context.SearchLeft: the source has the two passes of the search, and the steps of the splice, inside one function each; here they are methods of their own.
- PackRects.Sort: the sort that the source takes from a macro is an insertion sort here; callers use only that it rearranges and orders.
- ImVectors.ImVector.Insert: the pointers that `insert` and the `erase` family return, which are the given offsets again; arguments that refer to the vector's own data, which the source forbids; raw allocation and destructors. New elements of `Resize` are unspecified, as in the source.
- ImPools.ImPool.GetByKey: the sorted storage behind `Map` is a mathematical map; iteration in its order is not modelled. Objects are reached by index instead of pointer, and the link in a dead slot is a constructor instead of overlaid memory.
- ImChunkStreams.ImChunkStream.AllocChunk: pointers are offsets into the buffer; what new memory holds is a parameter. The size header is stored least significant byte first; the source leaves the byte order to the machine.
- Copying, swapping, clearing and destroying containers, and `ImPool` objects added without a key.
- The operations that set or clear one bit, `ImSpan`, `ImSpanAllocator`, the float helpers and the widgets: their laws would be easy members, or their code is not in the headers.
