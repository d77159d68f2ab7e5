# Container packing engine — a Dafny model

The Streamlit container calculator in `app.py` packs boxes into shipping containers. The boxes are rotatable and the container size is fixed. This project models the engine behind the calculator:

- the `Item` record and its set of rotations;
- the `ContainerPackingEnv` class: its constructor, `reset`, `_add_new_container`, the fit test `_can_place`, the free-space update `_update_free_spaces`, and `step`, which does the best-fit search and opens a new container and retries when nothing fits;
- `run_packing_simulation`;
- the filter that sets aside items fitting the container in no orientation, before the run.

The modules follow the program's structure:

| file | module | what it holds |
|---|---|---|
| `sorting.dfy` | `Sorting` | Python's tuple order (`LexLess`), `list(set(...))` modelled as first-occurrence de-duplication, and a stable sort by key (Python's `sorted`). |
| `geometry.dfy` | `Geometry` | Axis-aligned cuboids `(x, y, z, w, d, h)`, containment, interior-disjointness, and the two sort keys. |
| `items.dfy` | `Items` | `Item`, its volume, its orientations (the six permutations, de-duplicated), turned copies, and the packing order (descending volume, then weight). |
| `containers.dfy` | `Containers` | One container as a value: free cuboids, placements, and the weight and volume accumulators. It also holds the fit test, the free-space update, the commit of one placement, and the container invariant. |
| `search.dfy` | `Search` | The candidates that `step` meets, defined in its scan order. It also holds the first-minimum fold (strict `<`), the retry over new containers (`Choose`), and the imperative scan (`BestFit` and its loop helpers). |
| `packing.dfy` | `Packing` | The class `ContainerPackingEnv`, whose fields the methods update in place, its invariant, and `RunPackingSimulation`. |
| `planner.dfy` | `Planner` | The oversized filter and the app's run: filter, build the environment with the default cap of 50 containers, run it. |

## How the model reads the source

**Numbers.** Dimensions and weights are modelled as exact reals.

**Containers.** A container is a Python dict that `step` changes in place. Here it is a `Container` value in the environment's `containers` field. Committing a placement replaces the value at the chosen index.

**Orientations.** `list(set(...))` of the six permutations is modelled as the permutations with later duplicates dropped, so the written order is kept. CPython's set order is not fixed by the language, so any fixed order is a modelling choice. The search tries orientations in this order.

**Free-space list.** The update ends with `sorted(list(set(...)))` over 6-tuples. A set of distinct tuples sorts to one list whatever order the set is enumerated in, so here the order of the set does not matter. `UpdateIndependentOfSetOrder` proves this.

**The run.** `run_packing_simulation` repeats `step` until nothing is left or a step fails. `Packing.Run` states the state this reaches as a function: each round takes the retry's choice and commits it, and the first round without a choice keeps the containers the retry opened. The method and the app's run are proved to end in exactly that state.

**The retry.** `step` calls itself after it opens a container. The model keeps that recursion, and it ends because each call adds a container and the cap bounds their number. A step that ends in the error has opened empty containers up to the cap first, as the source does. The message is `Tidak dapat menempatkan item dan kontainer baru tidak diizinkan.`

**The comment at `app.py:119`.** It says that cuboids lying wholly inside other cuboids are removed. The code on the next line removes only exact duplicates and cuboids without volume. The model follows the code. `ContainedCuboidKept` takes the free list left after one 5x5x5 item in a 10x10x10 container and places a second 5x5x5 item at `(5, 0, 0)`, where `step` puts it. The cuboid in front of the second item, `(5, 5, 0, 5, 5, 10)`, lies wholly inside the kept cuboid `(0, 5, 0, 10, 5, 10)`, and both stay in the list.

## Model

| member | source | states |
|---|---|---|
| Sorting.StableSortBy | app.py:62 | `sorted` returns a permutation of its input, of the same length. |
| Sorting.StableSortSorted | app.py:62 | After `sorted`, no element has a key smaller than an earlier element's key. |
| Sorting.StableSortStable | app.py:62 | `sorted` is stable: for every key, the elements with that key appear in their input order. |
| Sorting.DedupProperties | app.py:44 | Going through a set keeps exactly the input's elements, each once. |
| Sorting.SortedSetUnique | app.py:120 | Two duplicate-free lists, sorted by an injective key and holding the same elements, are equal. |
| Geometry.TupleKeyInjective | app.py:120 | Sorting whole 6-tuples compares every field, so two cuboids with equal keys are equal. |
| Items.Item.Volume | app.py:41 | `dx * dy * dz`. The lemma RotationKeepsVolume is stated over it. |
| Items.Item.Permutations | app.py:45-50 | The six triples in the order the source lists them. Their properties are stated by PermutationsAreRotations and RotationListed. |
| Items.Item.Orientations | app.py:44-51 | `list(set(...))` of the six triples, in first-occurrence order. Its properties are stated by OrientationsWellFormed, OrientationsComplete and the three count lemmas. |
| Items.Item.Rotated | app.py:136 | The copy with the orientation's extents and the original weight and name. Its properties are stated by RotationKeepsVolume and OrientedCopyPositive. |
| Items.PermutationsAreRotations | app.py:45-50 | Each of the six listed triples is a rearrangement of `(dx, dy, dz)`. |
| Items.OrientationsWellFormed | app.py:44-51 | Every orientation is a rearrangement of the item's extents. The orientations are pairwise distinct, number from 1 to 6, and start with `(dx, dy, dz)`. |
| Items.OrientationsComplete | app.py:44-51 | Every rearrangement of the extents is among the orientations. |
| Items.RotationListed | app.py:45-50 | Every rearrangement of the extents is one of the six listed triples. |
| Items.OrientationCountDistinct | app.py:44-51 | Three distinct extents give six orientations. |
| Items.OrientationCountPair | app.py:44-51 | Exactly two equal extents give three orientations. |
| Items.OrientationCountCube | app.py:44-51 | Three equal extents give one orientation. |
| Items.RotationKeepsVolume | app.py:136 | The turned copy `Item(*orientation, weight, name)` has the original's volume and weight. |
| Items.OrientedCopyPositive | app.py:136 | A turned copy of an item with positive extents has positive extents. |
| Items.PackingOrder | app.py:62 | `sorted(items, key=(-volume, -weight))`. Its properties are stated by PackingOrderCorrect. |
| Items.PackingKeyOrder | app.py:62 | Under the key `(-volume, -weight)`, `a` sorts no later than `b` exactly when `a` is larger by volume, or equal by volume and no lighter. |
| Items.PackingOrderCorrect | app.py:62 | The packing order is a permutation of the input. It is sorted by descending volume and then descending weight, and items with equal keys keep their input order. |
| Containers.EmptyContainer | app.py:77-82 | The record a new container starts as: the whole box free, nothing placed, both sums zero. EmptyContainerValid states that it meets the invariant. |
| Containers.NoCollision | app.py:93-99 | The collision loop passes exactly when the box is interior-disjoint from every placed box. |
| Containers.CanPlace | app.py:86-100 | `_can_place` holds exactly when the item fits the cuboid's extents on all three axes and its box is disjoint from every placed box. |
| Containers.RemoveFirst | app.py:104 | `list.remove` drops one occurrence of the cuboid and nothing else. |
| Containers.RemoveFirstNoDup | app.py:104 | In a duplicate-free list, the removed cuboid is gone afterwards and nothing new appears. |
| Containers.Residuals | app.py:108-117 | At most three cuboids: right of, in front of and above the placed item, each where the item leaves room on that axis. ResidualsInsideSpace states where they lie. |
| Containers.KeepWithVolume | app.py:120 | The filter keeps exactly the cuboids with all three extents positive. |
| Containers.UpdateFreeSpaces | app.py:102-120 | `_update_free_spaces`: remove the consumed cuboid, add the residuals, drop those without volume and duplicates, sort by tuple. Its properties are stated by UpdateFreeSpacesCorrect, UpdateIndependentOfSetOrder, ConsumedSpaceRemoved and FreeSpacesStayInBounds. |
| Containers.UpdateFreeSpacesCorrect | app.py:102-120 | A cuboid is in the new free list exactly when it has volume and is either left from the old list or one of the residuals. The list is sorted by the whole tuple and has no duplicates. |
| Containers.UpdateIndependentOfSetOrder | app.py:120 | Sorting any duplicate-free enumeration of the kept cuboids gives the same list. |
| Containers.ResidualsInsideSpace | app.py:108-117 | The right, front and top residuals lie inside the consumed cuboid and do not overlap the placed box. |
| Containers.ConsumedSpaceRemoved | app.py:102-120 | After a placement of positive extents, the consumed cuboid is no longer free. |
| Containers.FreeSpacesStayInBounds | app.py:102-120 | If every free cuboid lies inside the container, so does every cuboid after the update. |
| Containers.ContainedCuboidKept | app.py:119-120 | After a second 5x5x5 item is placed at `(5, 0, 0)` of a 10x10x10 container, where `step` puts it, the update keeps `(5, 5, 0, 5, 5, 10)`, which lies wholly inside the also kept `(0, 5, 0, 10, 5, 10)`. So the update does not remove contained cuboids. |
| Containers.Commit | app.py:148-157 | What `step` does to the chosen container: append the placement at the cuboid's origin, add the weight and volume, update the free list. CommitPreservesValid states that it keeps the invariant. |
| Containers.EmptyContainerValid | app.py:77-82 | A new container has the whole box free and nothing placed, and it meets the container invariant. |
| Containers.FreeValidAfterUpdate | app.py:157 | The update keeps the free list inside the container, sorted and duplicate-free. |
| Containers.PlacedValidAfterAppend | app.py:152 | A box inside the container and disjoint from every placed box keeps the placements inside and pairwise disjoint. |
| Containers.TotalsAfterAppend | app.py:153-154 | The weight and volume sums grow by the item's weight and volume. |
| Containers.CommitPreservesValid | app.py:147-157 | Committing an accepted placement, within the weight cap, keeps the container invariant. The invariant covers free cuboids, placements and accumulators. |
| Search.Score | app.py:142 | `(w - dx) + (d - dy) + z * 1.5` of the cuboid and the turned copy. |
| Search.SearchOrder | app.py:139 | Sorting by `(z, y, x)` keeps the number of free cuboids. |
| Search.SearchOrderSameSpaces | app.py:139 | Sorting by `(z, y, x)` keeps exactly the same free cuboids. |
| Search.SpaceCandidates | app.py:139-145 | The candidates the innermost loop meets, in its order. SpaceCandidatesExactly states which they are. |
| Search.OrientationCandidates | app.py:135-145 | The candidates the orientation loop meets, in its order. OrientationCandidatesExactly states which they are. |
| Search.ContainerCandidates | app.py:131-145 | One container's candidates, or none without weight headroom. ContainerCandidatesExactly states which they are. |
| Search.CandidatesUpTo | app.py:131-145 | The candidates of the first `n` containers, in scan order. CandidatesUpToExactly and CandidatesInContainerOrder state which they are and their order. |
| Search.AllCandidates | app.py:131-145 | Every candidate the scan of `step` meets, in order. AllCandidatesExactly states which they are. |
| Search.Better | app.py:143-145 | One step of the scan: the new candidate replaces the best so far only when there is none or it scores strictly lower. |
| Search.FirstMin | app.py:128-145 | The fold of Better over the candidates, starting from no candidate (`best_score = inf`). FirstMinIsFirstMinimum and BestFitIsMinimal state what it returns. |
| Search.SpaceCandidatesExactly | app.py:139-145 | The candidates met over the first `n` cuboids are exactly the fitting ones, each with its score. |
| Search.OrientationCandidatesExactly | app.py:135-145 | The candidates met over the first `n` orientations are exactly the turned copies that fit some free cuboid. |
| Search.ContainerCandidatesExactly | app.py:131-145 | The candidates in one container are exactly the triples it accepts. None exist when the item's weight would exceed the cap. |
| Search.CandidatesUpToExactly | app.py:131-145 | The candidates in the first `n` containers are exactly the accepted triples with a container index below `n`. |
| Search.AllCandidatesExactly | app.py:131-145 | The scan meets exactly the accepted triples. |
| Search.CandidatesInContainerOrder | app.py:131 | The scan meets candidates in order of container: all of container `i` before any of container `i + 1`. |
| Search.FirstMinIsFirstMinimum | app.py:128-145 | The strict-`<` fold gives nothing exactly on an empty scan. Otherwise it gives a candidate whose score no other candidate beats, and no earlier candidate has a score that low. |
| Search.BestFitIsMinimal | app.py:128-145 | The search gives nothing exactly when no triple is accepted. Otherwise it gives an accepted triple with a score no higher than any other accepted triple's. |
| Search.ChoiceIsCandidate | app.py:147-148 | The chosen triple is an accepted one. |
| Search.NoChoiceNoCandidate | app.py:160 | When the search gives nothing, no triple is accepted in any container. |
| Search.Choose | app.py:160-162 | The retry's choice names a container of the returned list and a free cuboid of that container. |
| Search.ChooseOutcome | app.py:160-165 | The retry keeps the given containers and appends only empty ones, never past the cap, and only when nothing fit before. It returns the first-found best triple of the final list, and gives up only at the cap. |
| Search.ChooseGrowth | app.py:160-162 | How the retry's container list relates to the given one: it only grows by empty containers, up to the cap. |
| Search.ChooseResult | app.py:160-165 | The retry's result is the search over the final list. It gives up only at the cap, and it grows the list only after a search that found nothing. |
| Search.ScanSpaces | app.py:139-145 | The loop over sorted free cuboids extends the candidates seen and keeps the first minimum of them. |
| Search.ScanOrientations | app.py:135-145 | The loop over orientations does the same for all free cuboids of each orientation. |
| Search.ScanOrientation | app.py:136-145 | One pass of that loop appends the candidates of one turned copy, in search order, and keeps the first minimum. |
| Search.ScanContainer | app.py:131-145 | One container's scan: skipped when the weight cap would be exceeded, otherwise all its orientations. |
| Search.BestFit | app.py:127-145 | The nested loops of `step` return the first minimum over all candidates in scan order. |
| Packing.ItemsOf | app.py:152 | The items of a container's placement records, position by position. |
| Packing.PackedAppendEmpty | app.py:77-82 | A new empty container adds no packed item. |
| Packing.PackedUpdate | app.py:152 | Replacing one container changes the packed items by that container's items only. |
| Packing.PackedAfterAppend | app.py:152 | Appending a placement record adds exactly its item to the packed items. |
| Packing.AllValidAfterCommit | app.py:147-157 | Committing an accepted triple keeps every container valid. |
| Packing.PlacedInOrderAppend | app.py:151-155 | Appending the turned copy of the next item keeps `placed_items` as turned copies of a prefix of `items`. |
| Packing.PlaceKeepsInvariant | app.py:147-157 | Committing an accepted triple for the head of `unplaced` keeps the environment invariant. The invariant covers valid containers, the cap, `unplaced` as the suffix after the placed items, and the containers holding exactly the placed items. |
| Packing.ContainerPackingEnv.constructor | app.py:58-65 | Stores the size and caps, sorts the items into packing order, and resets. The result has one empty container (none when the cap is not positive), every item unplaced, nothing placed, and the invariant. |
| Packing.ContainerPackingEnv.Reset | app.py:67-72 | Back to the state after construction, with the invariant. |
| Packing.ContainerPackingEnv.AddNewContainer | app.py:74-84 | Appends an empty container exactly when the number of containers is below the cap, and reports whether it did. Nothing else changes. |
| Packing.ContainerPackingEnv.Place | app.py:147-158 | Pops the head of `unplaced`, commits the triple to its container, appends the turned copy to `placed_items`, and keeps the invariant. |
| Packing.ContainerPackingEnv.Step | app.py:122-165 | With nothing unplaced: done and unchanged. Otherwise the result follows the retry's choice. It either commits that triple and reports a placement, or reports the error with only the new empty containers added. A step that is not done has placed exactly one more item. |
| Packing.ContainerPackingEnv.Stuck | app.py:160-165 | The error state: the cap is reached and no container accepts the head item. |
| Packing.Run | app.py:167-174 | The state reached by repeating the step's choice (Search.Choose, then Commit) until nothing is left or nothing fits. Items move only from the front of `unplaced`, in order, to the end of `placed`: the result keeps a suffix of `unplaced` and extends `placed` by as many items as it took. |
| Packing.RunPackingSimulation | app.py:167-174 | The final fields equal Run of the fields the simulation starts from, so the placements are exactly those of repeated steps. The invariant is kept, and the run ends with every item placed, or with the head item fitting nowhere and the cap reached. |
| Planner.FitsWithin | app.py:646 | `o[0] <= W and o[1] <= L and o[2] <= H`. |
| Planner.AnyFits | app.py:646 | `any(...)` holds exactly when some orientation fits within `(W, L, H)`. |
| Planner.IsPackable | app.py:646 | The filter's test on one item: some orientation fits. PackableIffSomeRotationFits states what it means. |
| Planner.PackableIffSomeRotationFits | app.py:646 | An item is kept exactly when some rearrangement of its extents fits the container. |
| Planner.PackableHasFittingRotation | app.py:646 | A kept item has a rearrangement of its extents that fits. |
| Planner.FittingRotationPackable | app.py:646 | An item with a rearrangement of its extents that fits is kept. |
| Planner.Select | app.py:642-649 | The items on one side of the filter, in input order. SelectPartition and SelectMembership state what they are. |
| Planner.SelectPartition | app.py:642-649 | The kept and the oversized items together are the input, each item as often as there. |
| Planner.SelectMembership | app.py:642-649 | An item is among the kept ones exactly when it is in the input and fits. It is among the oversized ones exactly when it is in the input and does not fit. |
| Planner.SplitOversized | app.py:642-649 | The loop builds both lists in input order. |
| Planner.PackableFitsEmpty | app.py:646 | A kept item within the weight cap is always accepted by an empty container. |
| Planner.Plan | app.py:642-653 | Filter, build with the default cap of 50, run. The oversized list is the rest of the input. The final environment is Run from one empty container over the kept items in packing order. Either everything kept is placed, or the head item fits nowhere and the cap is reached. |

## Left out

- The Streamlit interface is not modelled. This covers session state, the forms, the 3-D Plotly figures, the PDF and CSV reports, and the percentages and statistics drawn from the result. All of these are display, with no bearing on the placements.
- Expanding each item row into `quantity` copies (app.py:636-640) is not modelled. `Planner.Plan` takes the expanded list.
- The default name `Item_{dx}x{dy}x{dz}_{weight}kg` and `__repr__` are not modelled. Every item carries the name it was built with.
- The constructor's default arguments are not modelled, except the cap of 50 containers that the app relies on. The defaults are size `(10, 10, 10)`, an empty item list, and a weight cap of 3000.
- Floating point is not modelled. `float(...)` conversions, rounding and the infinite starting score are replaced by exact reals and by an `Option` for "no candidate yet".
- CPython's iteration order for the orientation set is not modelled. The model fixes first-occurrence order. Only the choice among equal-scored candidates can depend on this order.
- The oversized list keeps the items themselves, not the display string `"{name} ({dx}×{dy}×{dz} cm)"`.
- Aliasing between `best_fit` and the container dict it names is not modelled. The choice carries the container's index, and the commit writes that container back at the index.
- Packing.ContainerPackingEnv.constructor: requires every item to have positive extents. The app's item form guarantees at least 1.0 on each axis (app.py:571-573). Python's class itself accepts any numbers.
- Packing.ContainerPackingEnv.Reset: has the same positive-extents requirement as the constructor, which establishes it.
- Search.SearchOrder: its own contract states only the length. The contents are stated by Search.SearchOrderSameSpaces, and the order by Sorting.StableSortSorted.
