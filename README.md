# Sort visualisation engine, modelled in Dafny

The engine behind the sorting visualiser (`src/sorting/`) sorts an array of bars. Each
bar is a record with an integer `height` and four display flags: `current`, `current2`,
`pivot` and `sorted`. A shared base class (`sortViz.js`) provides the comparator, the
flag helpers, the snapshot copier and `init`. Four drivers build on it:

- bubble sort: a stepper (`sortNext`) and a one-shot `fullSort` that returns a history;
- insertion sort: a stepper only, which spreads each swap over two calls;
- merge sort: a recursive top-down sort that records snapshots into `arrayHistory`;
- quick sort: a recursive sort whose partition takes the pivot at `high` and scans the
  range from both ends.

## How the model is organised

- One module per source file:
  - `SortViz` (`sort_viz.dfy`);
  - `BubbleSort`, `InsertionSort`, `MergeSort` and `QuickSort` (one file each).
- A bar is the datatype `SortViz.Elem`. A snapshot (`copyArray`) is a `seq<Elem>`, and a
  history is a `seq<seq<Elem>>`.
- No element object is ever reachable from two indices of the live array, so value
  semantics are faithful:
  - swaps move references;
  - merge and the quick-sort pivot use spread copies.
- The drivers are classes over an `array<Elem>`.
- The base class's helpers are module-level methods over that array. The model has no
  inheritance.
- Each helper is proved against a function on the snapshot `a[..]`. For example,
  `SetCurrent` is proved against `WithMark`.

How each driver is specified:

- **Steppers (bubble and insertion).** One call of `sortNext` is the pure function
  `Step` on a `Stepper` value: the bars plus the cursor fields. The class method
  `SortNext` is proved to move its fields exactly as `Step` does. The stepper's
  promises are proved about `Step` and about `Run`, which calls `Step` until
  `hasNext` falls:
  - the invariant is kept;
  - heights are only rearranged;
  - the run terminates;
  - the result is sorted.
- **Recursive drivers (merge and quick).** Each is proved against functions that compute
  what it leaves and what it records:
  - merge sort: `MergeOrder`, `MergedRange`, `MergeSnapshots`, `SortRange` and `SortHistory`;
  - quick sort: `Scan`, `Partitioned`, `PartitionHistory`, `QuickRange` and `QuickHistory`.

  The sorting properties are then proved about these functions.

Two places where the source's text and its code differ:

- **`setPivot`.** `quickSortViz.js` calls `setPivot` (lines 102 and 138), but `sortViz.js`
  does not define it, so the first partition would throw. The model supplies
  `SortViz.SetPivot` with the contract of `setCurrent`, applied to the `pivot` flag.
- **Partition's two sides.** The comment on `partition` (`quickSortViz.js`, lines 93 and
  105-106) says that lower heights are placed before the returned index and greater ones
  after it.
  - The upper side holds as stated: every height after the index is strictly above the
    pivot (`QuickSort.PartitionSplits`).
  - The lower side holds only as "at most". A height equal to the pivot moves left
    (`leftIndex++`, lines 131-132), so it can stay before the index.
  - For example, `partition(0, 1)` on heights 1, 1 returns 1 and leaves the equal height
    at 0 (`QuickSort.PartitionTieExample`).
  - Quick sort still sorts, because both sides are sorted afterwards.

## Model

| member | source | states |
|---|---|---|
| SortViz.Compare | src/sorting/sortViz.js:46-54 | -1 exactly when the first height is lower, 0 exactly when the heights are equal, 1 exactly when the first is higher |
| SortViz.CompareIsAntisymmetric | src/sorting/sortViz.js:46-54 | comparing a bar with itself gives 0; swapping the arguments negates the result |
| SortViz.WithMark | src/sorting/sortViz.js:61-84 | after setting a flag at k, that flag holds at exactly index k and nowhere else (at no index when k is out of range); heights, `sorted` and the other flags are unchanged |
| SortViz.SetCurrent | src/sorting/sortViz.js:61-69 | the loop leaves `current` exactly at curIndex and changes nothing else (the array equals `WithMark(old, Current, curIndex)`) |
| SortViz.SetCurrent2 | src/sorting/sortViz.js:76-84 | the same as `SetCurrent`, for `current2` |
| SortViz.SetPivot | src/sorting/quickSortViz.js:102 | the helper that partition calls: `pivot` exactly at the given index, nothing else changed |
| SortViz.WithSorted | src/sorting/sortViz.js:91-101 | both currents cleared everywhere; `sorted` exactly on indices at most e; heights and `pivot` unchanged |
| SortViz.SetSorted | src/sorting/sortViz.js:91-101 | the loop leaves the array equal to `WithSorted(old, endIndex)` |
| SortViz.WithSortedReverse | src/sorting/sortViz.js:109-123 | indices at or after start become sorted with currents cleared; indices before start become unsorted and lose their currents only when clearCurrents holds (otherwise the currents are kept); heights and `pivot` unchanged |
| SortViz.SetSortedReverse | src/sorting/sortViz.js:109-123 | the loop leaves the array equal to `WithSortedReverse(old, startIndex, clearCurrents)` |
| SortViz.WithSortedSubset | src/sorting/sortViz.js:125-129 | `sorted` set on [start, end] with every other field kept; every other index unchanged |
| SortViz.SetSortedSubset | src/sorting/sortViz.js:125-129 | the loop leaves the array equal to `WithSortedSubset(old, startIndex, endIndex)`; the indices it writes must exist, as they must in the source |
| SortViz.FindCurrents | src/sorting/sortViz.js:135-150 | the scan returns an index flagged `current` (or -1 when there is none) and an index flagged `current2` but not `current` (or -1 when there is none) |
| SortViz.SwapCurrentsBody | src/sorting/sortViz.js:152-157 | the guarded body clears each flag and sets it again, so it gives back its input |
| SortViz.SwapCurrents | src/sorting/sortViz.js:134-158 | the array is unchanged |
| SortViz.CopyArray | src/sorting/sortViz.js:163-173 | the copy equals the live array element by element |
| SortViz.InitState | src/sorting/sortViz.js:20-27 | nothing sorted; `current` exactly at 1 and `current2` exactly at 0; heights and `pivot` kept |
| SortViz.Init | src/sorting/sortViz.js:20-27 | the base `init` leaves the array equal to `InitState(old)` |
| SortViz.WithCursors | src/sorting/bubbleSortViz.js:112-113 | `current` exactly at i and `current2` exactly at i - 1; heights, `sorted` and `pivot` kept |
| SortViz.SetCursors | src/sorting/bubbleSortViz.js:112-113 | the pair of calls leaves the array equal to `WithCursors(old, i)` |
| SortViz.Swapped | src/sorting/bubbleSortViz.js:118-119 | the two entries are exchanged and every other entry is kept |
| SortViz.SwapPermutes | src/sorting/bubbleSortViz.js:118-119 | exchanging two entries keeps the multiset of heights |
| SortViz.SettledIsFixedBySetSorted | src/sorting/sortViz.js:91-101 | `setSorted(e)` with e at least the last index changes nothing on an array that is already fully settled |
| SortViz.SortedPermutationUnique | src/sorting/sortViz.js:46-54 | two sorted arrays holding the same multiset of heights have equal height sequences |
| SortViz.WholeRange | src/sorting/mergeSortViz.js:60 | sorting the range [0, n - 1] sorts the whole array and keeps its multiset of heights |
| BubbleSort.Start | src/sorting/bubbleSortViz.js:5-10 | the constructor's state: the input bars and `hasNext` set; on two or more bars, the stepper invariant holds |
| BubbleSort.Step | src/sorting/bubbleSortViz.js:51-89 | one call keeps the number of bars and never increases `endIndex` |
| BubbleSort.StepKeepsInv | src/sorting/bubbleSortViz.js:51-89 | every call keeps the invariant: the suffix after `endIndex` is in order and nothing before it is higher; a maximum of the pass so far is under the cursors; once `hasNext` is false, the bars are sorted and settled |
| BubbleSort.SwapMovesMax | src/sorting/bubbleSortViz.js:59-61 | swapping an out-of-order pair keeps the placed suffix and carries the running maximum one place right |
| BubbleSort.PassCloses | src/sorting/bubbleSortViz.js:72-79 | a maximum of h[0..e] sitting at e moves the placed boundary down to e - 1 |
| BubbleSort.StepPermutes | src/sorting/bubbleSortViz.js:59-61 | every call keeps the multiset of heights |
| BubbleSort.StepMakesProgress | src/sorting/bubbleSortViz.js:51-89 | every call made while `hasNext` holds strictly lowers a natural-number measure |
| BubbleSort.StepWhenDoneIsIdle | src/sorting/bubbleSortViz.js:81-85 | once `hasNext` has fallen, a further call changes nothing |
| BubbleSort.Run | src/sorting/bubbleSortViz.js:51-89 | calling until `hasNext` falls terminates; the result keeps the invariant and the multiset of heights |
| BubbleSort.StepperSorts | src/sorting/bubbleSortViz.js:72-85 | on two or more bars, the stepper ends with the bars sorted, every bar marked sorted with no current flag, and the input's heights |
| BubbleSort.SwapStep | src/sorting/bubbleSortViz.js:59-65 | the out-of-order pair (innerIndex - 1, innerIndex) exchanges its heights and stays under the cursors; `endIndex`, `innerIndex` and `hasNext` are kept |
| BubbleSort.AdvanceStep | src/sorting/bubbleSortViz.js:68-71 | `innerIndex` goes up by one, with `current` exactly on it and `current2` exactly on the old index; heights, `endIndex` and `hasNext` are kept |
| BubbleSort.NextPassStep | src/sorting/bubbleSortViz.js:72-79 | `endIndex` goes down by one and `innerIndex` returns to 1; exactly the bars from the old `endIndex` on are marked sorted; heights are kept |
| BubbleSort.FinishStep | src/sorting/bubbleSortViz.js:81-85 | every bar is marked sorted with no current flag, `hasNext` falls, and heights are kept |
| BubbleSort.BubbleSortViz.constructor | src/sorting/bubbleSortViz.js:5-10 | the fields form `Start(input)`; on two or more bars the object is valid |
| BubbleSort.BubbleSortViz.SortNext | src/sorting/bubbleSortViz.js:51-89 | the fields and the array move exactly as `Step` says, and the invariant is kept |
| BubbleSort.BubbleSortViz.SwapPair | src/sorting/bubbleSortViz.js:59-65 | the swap branch: the out-of-order pair is exchanged and shown, and `innerIndex` stays |
| BubbleSort.BubbleSortViz.Advance | src/sorting/bubbleSortViz.js:68-71 | `innerIndex` goes up by one and the cursors follow it |
| BubbleSort.BubbleSortViz.NextPass | src/sorting/bubbleSortViz.js:72-79 | `endIndex` goes down by one, `innerIndex` returns to 1, and the suffix is marked sorted |
| BubbleSort.BubbleSortViz.Finish | src/sorting/bubbleSortViz.js:81-85 | everything is marked sorted with currents cleared, and `hasNext` falls |
| BubbleSort.BubbleSortViz.FullSort | src/sorting/bubbleSortViz.js:98-130 | the array ends sorted, fully settled and a permutation of the input; it equals `OuterPasses` of the post-`init` snapshot; the history is that snapshot followed by `OuterHistory`, every snapshot in order, and ends with the final array |
| BubbleSort.BubbleSortViz.Pass | src/sorting/bubbleSortViz.js:106-124 | one inner pass leaves the array equal to `PassFrom(old, 1, e)` and records exactly `PassHistory(old, 1, e)`; it keeps the heights' multiset, leaves a maximum of [0, e] at e, and its last snapshot is the array |
| BubbleSort.BubbleSortViz.PassTurn | src/sorting/bubbleSortViz.js:106-123 | one turn of the inner loop keeps the loop's record: the array and the snapshots so far, followed by the rest of the pass, give the whole pass |
| BubbleSort.BubbleSortViz.CompareAndSwap | src/sorting/bubbleSortViz.js:107-123 | the array becomes `PairStep(old, i)` and the snapshots are `PairSnapshots(old, i)`: one, or two when the pair was swapped; it keeps the multiset and carries the running maximum to i |
| BubbleSort.PairStep | src/sorting/bubbleSortViz.js:107-122 | only i - 1 and i change position: they are exchanged exactly when the left height is higher, with `current` at i and `current2` at i - 1; every other bar only loses its cursors |
| BubbleSort.PairSnapshots | src/sorting/bubbleSortViz.js:112-122 | one snapshot of the shown pair, and a second (the swapped pair) exactly when the left height is higher; the last is `PairStep` |
| BubbleSort.PassFrom | src/sorting/bubbleSortViz.js:106-123 | the inner loop from i to e; it keeps the number of bars |
| BubbleSort.PassHistory | src/sorting/bubbleSortViz.js:106-123 | the inner loop from i to e records at least one snapshot per pair, and the last is the array the pass leaves |
| BubbleSort.OuterPasses | src/sorting/bubbleSortViz.js:105-127 | the outer loop from boundary e down to 0; it keeps the number of bars |
| BubbleSort.OuterHistory | src/sorting/bubbleSortViz.js:105-127 | the outer loop's snapshots: none exactly when the boundary is below 0 (an empty array), since every pass records at least its settling snapshot |
| BubbleSort.PairKeepsPass | src/sorting/bubbleSortViz.js:107-122 | one turn keeps the pass invariant, moving the running maximum to i, and keeps the multiset |
| BubbleSort.PassFromKeeps | src/sorting/bubbleSortViz.js:106-123 | a whole pass leaves a maximum of [0, e] at e, keeps the placed suffix and keeps the multiset |
| BubbleSort.OuterPassesSort | src/sorting/bubbleSortViz.js:105-127 | the outer passes from e down leave every bar placed and settled, and keep the multiset |
| BubbleSort.FullSortSorts | src/sorting/bubbleSortViz.js:98-130 | what `fullSort` computes is sorted, has every bar sorted with no current flag, and holds the input's heights |
| BubbleSort.PassesFromScratch | src/sorting/bubbleSortViz.js:101-127 | the passes run from the post-`init` state end sorted, settled and with the input's heights |
| BubbleSort.NothingPlacedYet | src/sorting/bubbleSortViz.js:105 | the outer invariant holds before the first pass, with the boundary at the last index |
| BubbleSort.AllPlaced | src/sorting/bubbleSortViz.js:105 | when the outer loop exits (boundary -1), the bars are sorted and all settled |
| BubbleSort.PassStarts | src/sorting/bubbleSortViz.js:106 | the inner loop's record holds before its first turn |
| BubbleSort.PassRecords | src/sorting/bubbleSortViz.js:106-123 | one turn moves the record forward: the array and snapshots so far, followed by the rest of the pass, still give the whole pass |
| BubbleSort.PassDone | src/sorting/bubbleSortViz.js:106-123 | when the inner loop exits, the array is the whole pass and the snapshots are all of its snapshots |
| BubbleSort.OuterRecords | src/sorting/bubbleSortViz.js:105-127 | a pass followed by `setSortedReverse(e, true)` and its snapshot moves the outer loop's record forward |
| BubbleSort.SwapKeepsPass | src/sorting/bubbleSortViz.js:117-122 | the swap keeps the outer invariant and carries the running maximum to i |
| BubbleSort.PassAdvances | src/sorting/bubbleSortViz.js:106-124 | an in-order pair carries the running maximum to i |
| BubbleSort.PassEnds | src/sorting/bubbleSortViz.js:125-126 | at the end of pass e, `setSortedReverse(e, true)` leaves the suffix from e placed, marked sorted and free of currents |
| BubbleSort.ModesAgree | src/sorting/bubbleSortViz.js:98-130 | `fullSort`'s result (`OuterPasses` of the post-`init` state) and the stepper run to the end on the same input have the same heights in the same order; both have every bar sorted with no current flag |
| InsertionSort.Start | src/sorting/insertionSortViz.js:5-12 | the constructor's state: the input bars, `hasNext` set, no swap pending, `innerIndex == kSwapIndex - 1`, and the invariant holds |
| InsertionSort.Step | src/sorting/insertionSortViz.js:38-91 | one call keeps the number of bars |
| InsertionSort.FinishSwapStep | src/sorting/insertionSortViz.js:46-61 | the call after a swap moves no bar: `prevSwap` falls, `innerIndex` and `kSwapIndex` go down by one, `current` is exactly at the new `kSwapIndex` and `current2` just before it |
| InsertionSort.SwapStep | src/sorting/insertionSortViz.js:62-71 | the heights at `kSwapIndex` and `innerIndex` are exchanged and `prevSwap` is set; the indices stay |
| InsertionSort.SettleStep | src/sorting/insertionSortViz.js:73-84 | exactly [0, outerIndex] is marked sorted; `outerIndex` goes up by one, `kSwapIndex` follows it and `innerIndex` takes the old `outerIndex`; heights are kept |
| InsertionSort.DoneStep | src/sorting/insertionSortViz.js:86-88 | only `hasNext` falls; the bars and every index are kept |
| InsertionSort.StepKeepsShape | src/sorting/insertionSortViz.js:38-91 | every call keeps the cursor ranges, including `innerIndex == kSwapIndex - 1` |
| InsertionSort.StepKeepsInv | src/sorting/insertionSortViz.js:38-91 | every call keeps the invariant: within a pass, the element being inserted splits the ordered prefix; past the last pass, the bars are sorted and flagged as the last pass left them |
| InsertionSort.SwapMovesDown | src/sorting/insertionSortViz.js:62-68 | swapping the inserted element with a larger left neighbour moves it one place down and keeps the insertion invariant |
| InsertionSort.InsertionCloses | src/sorting/insertionSortViz.js:73-84 | an inserted element that is not below its left neighbour leaves h[0..outerIndex] in order |
| InsertionSort.StepPermutes | src/sorting/insertionSortViz.js:62-66 | every call keeps the multiset of heights |
| InsertionSort.StepMakesProgress | src/sorting/insertionSortViz.js:38-91 | every call made while `hasNext` holds strictly lowers a lexicographic measure |
| InsertionSort.StepWhenDoneIsIdle | src/sorting/insertionSortViz.js:86-88 | once `hasNext` has fallen, a further call changes nothing |
| InsertionSort.PastEndOnlyStops | src/sorting/insertionSortViz.js:86-88 | with `outerIndex` past the last index, a call only lowers `hasNext` |
| InsertionSort.ShortInputStopsAtOnce | src/sorting/insertionSortViz.js:39 | on fewer than two bars, the first call only lowers `hasNext` |
| InsertionSort.Run | src/sorting/insertionSortViz.js:38-91 | calling until `hasNext` falls terminates; the result keeps the invariant and the multiset of heights |
| InsertionSort.StepperSorts | src/sorting/insertionSortViz.js:38-91 | the stepper ends with the bars sorted and holding the input's heights; on two or more bars, every bar is sorted, none is `current`, and only the last is `current2` |
| InsertionSort.PrefixSortedBetweenInsertions | src/sorting/insertionSortViz.js:18-36 | between insertions (no swap pending, `kSwapIndex == outerIndex`), the bars before `outerIndex` are in order |
| InsertionSort.InsertionSortViz.constructor | src/sorting/insertionSortViz.js:5-12 | the fields form `Start(input)`, and the object is valid |
| InsertionSort.InsertionSortViz.SortNext | src/sorting/insertionSortViz.js:38-91 | the fields and the array move exactly as `Step` says, and the invariant is kept |
| InsertionSort.InsertionSortViz.FinishSwap | src/sorting/insertionSortViz.js:46-61 | the call after a swap moves no bar: `prevSwap` falls, both indices go down by one and the cursors follow |
| InsertionSort.InsertionSortViz.SwapPair | src/sorting/insertionSortViz.js:62-71 | exactly `array[kSwapIndex]` and `array[innerIndex]` are exchanged, and `prevSwap` is set |
| InsertionSort.InsertionSortViz.Settle | src/sorting/insertionSortViz.js:73-84 | [0, outerIndex] is marked sorted and the rest unsorted; `outerIndex` goes up and the other cursors are reset |
| MergeSort.MergeOrder | src/sorting/mergeSortViz.js:107-127 | the walk takes right - j + 1 + mid - i + 1 indices, each from one of the two halves |
| MergeSort.Order | src/sorting/mergeSortViz.js:102-127 | merge takes right - left + 1 indices, all inside the array |
| MergeSort.MergedFrom | src/sorting/mergeSortViz.js:129-133 | the copy-back puts the bar taken t-th at left + t, marked sorted with its height kept; every other bar only loses `current` |
| MergeSort.MergedRange | src/sorting/mergeSortViz.js:102-133 | the snapshot `merge(left, mid, right)` leaves has as many bars as the array |
| MergeSort.Marks | src/sorting/mergeSortViz.js:109-117 | one snapshot per comparison, c of them |
| MergeSort.Compared | src/sorting/mergeSortViz.js:107-118 | at most as many comparisons as indices taken; none exactly when a half starts empty |
| MergeSort.MergePermutes | src/sorting/mergeSortViz.js:107-127 | the heights taken are those of both halves, each as often as it occurs |
| MergeSort.MergeSorts | src/sorting/mergeSortViz.js:107-127 | two ascending halves are taken in ascending order |
| MergeSort.MergeIsStable | src/sorting/mergeSortViz.js:108-111 | with the left half in order, of two entries with the same height, the one at the lower index is taken first |
| MergeSort.Taken | src/sorting/mergeSortViz.js:109-113 | the t-th bar pushed is a copy of the bar at order[t], with `current` cleared from the second one on |
| MergeSort.MergeSnapshots | src/sorting/mergeSortViz.js:117-134 | merge records one snapshot per comparison and one after the copy-back, which is the merged array |
| MergeSort.MergedHeights | src/sorting/mergeSortViz.js:130-133 | the copy-back leaves the heights outside [left, right] alone and puts the taken heights inside |
| MergeSort.MergeHeightsSorts | src/sorting/mergeSortViz.js:90-133 | two ascending halves merge into [left, right] ascending with the same heights, and the rest untouched |
| MergeSort.MergedRangeHeights | src/sorting/mergeSortViz.js:90-133 | the heights of the snapshot merge leaves are the merged heights |
| MergeSort.MergeMarksRange | src/sorting/mergeSortViz.js:130-133 | every copied-back bar is marked sorted; if no bar was `current` before, none is after |
| MergeSort.Middle | src/sorting/mergeSortViz.js:74 | the split point lies in [left, right) when left < right, so the recursion terminates |
| MergeSort.SortRange | src/sorting/mergeSortViz.js:71-82 | `mergesort(left, right)` leaves [left, right] ascending with the same heights and the rest untouched; it keeps "no current flag"; it marks a range of two or more sorted |
| MergeSort.SortHistory | src/sorting/mergeSortViz.js:71-82 | `mergesort(left, right)` records nothing exactly when the range has fewer than two bars |
| MergeSort.HalvesThenMergeSorts | src/sorting/mergeSortViz.js:76-80 | sorting both halves and merging them sorts the range |
| MergeSort.SortNothing | src/sorting/mergeSortViz.js:73 | a range of fewer than two bars is left alone and records nothing |
| MergeSort.SortHistoryEnds | src/sorting/mergeSortViz.js:60 | a range of two or more records at least two snapshots, the last of them the sorted range; a shorter range records none |
| MergeSort.SortSettles | src/sorting/mergeSortViz.js:130-134 | sorting a whole array of two or more bars with no current flag leaves every bar settled |
| MergeSort.MarkTwice | src/sorting/mergeSortViz.js:110-114 | a second `setCurrent` overrides the first |
| MergeSort.MergeSortViz.constructor | src/sorting/mergeSortViz.js:5-8 | the array is the input and the history is empty |
| MergeSort.MergeSortViz.Init | src/sorting/mergeSortViz.js:30-34 | only `setSorted(-1)`: nothing sorted, no current flag |
| MergeSort.MergeSortViz.FullSort | src/sorting/mergeSortViz.js:43-62 | the array ends sorted and a permutation of the input; the history is `SortHistory` of the initialised array; on two or more bars, everything is settled and the last snapshot is the final array |
| MergeSort.MergeSortViz.MergeSortRange | src/sorting/mergeSortViz.js:71-82 | the array becomes `SortRange(old, left, right)` and the history grows by `SortHistory(old, left, right)` |
| MergeSort.MergeSortViz.Merge | src/sorting/mergeSortViz.js:90-135 | the array becomes `MergedRange(old, left, mid, right)` and the history grows by `MergeSnapshots` |
| MergeSort.MergeSortViz.Gather | src/sorting/mergeSortViz.js:102-127 | the scratch buffer ends with exactly right - left + 1 bars, taken in merge order; one snapshot is recorded per comparison |
| MergeSort.MergeSortViz.Walk | src/sorting/mergeSortViz.js:102-118 | the first loop stops when one half is used up, after one step per comparison, with the bars taken so far in merge order |
| MergeSort.MergeSortViz.TakeSmaller | src/sorting/mergeSortViz.js:107-117 | one step pushes the lower head (the left one on a tie), marks it current and records a snapshot |
| MergeSort.MergeSortViz.Drain | src/sorting/mergeSortViz.js:120-127 | the remainder loops complete the buffer in merge order, with no snapshot |
| MergeSort.MergeSortViz.CopyBack | src/sorting/mergeSortViz.js:130-133 | the buffer's bars land on [left, right], each marked sorted; every other index is unchanged |
| MergeSort.CopiedBackMerges | src/sorting/mergeSortViz.js:129-133 | the array after the copy-back is the merged snapshot |
| MergeSort.MergeHistory | src/sorting/mergeSortViz.js:117-134 | merge's recorded snapshots are its comparison snapshots, then the merged one |
| QuickSort.Pointed | src/sorting/quickSortViz.js:111-112 | `current` exactly at l and `current2` exactly at r; everything else kept |
| QuickSort.ScanStep | src/sorting/quickSortViz.js:110-135 | one pass moves exactly one of the two indices one place towards the other |
| QuickSort.Scan | src/sorting/quickSortViz.js:107-136 | the scan loop terminates with the two indices equal, inside the range it started with |
| QuickSort.ScanHistory | src/sorting/quickSortViz.js:135 | the scan records one snapshot per pass, r - l of them |
| QuickSort.ScanKeeps | src/sorting/quickSortViz.js:109-133 | the scan keeps its invariant: the range is a rearrangement; heights before l are at most the pivot; heights after r are above it; unless r is still at its start, one of h[l], h[r] is above it |
| QuickSort.Scanned | src/sorting/quickSortViz.js:100-136 | partition's scan stops at an index in [low, high) |
| QuickSort.Settled | src/sorting/quickSortViz.js:138-152 | the end of partition returns r (after moving the pivot there) or high |
| QuickSort.Shown | src/sorting/quickSortViz.js:138-140 | after the scan, no bar is the pivot, `current` is exactly at high and `current2` exactly at r; heights and `sorted` are kept |
| QuickSort.SettledHistory | src/sorting/quickSortViz.js:141-148 | the end of partition records the shown array, then the settled one exactly when the pivot moved; the last is the array it leaves |
| QuickSort.PartitionHistory | src/sorting/quickSortViz.js:103-148 | partition records at least two snapshots, the first being the array with the pivot flag at high |
| QuickSort.Partitioned | src/sorting/quickSortViz.js:98-153 | `partition(low, high)` returns an index in [low, high] |
| QuickSort.PartitionSplits | src/sorting/quickSortViz.js:98-153 | after partition, the range holds the same heights and the rest is untouched; the pivot height is at pi; every height before pi is at most the pivot and every height after it is strictly above |
| QuickSort.PartitionFlags | src/sorting/quickSortViz.js:98-153 | outside [low, high], partition only clears the flags; the bar left at pi is the pivot, a copy taken before `setPivot(high)` when it moved |
| QuickSort.PartitionHistoryShape | src/sorting/quickSortViz.js:103-148 | partition records one snapshot for `setPivot`, one per pass of the scan, one after the scan and one more when the pivot moves; the last is the partitioned array |
| QuickSort.PartitionTieExample | src/sorting/quickSortViz.js:131-132 | `partition(0, 1)` on heights 1, 1 returns 1 and leaves a height equal to the pivot before it |
| QuickSort.PartitionExample | src/sorting/quickSortViz.js:98-153 | partition(0, 3) on heights 5, 3, 8, 1 returns 0 and leaves heights 1, 3, 8, 5 |
| QuickSort.PivotFixed | src/sorting/quickSortViz.js:81-83 | both cursors cleared everywhere and the bar at pi marked sorted; heights kept |
| QuickSort.Placed | src/sorting/quickSortViz.js:80-83 | placing the pivot keeps the heights partition left |
| QuickSort.QuickRange | src/sorting/quickSortViz.js:77-89 | `quicksort(low, high)` leaves [low, high] ascending with the same heights and the rest untouched |
| QuickSort.QuickHistory | src/sorting/quickSortViz.js:77-89 | `quicksort(low, high)` records nothing exactly when the range has fewer than two bars |
| QuickSort.QuickCombines | src/sorting/quickSortViz.js:86-87 | a split at pi followed by sorting both sides sorts the range |
| QuickSort.HistoryEndsSorted | src/sorting/quickSortViz.js:77-89 | the last snapshot quicksort(low, high) records, for low < high, is the array it leaves |
| QuickSort.QuickNothing | src/sorting/quickSortViz.js:78 | quicksort on fewer than two bars leaves them alone and records nothing |
| QuickSort.InitSetsNoCursor | src/sorting/quickSortViz.js:30-34 | quick sort's `init` leaves no current flag, whereas the base `init` sets `current` at 1 and `current2` at 0 |
| QuickSort.QuickSortViz.constructor | src/sorting/quickSortViz.js:5-8 | the array is the input and the history is empty |
| QuickSort.QuickSortViz.Init | src/sorting/quickSortViz.js:30-34 | only `setSorted(-1)`: nothing sorted, no current flag |
| QuickSort.QuickSortViz.FullSort | src/sorting/quickSortViz.js:62-67 | the array ends sorted, a permutation of the input, and fully settled; the history is `QuickHistory` of the initialised array followed by the final array |
| QuickSort.QuickSortViz.QuickSortRange | src/sorting/quickSortViz.js:77-89 | the array becomes `QuickRange(old, low, high)` and the history grows by `QuickHistory(old, low, high)` |
| QuickSort.QuickSortViz.FixPivot | src/sorting/quickSortViz.js:81-84 | the array becomes `PivotFixed(old, pi)` and one snapshot is recorded |
| QuickSort.QuickSortViz.Partition | src/sorting/quickSortViz.js:98-153 | the array and the returned index are `Partitioned(old, low, high)`, and the history grows by `PartitionHistory` |
| QuickSort.QuickSortViz.ScanLoop | src/sorting/quickSortViz.js:107-136 | the loop ends where `Scan` ends, with the indices met, having recorded `ScanHistory` |
| QuickSort.QuickSortViz.ScanOnce | src/sorting/quickSortViz.js:110-135 | one pass moves the array and the indices as `ScanStep` does, and records one snapshot |
| QuickSort.QuickSortViz.Settle | src/sorting/quickSortViz.js:138-152 | the end of partition moves the array and returns the index as `Settled` does, recording `SettledHistory` |
| QuickSort.PartitionRecords | src/sorting/quickSortViz.js:98-153 | the pivot snapshot, the scan loop and the end of partition together give `Partitioned` and `PartitionHistory` |
| QuickSort.QuickSteps | src/sorting/quickSortViz.js:80-87 | the partition, the placing of the pivot and the two recursive calls together give `QuickRange` and `QuickHistory` |

## Left out

- The user interface: `src/components/` and `src/App.js`. This covers:
  - React state, playback timers and random array generation;
  - size validation and rendering;
  - the floating-point height normalisation.

  Heights are unbounded integers. The array-size rule (1 to 99 bars) is not needed by any
  contract and is not imposed.
- `printAlgorithm` in each driver. It returns a constant string and has no behaviour.
- The base `sortNext`. It is an empty placeholder; merge and quick sort have no stepper.
- The return value of `init` and `sortNext`. It is the live array itself, which in the model is `arr`.
- The `hasNext` getter only reads `bHasNext`. It is modelled as the public field `hasNext` of the two stepper classes.
- `compareProp`. The application always passes `"height"`, so `Compare` compares heights.
- Insertion sort has no `fullSort`. The application's call of `sort.fullSort()` on an
  insertion driver would fail, and that call is not part of this model.
- QuickSort.QuickSortViz.FullSort: the source pushes the live array, not a copy, as the
  last history entry. The model records its value at that moment, so later changes to the
  array through the shared reference are not captured. `fullSort` makes no such change
  before it returns.
- MergeSort.MergeSortViz.Merge: `merge` returns at once when `left === right`. The model
  requires `left <= mid < right`, because `mergesort` only calls it when `right > left`.
  That guard is unreachable from the driver.
- BubbleSort.BubbleSortViz.SortNext: it requires at least two bars. On a single bar the
  source reads `array[1]`, which does not exist.
- QuickSort.QuickSortViz.Partition: in the source, `partition` throws at
  `quickSortViz.js` line 102, because `setPivot` is not defined in `sortViz.js`. The model
  runs past that point with `SortViz.SetPivot` supplied. So what it states about
  `partition`, and through it about quick sort's `fullSort`, is the evidently intended
  behaviour, not the throw.
- Integer width. JavaScript numbers are doubles, but heights and indices here are small
  integers, so they are modelled as unbounded `int`.
