/**
 * The insertion sort driver (insertionSortViz.js): a stepper only. Each swap is spread
 * over two calls of `sortNext`: the call that swaps sets `prevSwap`, and the next one
 * moves the cursors down.
 *
 * As for bubble sort, one step is specified by the pure function `Step` on a `Stepper`
 * value, the class method `SortNext` is proved to move its fields exactly as `Step`
 * says, and the stepper's promises are proved about `Step` and `Run`.
 */
module InsertionSort {
  import opened SortViz

  // ---------------------------------------------------------------------------
  // The insertion-sort invariant, on heights

  /**
   * The element being inserted sits at `pos` within h[0..o]: the entries before it are in
   * order, the entries after it (up to o) are in order and strictly above it, and nothing
   * before it is above anything after it.
   */
  predicate Inserting(h: seq<int>, pos: int, o: int)
    requires 0 <= pos <= o < |h|
  {
    && AscendingRange(h, 0, pos)
    && AscendingRange(h, pos + 1, o + 1)
    && (forall p, q :: 0 <= p < pos < q <= o ==> h[p] <= h[q])
    && (forall q :: pos < q <= o ==> h[pos] < h[q])
  }

  /** Swapping the inserted element with a larger left neighbour moves it one place down. */
  lemma SwapMovesDown(h: seq<int>, pos: int, o: int)
    requires 0 < pos <= o < |h| && Inserting(h, pos, o) && h[pos] < h[pos - 1]
    ensures Inserting(h[pos := h[pos - 1]][pos - 1 := h[pos]], pos - 1, o)
  {
    var g := h[pos := h[pos - 1]][pos - 1 := h[pos]];
    forall p, q | pos <= p < q <= o
      ensures g[p] <= g[q]
    {
      if p == pos {
        assert h[pos - 1] <= h[q];
      }
    }
    assert AscendingRange(g, pos, o + 1);
  }

  /** The inserted element is not below its left neighbour (or is first): h[0..o] is in order. */
  lemma InsertionCloses(h: seq<int>, pos: int, o: int)
    requires 0 <= pos <= o < |h| && Inserting(h, pos, o)
    requires pos == 0 || h[pos - 1] <= h[pos]
    ensures AscendingRange(h, 0, o + 1)
  {
    forall p, q | 0 <= p < q <= o
      ensures h[p] <= h[q]
    {
      if q == pos && p < pos - 1 {
        assert h[p] <= h[pos - 1];
      }
    }
  }

  // ---------------------------------------------------------------------------
  // The stepper (insertionSortViz.js:5-12, 38-91)

  /** The bars together with the stepper's four cursors and `hasNext`. */
  datatype Stepper = Stepper(bars: seq<Elem>, outerIndex: int, innerIndex: int, kSwapIndex: int,
                             prevSwap: bool, hasNext: bool)

  /**
   * The cursors' ranges. The inner cursor trails the swap cursor by one; a pending swap
   * (`prevSwap`) only arises inside a pass, with a swap cursor of at least 1; and the
   * stepper stops only once the outer cursor has passed the last index.
   */
  predicate Shape(st: Stepper) {
    var n := |st.bars|;
    && 1 <= st.outerIndex && (st.outerIndex <= n || (n == 0 && st.outerIndex == 1))
    && st.innerIndex == st.kSwapIndex - 1
    && 0 <= st.kSwapIndex <= st.outerIndex
    && (st.prevSwap ==> 1 <= st.kSwapIndex && st.outerIndex < n)
    && (!st.hasNext ==> st.outerIndex >= n && !st.prevSwap)
  }

  /** Where the element being inserted is: the pending swap has already moved it down. */
  function InsertedAt(st: Stepper): int {
    if st.prevSwap then st.kSwapIndex - 1 else st.kSwapIndex
  }

  /** All bars marked sorted, no `current`, and `current2` only on the last one. */
  predicate FinalFlags(s: seq<Elem>) {
    forall j :: 0 <= j < |s| ==> s[j].sorted && !s[j].current && (s[j].current2 <==> j == |s| - 1)
  }

  /**
   * What holds between steps: within a pass the element being inserted is placed as
   * `Inserting` says; past the last pass the heights are in order, and (when there was a
   * pass) the flags are those the last pass left.
   */
  predicate Inv(st: Stepper) {
    && Shape(st)
    && (st.outerIndex < |st.bars| ==> Inserting(Heights(st.bars), InsertedAt(st), st.outerIndex))
    && (st.outerIndex >= |st.bars| ==> Sorted(st.bars))
    && (st.outerIndex >= |st.bars| >= 2 ==> FinalFlags(st.bars))
  }

  /** The state the constructor builds. */
  function Start(bars: seq<Elem>): (r: Stepper)
    ensures r.bars == bars && r.hasNext && !r.prevSwap && r.innerIndex == r.kSwapIndex - 1
    ensures Inv(r)
  {
    Stepper(bars, 1, 0, 1, false, true)
  }

  /** One call of `sortNext`: end of a swap, a swap, the end of an insertion, or the end. */
  function Step(st: Stepper): (r: Stepper)
    requires Shape(st)
    ensures |r.bars| == |st.bars|
  {
    if st.outerIndex < |st.bars| then
      if st.prevSwap then FinishSwapStep(st)
      else if st.innerIndex >= 0 && Compare(st.bars[st.kSwapIndex], st.bars[st.innerIndex]) < 0 then
        SwapStep(st)
      else SettleStep(st)
    else DoneStep(st)
  }

  /**
   * The call after a swap: both cursors move down and are shown (when the inner one has
   * run off the front, `current` goes to 0 and `current2` nowhere, which is the same).
   */
  function FinishSwapStep(st: Stepper): (r: Stepper)
    ensures Heights(r.bars) == Heights(st.bars) && !r.prevSwap && r.hasNext == st.hasNext
    ensures r.outerIndex == st.outerIndex
    ensures r.innerIndex == st.innerIndex - 1 && r.kSwapIndex == st.kSwapIndex - 1
    ensures forall j :: 0 <= j < |r.bars| ==>
      (r.bars[j].current <==> j == r.kSwapIndex) && (r.bars[j].current2 <==> j == r.kSwapIndex - 1)
  {
    st.(bars := WithCursors(st.bars, st.kSwapIndex - 1), prevSwap := false,
        innerIndex := st.innerIndex - 1, kSwapIndex := st.kSwapIndex - 1)
  }

  /** The element at the swap cursor is below its left neighbour: the two change places. */
  function SwapStep(st: Stepper): (r: Stepper)
    requires Shape(st) && 0 <= st.innerIndex && st.kSwapIndex < |st.bars|
    ensures r.prevSwap && r.hasNext == st.hasNext && r.outerIndex == st.outerIndex
    ensures r.innerIndex == st.innerIndex && r.kSwapIndex == st.kSwapIndex
    ensures var k, i := st.kSwapIndex, st.innerIndex;
      Heights(r.bars) == Heights(st.bars)[k := st.bars[i].height][i := st.bars[k].height]
  {
    // swapCurrents, called here by the source, changes nothing
    st.(bars := Swapped(st.bars, st.kSwapIndex, st.innerIndex), prevSwap := true)
  }

  /** The element is in place: h[0..outerIndex] is marked sorted and the next insertion starts. */
  function SettleStep(st: Stepper): (r: Stepper)
    ensures Heights(r.bars) == Heights(st.bars) && r.prevSwap == st.prevSwap && r.hasNext == st.hasNext
    ensures r.outerIndex == st.outerIndex + 1 && r.kSwapIndex == r.outerIndex
    ensures r.innerIndex == st.outerIndex
    ensures forall j :: 0 <= j < |r.bars| ==> (r.bars[j].sorted <==> j <= st.outerIndex)
  {
    var o := st.outerIndex;
    st.(bars := WithCursors(WithSorted(st.bars, o), o + 1),
        outerIndex := o + 1, kSwapIndex := o + 1, innerIndex := o)
  }

  /** Past the last index: only `hasNext` falls. */
  function DoneStep(st: Stepper): (r: Stepper)
    ensures !r.hasNext && r.bars == st.bars && r.outerIndex == st.outerIndex
    ensures r.innerIndex == st.innerIndex && r.kSwapIndex == st.kSwapIndex && r.prevSwap == st.prevSwap
  {
    st.(hasNext := false)
  }

  lemma StepKeepsShape(st: Stepper)
    requires Shape(st)
    ensures Shape(Step(st))
  {
  }

  /** `sortNext` keeps the invariant. */
  lemma StepKeepsInv(st: Stepper)
    requires Inv(st)
    ensures Inv(Step(st))
  {
    if st.outerIndex < |st.bars| {
      if st.prevSwap {
        assert Step(st) == FinishSwapStep(st);
        FinishSwapStepKeepsInv(st);
      } else if st.innerIndex >= 0 && Compare(st.bars[st.kSwapIndex], st.bars[st.innerIndex]) < 0 {
        assert Step(st) == SwapStep(st);
        SwapStepKeepsInv(st);
      } else {
        assert Step(st) == SettleStep(st);
        SettleStepKeepsInv(st);
      }
    } else {
      assert Step(st) == DoneStep(st);
    }
  }

  lemma FinishSwapStepKeepsInv(st: Stepper)
    requires Inv(st) && st.outerIndex < |st.bars| && st.prevSwap
    ensures Inv(FinishSwapStep(st))
  {
    assert Heights(FinishSwapStep(st).bars) == Heights(st.bars);
  }

  lemma SwapStepKeepsInv(st: Stepper)
    requires Inv(st) && st.outerIndex < |st.bars| && !st.prevSwap && st.innerIndex >= 0
    requires st.bars[st.kSwapIndex].height < st.bars[st.innerIndex].height
    ensures Inv(SwapStep(st))
  {
    var h, k := Heights(st.bars), st.kSwapIndex;
    assert Heights(SwapStep(st).bars) == h[k := h[k - 1]][k - 1 := h[k]];
    SwapMovesDown(h, k, st.outerIndex);
  }

  lemma SettleStepKeepsInv(st: Stepper)
    requires Inv(st) && st.outerIndex < |st.bars| && !st.prevSwap
    requires st.innerIndex < 0 || st.bars[st.kSwapIndex].height >= st.bars[st.innerIndex].height
    ensures Inv(SettleStep(st))
  {
    var h, o := Heights(st.bars), st.outerIndex;
    InsertionCloses(h, st.kSwapIndex, o);
    var r := SettleStep(st);
    assert Heights(r.bars) == h;
    if o + 1 >= |st.bars| {
      assert AscendingRange(h, 0, |h|);
    }
  }

  /** `sortNext` only rearranges the heights; a step that is not a swap keeps them in place. */
  lemma StepPermutes(st: Stepper)
    requires Shape(st)
    ensures SameHeightBag(Step(st).bars, st.bars)
  {
    if st.outerIndex < |st.bars| && !st.prevSwap && st.innerIndex >= 0
      && Compare(st.bars[st.kSwapIndex], st.bars[st.innerIndex]) < 0
    {
      assert Step(st) == SwapStep(st);
      var h, k := Heights(st.bars), st.kSwapIndex;
      SwapPermutes(h, k, k - 1);
      assert Heights(Step(st).bars) == h[k := h[k - 1]][k - 1 := h[k]];
    } else {
      assert Heights(Step(st).bars) == Heights(st.bars);
    }
  }

  /** Steps left before `hasNext` falls, counted by passes and then within the pass. */
  function Passes(st: Stepper): nat
    requires Shape(st)
  {
    if st.hasNext then |st.bars| - st.outerIndex + 2 else 0
  }

  /** Within a pass: two calls per swap still possible, one for the settle. */
  function Moves(st: Stepper): nat
    requires Shape(st)
  {
    2 * st.kSwapIndex + (if st.prevSwap then 0 else 1)
  }

  /** Every step taken while `hasNext` brings the end strictly closer. */
  lemma StepMakesProgress(st: Stepper)
    requires Shape(st) && st.hasNext
    ensures Shape(Step(st))
    ensures Passes(Step(st)) < Passes(st)
      || (Passes(Step(st)) == Passes(st) && Moves(Step(st)) < Moves(st))
  {
    StepKeepsShape(st);
  }

  /** Once `hasNext` has fallen, a further call changes nothing. */
  lemma StepWhenDoneIsIdle(st: Stepper)
    requires Shape(st) && !st.hasNext
    ensures Step(st) == st
  {
  }

  /**
   * Past the last index a call moves no bar and no cursor and only lowers `hasNext`;
   * on fewer than two bars that is what the very first call does.
   */
  lemma PastEndOnlyStops(st: Stepper)
    requires Shape(st) && st.outerIndex >= |st.bars|
    ensures Step(st) == st.(hasNext := false)
  {
  }

  lemma ShortInputStopsAtOnce(bars: seq<Elem>)
    requires |bars| <= 1
    ensures Step(Start(bars)) == Start(bars).(hasNext := false)
    ensures Sorted(bars)
  {
    PastEndOnlyStops(Start(bars));
  }

  /** Calling `sortNext` while `hasNext` holds. */
  function Run(st: Stepper): (r: Stepper)
    requires Inv(st)
    ensures Inv(r) && !r.hasNext
    ensures SameHeightBag(r.bars, st.bars)
    decreases Passes(st), Moves(st)
  {
    if !st.hasNext then st
    else
      StepKeepsInv(st);
      StepMakesProgress(st);
      StepPermutes(st);
      Run(Step(st))
  }

  /**
   * Driven to the end, the stepper leaves the bars sorted and a permutation of its input;
   * from two bars on, every bar is marked sorted and only the last is flagged `current2`.
   */
  lemma StepperSorts(bars: seq<Elem>)
    ensures Sorted(Run(Start(bars)).bars) && SameHeightBag(Run(Start(bars)).bars, bars)
    ensures |bars| >= 2 ==> FinalFlags(Run(Start(bars)).bars)
  {
  }

  class InsertionSortViz {
    /** The bars being sorted (the source's `this.array`). */
    const arr: array<Elem>
    var hasNext: bool
    var outerIndex: int
    var innerIndex: int
    var kSwapIndex: int
    var prevSwap: bool

    ghost function State(): Stepper
      reads this, arr
    {
      Stepper(arr[..], outerIndex, innerIndex, kSwapIndex, prevSwap, hasNext)
    }

    ghost predicate Valid()
      reads this, arr
    {
      Inv(State())
    }

    constructor (input: array<Elem>)
      ensures arr == input && State() == Start(input[..])
      ensures Valid()
    {
      arr := input;
      hasNext := true;
      outerIndex := 1;
      innerIndex := 0;
      kSwapIndex := 1;
      prevSwap := false;
    }

    /** One step (insertionSortViz.js:38-91). */
    method SortNext()
      requires Valid()
      modifies this, arr
      ensures State() == Step(old(State()))
      ensures Valid()
    {
      StepKeepsInv(State());
      if outerIndex < arr.Length {
        var cur := arr[kSwapIndex];
        if prevSwap {
          FinishSwap();
        } else if innerIndex >= 0 && Compare(cur, arr[innerIndex]) < 0 {
          SwapPair(cur);
        } else {
          Settle();
        }
      } else {
        hasNext := false;
      }
    }

    /** insertionSortViz.js:46-61. */
    method FinishSwap()
      requires Shape(State()) && outerIndex < arr.Length && prevSwap
      modifies this, arr
      ensures State() == FinishSwapStep(old(State()))
    {
      prevSwap := false;
      innerIndex := innerIndex - 1;
      kSwapIndex := kSwapIndex - 1;
      if innerIndex >= 0 {
        SetCurrent(arr, kSwapIndex);
        SetCurrent2(arr, innerIndex);
      } else {
        SetCurrent(arr, 0);
        SetCurrent2(arr, -1);
      }
    }

    /** insertionSortViz.js:62-71. */
    method SwapPair(cur: Elem)
      requires Shape(State()) && outerIndex < arr.Length && !prevSwap && innerIndex >= 0
      requires cur == arr[kSwapIndex]
      modifies this, arr
      ensures State() == SwapStep(old(State()))
    {
      arr[kSwapIndex] := arr[innerIndex];
      arr[innerIndex] := cur;
      assert arr[..] == Swapped(old(arr[..]), kSwapIndex, innerIndex);
      prevSwap := true;
      SwapCurrents(arr);
    }

    /** insertionSortViz.js:73-84. */
    method Settle()
      requires Shape(State()) && outerIndex < arr.Length
      modifies this, arr
      ensures State() == SettleStep(old(State()))
    {
      SetSorted(arr, outerIndex);
      SetCurrent(arr, outerIndex + 1);
      SetCurrent2(arr, outerIndex);
      outerIndex := outerIndex + 1;
      kSwapIndex := outerIndex;
      innerIndex := kSwapIndex - 1;
    }
  }

  /**
   * The invariant stated in the source's comment: between insertions (no swap pending and
   * the swap cursor back at the outer cursor) the bars before the outer cursor are in order.
   */
  lemma PrefixSortedBetweenInsertions(st: Stepper)
    requires Inv(st) && st.outerIndex < |st.bars| && !st.prevSwap && st.kSwapIndex == st.outerIndex
    ensures AscendingRange(Heights(st.bars), 0, st.outerIndex)
  {
  }
}
