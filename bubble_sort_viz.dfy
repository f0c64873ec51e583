/**
 * The bubble sort driver (bubbleSortViz.js): a stepper over the cursors
 * `endIndex` / `innerIndex`, and a one-shot `FullSort` that returns the history.
 *
 * One step of the stepper is specified by the pure function `Step` on a `Stepper`
 * value; the class method `SortNext` is proved to move its fields exactly as `Step`
 * says, and what the stepper promises (it keeps its invariant, it terminates, it
 * ends sorted) is proved about `Step` and `Run`.
 */
module BubbleSort {
  import opened SortViz

  // ---------------------------------------------------------------------------
  // The bubble-sort invariant, on heights

  /**
   * The boundary after an outer pass: the suffix after `e` is in order and no
   * height up to `e` is above any height after it.
   */
  predicate SuffixPlaced(h: seq<int>, e: int)
    requires -1 <= e < |h|
  {
    && AscendingRange(h, e + 1, |h|)
    && forall p, q :: 0 <= p <= e < q < |h| ==> h[p] <= h[q]
  }

  /** h[k] is a maximum of h[0..k]. */
  predicate MaxAt(h: seq<int>, k: int)
    requires 0 <= k < |h|
  {
    forall p :: 0 <= p < k ==> h[p] <= h[k]
  }

  /** Closing an outer pass: a maximum of h[0..e] sits at e, so the boundary moves down. */
  lemma PassCloses(h: seq<int>, e: int)
    requires 0 <= e < |h| && SuffixPlaced(h, e) && MaxAt(h, e)
    ensures SuffixPlaced(h, e - 1)
  {
  }

  /** An in-order pair carries the running maximum one place to the right. */
  lemma MaxMovesRight(h: seq<int>, k: int)
    requires 0 < k < |h| && (MaxAt(h, k - 1) || MaxAt(h, k))
    requires h[k - 1] <= h[k]
    ensures MaxAt(h, k)
  {
  }

  /** Swapping an out-of-order pair below the boundary keeps the boundary and carries the maximum right. */
  lemma SwapMovesMax(h: seq<int>, k: int, e: int)
    requires 0 < k <= e < |h| && SuffixPlaced(h, e) && MaxAt(h, k - 1) && h[k - 1] > h[k]
    ensures SuffixPlaced(h[k := h[k - 1]][k - 1 := h[k]], e)
    ensures MaxAt(h[k := h[k - 1]][k - 1 := h[k]], k)
  {
  }

  // ---------------------------------------------------------------------------
  // The stepper (bubbleSortViz.js:5-10, 51-89)

  /** The bars together with the stepper's cursors: the state `sortNext` moves. */
  datatype Stepper = Stepper(bars: seq<Elem>, endIndex: int, innerIndex: int, hasNext: bool)

  /**
   * What holds between steps. The stepper reads `array[1]` on its first call, so it
   * needs at least two bars (on a shorter array the source reads past the end).
   */
  predicate Inv(st: Stepper) {
    && Shape(st)
    && SuffixPlaced(Heights(st.bars), st.endIndex)
    && (MaxAt(Heights(st.bars), st.innerIndex - 1) || MaxAt(Heights(st.bars), st.innerIndex))
    && (!st.hasNext ==> st.endIndex == 0 && Sorted(st.bars) && AllSettled(st.bars))
  }

  /** The cursors' ranges: the boundary is an index, the inner cursor is in [1, endIndex]. */
  predicate Shape(st: Stepper) {
    && |st.bars| >= 2
    && 0 <= st.endIndex < |st.bars|
    && (if st.endIndex == 0 then st.innerIndex == 1 else 1 <= st.innerIndex <= st.endIndex)
  }

  /** The state the constructor builds: last index as the boundary, inner cursor at 1. */
  function Start(bars: seq<Elem>): (r: Stepper)
    ensures r.bars == bars && r.hasNext
    ensures |bars| >= 2 ==> Inv(r)
  {
    Stepper(bars, |bars| - 1, 1, true)
  }

  /** One call of `sortNext`: a swap, an advance of the inner cursor, a boundary move, or the end. */
  function Step(st: Stepper): (r: Stepper)
    requires Shape(st)
    ensures |r.bars| == |st.bars|
    ensures r.endIndex <= st.endIndex
  {
    var k := st.innerIndex;
    if Compare(st.bars[k - 1], st.bars[k]) > 0 then SwapStep(st)
    else if k < st.endIndex then AdvanceStep(st)
    else if st.endIndex > 0 then NextPassStep(st)
    else FinishStep(st)
  }

  /** The pair under the cursors is out of order: it is swapped and stays under the cursors. */
  function SwapStep(st: Stepper): (r: Stepper)
    requires Shape(st)
    ensures |r.bars| == |st.bars| && r.endIndex == st.endIndex && r.innerIndex == st.innerIndex
    ensures r.hasNext == st.hasNext
    ensures var k := st.innerIndex;
      && Heights(r.bars) == Heights(st.bars)[k := st.bars[k - 1].height][k - 1 := st.bars[k].height]
      && r.bars[k].current && r.bars[k - 1].current2
  {
    var k := st.innerIndex;
    st.(bars := WithCursors(Swapped(st.bars, k, k - 1), k))
  }

  /** The pair is in order and the pass goes on: the cursors move one place right. */
  function AdvanceStep(st: Stepper): (r: Stepper)
    requires Shape(st)
    ensures Heights(r.bars) == Heights(st.bars) && r.endIndex == st.endIndex && r.hasNext == st.hasNext
    ensures r.innerIndex == st.innerIndex + 1
    ensures forall j :: 0 <= j < |r.bars| ==>
      (r.bars[j].current <==> j == r.innerIndex) && (r.bars[j].current2 <==> j == st.innerIndex)
  {
    st.(bars := WithCursors(st.bars, st.innerIndex + 1), innerIndex := st.innerIndex + 1)
  }

  /**
   * The pass is over: the boundary moves down and is marked sorted from there on (the
   * source passes no `clearCurrents` to setSortedReverse, which reads as false).
   */
  function NextPassStep(st: Stepper): (r: Stepper)
    requires Shape(st)
    ensures Heights(r.bars) == Heights(st.bars) && r.hasNext == st.hasNext
    ensures r.endIndex == st.endIndex - 1 && r.innerIndex == 1
    ensures forall j :: 0 <= j < |r.bars| ==> (r.bars[j].sorted <==> j >= st.endIndex)
  {
    st.(bars := WithSortedReverse(WithCursors(st.bars, 1), st.endIndex, false),
        endIndex := st.endIndex - 1, innerIndex := 1)
  }

  /** The last pass is over: everything is marked sorted and `hasNext` falls. */
  function FinishStep(st: Stepper): (r: Stepper)
    requires Shape(st)
    ensures Heights(r.bars) == Heights(st.bars) && AllSettled(r.bars) && !r.hasNext
    ensures r.endIndex == st.endIndex && r.innerIndex == st.innerIndex
  {
    st.(bars := WithSorted(st.bars, |st.bars|), hasNext := false)
  }

  /** 1 + 2 + ... + e: the comparisons of the outer passes with boundaries e, e - 1, ..., 1. */
  function Pairs(e: int): nat
    decreases e
  {
    if e <= 0 then 0 else e + Pairs(e - 1)
  }

  /**
   * A bound on the steps left: twice the comparisons still to make (those of the current
   * pass from the inner cursor on, then of the passes below the boundary), plus one for a
   * pending swap and one for the final step.
   */
  function Measure(st: Stepper): nat
    requires Shape(st)
  {
    if !st.hasNext then 0
    else
      var h := Heights(st.bars);
      var pending := if h[st.innerIndex - 1] > h[st.innerIndex] then 1 else 0;
      1 + 2 * (Pairs(st.endIndex - 1) + st.endIndex - st.innerIndex + 1) + pending
  }

  /** `sortNext` keeps the invariant. */
  lemma StepKeepsInv(st: Stepper)
    requires Inv(st)
    ensures Inv(Step(st))
  {
    var k := st.innerIndex;
    if Compare(st.bars[k - 1], st.bars[k]) > 0 {
      assert Step(st) == SwapStep(st);
      SwapStepKeepsInv(st);
    } else if k < st.endIndex {
      assert Step(st) == AdvanceStep(st);
      AdvanceStepKeepsInv(st);
    } else if st.endIndex > 0 {
      assert Step(st) == NextPassStep(st);
      NextPassStepKeepsInv(st);
    } else {
      assert Step(st) == FinishStep(st);
      FinishStepKeepsInv(st);
    }
  }

  lemma SwapStepKeepsInv(st: Stepper)
    requires Inv(st) && st.bars[st.innerIndex - 1].height > st.bars[st.innerIndex].height
    ensures Inv(SwapStep(st))
  {
    var h, k, e := Heights(st.bars), st.innerIndex, st.endIndex;
    DoneHasNoSwap(st);
    assert Heights(SwapStep(st).bars) == h[k := h[k - 1]][k - 1 := h[k]];
    SwapMovesMax(h, k, e);
  }

  /** Once the stepper is done, the pair under its cursors is in order. */
  lemma DoneHasNoSwap(st: Stepper)
    requires Inv(st)
    ensures !st.hasNext ==> st.bars[st.innerIndex - 1].height <= st.bars[st.innerIndex].height
  {
    if !st.hasNext {
      var h := Heights(st.bars);
      assert h[st.innerIndex - 1] <= h[st.innerIndex];
    }
  }

  lemma AdvanceStepKeepsInv(st: Stepper)
    requires Inv(st) && st.bars[st.innerIndex - 1].height <= st.bars[st.innerIndex].height
    requires st.innerIndex < st.endIndex
    ensures Inv(AdvanceStep(st))
  {
    MaxMovesRight(Heights(st.bars), st.innerIndex);
  }

  lemma NextPassStepKeepsInv(st: Stepper)
    requires Inv(st) && st.bars[st.innerIndex - 1].height <= st.bars[st.innerIndex].height
    requires st.innerIndex >= st.endIndex > 0
    ensures Inv(NextPassStep(st))
  {
    var h := Heights(st.bars);
    MaxMovesRight(h, st.innerIndex);
    PassCloses(h, st.endIndex);
  }

  lemma FinishStepKeepsInv(st: Stepper)
    requires Inv(st) && st.bars[st.innerIndex - 1].height <= st.bars[st.innerIndex].height
    requires st.endIndex == 0
    ensures Inv(FinishStep(st))
  {
    if !st.hasNext {
      SettledIsFixedBySetSorted(st.bars, |st.bars|);
    }
  }

  /** `sortNext` only rearranges the heights. */
  lemma StepPermutes(st: Stepper)
    requires Shape(st)
    ensures SameHeightBag(Step(st).bars, st.bars)
  {
    var k := st.innerIndex;
    if Compare(st.bars[k - 1], st.bars[k]) > 0 {
      assert Step(st) == SwapStep(st);
      SwapShownKeepsBag(st.bars, k);
    } else {
      assert Heights(Step(st).bars) == Heights(st.bars);
    }
  }

  /** Every step taken while `hasNext` brings the end strictly closer. */
  lemma StepMakesProgress(st: Stepper)
    requires Shape(st) && st.hasNext
    ensures Shape(Step(st)) && Measure(Step(st)) < Measure(st)
  {
    var k := st.innerIndex;
    if Compare(st.bars[k - 1], st.bars[k]) > 0 {
      assert Step(st) == SwapStep(st);
      SwapStepProgresses(st);
    } else if k < st.endIndex {
      assert Step(st) == AdvanceStep(st);
      AdvanceStepProgresses(st);
    } else if st.endIndex > 0 {
      assert Step(st) == NextPassStep(st);
      NextPassStepProgresses(st);
    } else {
      assert Step(st) == FinishStep(st);
    }
  }

  lemma AdvanceStepProgresses(st: Stepper)
    requires Shape(st) && st.hasNext && st.innerIndex < st.endIndex
    ensures Shape(AdvanceStep(st)) && Measure(AdvanceStep(st)) < Measure(st)
  {
    assert Heights(AdvanceStep(st).bars) == Heights(st.bars);
  }

  lemma NextPassStepProgresses(st: Stepper)
    requires Shape(st) && st.hasNext && st.innerIndex >= st.endIndex > 0
    ensures Shape(NextPassStep(st)) && Measure(NextPassStep(st)) < Measure(st)
  {
    assert Heights(NextPassStep(st).bars) == Heights(st.bars);
  }

  /** After a swap the pair is in order, so only the pending swap is used up. */
  lemma SwapStepProgresses(st: Stepper)
    requires Shape(st) && st.hasNext && st.bars[st.innerIndex - 1].height > st.bars[st.innerIndex].height
    ensures Shape(SwapStep(st)) && Measure(SwapStep(st)) < Measure(st)
  {
    var h, k := Heights(st.bars), st.innerIndex;
    assert Heights(SwapStep(st).bars) == h[k := h[k - 1]][k - 1 := h[k]];
  }

  /** Once `hasNext` has fallen, a further call changes nothing. */
  lemma StepWhenDoneIsIdle(st: Stepper)
    requires Inv(st) && !st.hasNext
    ensures Step(st) == st
  {
    assert Heights(st.bars)[0] <= Heights(st.bars)[1];
    SettledIsFixedBySetSorted(st.bars, |st.bars|);
  }

  /** Calling `sortNext` while `hasNext` holds. */
  function Run(st: Stepper): (r: Stepper)
    requires Inv(st)
    ensures Inv(r) && !r.hasNext
    ensures SameHeightBag(r.bars, st.bars)
    decreases Measure(st)
  {
    if !st.hasNext then st
    else
      StepKeepsInv(st);
      StepMakesProgress(st);
      StepPermutes(st);
      Run(Step(st))
  }

  /** Driven to the end, the stepper leaves the bars sorted, settled and a permutation of its input. */
  lemma StepperSorts(bars: seq<Elem>)
    requires |bars| >= 2
    ensures Sorted(Run(Start(bars)).bars) && AllSettled(Run(Start(bars)).bars)
    ensures SameHeightBag(Run(Start(bars)).bars, bars)
  {
  }

  class BubbleSortViz {
    /** The bars being sorted (the source's `this.array`). */
    const arr: array<Elem>
    var hasNext: bool
    var endIndex: int
    var innerIndex: int

    ghost function State(): Stepper
      reads this, arr
    {
      Stepper(arr[..], endIndex, innerIndex, hasNext)
    }

    ghost predicate Valid()
      reads this, arr
    {
      Inv(State())
    }

    constructor (input: array<Elem>)
      ensures arr == input && State() == Start(input[..])
      ensures input.Length >= 2 ==> Valid()
    {
      arr := input;
      hasNext := true;
      endIndex := input.Length - 1;
      innerIndex := 1;
    }

    /** One step (bubbleSortViz.js:51-89). */
    method SortNext()
      requires Valid()
      modifies this, arr
      ensures State() == Step(old(State()))
      ensures Valid()
    {
      StepKeepsInv(State());
      var cur := arr[innerIndex];
      var prev := arr[innerIndex - 1];
      if Compare(prev, cur) > 0 {
        SwapPair(cur, prev);
      } else if innerIndex < endIndex {
        Advance();
      } else if endIndex > 0 {
        NextPass();
      } else {
        Finish();
      }
    }

    method SwapPair(cur: Elem, prev: Elem)
      requires Shape(State()) && cur == arr[innerIndex] && prev == arr[innerIndex - 1]
      requires Compare(prev, cur) > 0
      modifies arr
      ensures State() == SwapStep(old(State()))
    {
      arr[innerIndex] := prev;
      arr[innerIndex - 1] := cur;
      assert arr[..] == old(arr[..])[innerIndex := prev][innerIndex - 1 := cur];
      SetCursors(arr, innerIndex);
    }

    method Advance()
      requires Shape(State()) && Compare(arr[innerIndex - 1], arr[innerIndex]) <= 0 && innerIndex < endIndex
      modifies this, arr
      ensures State() == AdvanceStep(old(State()))
    {
      innerIndex := innerIndex + 1;
      SetCursors(arr, innerIndex);
    }

    method NextPass()
      requires Shape(State()) && Compare(arr[innerIndex - 1], arr[innerIndex]) <= 0
      requires innerIndex >= endIndex && endIndex > 0
      modifies this, arr
      ensures State() == NextPassStep(old(State()))
    {
      endIndex := endIndex - 1;
      innerIndex := 1;
      SetCursors(arr, 1);
      SetSortedReverse(arr, endIndex + 1, false);
    }

    method Finish()
      requires Shape(State()) && Compare(arr[innerIndex - 1], arr[innerIndex]) <= 0 && endIndex == 0
      modifies this, arr
      ensures State() == FinishStep(old(State()))
    {
      SetSorted(arr, arr.Length);
      hasNext := false;
    }

    /**
     * The whole sort at once (bubbleSortViz.js:98-130), recording a snapshot after `init`,
     * at every comparison, after every swap and at the end of every outer pass.
     */
    method FullSort() returns (arrayHistory: seq<seq<Elem>>)
      modifies arr
      ensures Sorted(arr[..]) && AllSettled(arr[..])
      ensures SameHeightBag(arr[..], old(arr[..]))
      ensures |arrayHistory| >= 1 && arrayHistory[0] == InitState(old(arr[..]))
      ensures arrayHistory[|arrayHistory| - 1] == arr[..]
      ensures arr[..] == OuterPasses(InitState(old(arr[..])), arr.Length - 1)
      ensures arrayHistory == [InitState(old(arr[..]))] + OuterHistory(InitState(old(arr[..])), arr.Length - 1)
    {
      Init(arr);
      var snap := CopyArray(arr);
      arrayHistory := [snap];
      ghost var s0 := snap;
      var eIndex := arr.Length - 1;
      while eIndex >= 0
        invariant OuterInv(arr[..], eIndex)
        invariant OuterAt(s0, arrayHistory, arr[..], eIndex)
        invariant SameHeightBag(arr[..], old(arr[..]))
        invariant |arrayHistory| >= 1 && arrayHistory[0] == InitState(old(arr[..]))
        invariant arrayHistory[|arrayHistory| - 1] == arr[..]
      {
        ghost var s, hist := arr[..], arrayHistory;
        var passHistory := Pass(eIndex);
        arrayHistory := arrayHistory + passHistory;
        ghost var hist1 := arrayHistory;
        PassEnds(arr[..], eIndex);
        SetSortedReverse(arr, eIndex, true);
        snap := CopyArray(arr);
        arrayHistory := arrayHistory + [snap];
        OuterRecords(s0, hist, s, eIndex, hist1, snap, arrayHistory);
        eIndex := eIndex - 1;
      }
      assert arrayHistory + [] == arrayHistory;
    }

    /** The inner loop of fullSort (bubbleSortViz.js:106-123): one pass up to the boundary e. */
    method Pass(e: int) returns (passHistory: seq<seq<Elem>>)
      requires 0 <= e && OuterInv(arr[..], e)
      modifies arr
      ensures arr[..] == PassFrom(old(arr[..]), 1, e)
      ensures passHistory == PassHistory(old(arr[..]), 1, e)
      ensures PassInv(arr[..], e + 1, e)
      ensures SameHeightBag(arr[..], old(arr[..]))
      ensures |passHistory| > 0 ==> passHistory[|passHistory| - 1] == arr[..]
    {
      ghost var s0 := arr[..];
      passHistory := [];
      var i := 1;
      PassStarts(s0, e);
      while i <= e
        invariant Passing(s0, passHistory, arr[..], i, e)
      {
        var stepHistory := PassTurn(i, e, s0, passHistory);
        passHistory := passHistory + stepHistory;
        i := i + 1;
      }
      PassDone(s0, passHistory, arr[..], e);
    }

    /** One turn of the inner loop, with the pass's record carried along. */
    method PassTurn(i: int, e: int, ghost s0: seq<Elem>, ghost hist: seq<seq<Elem>>) returns (stepHistory: seq<seq<Elem>>)
      requires Passing(s0, hist, arr[..], i, e) && i <= e
      modifies arr
      ensures Passing(s0, hist + stepHistory, arr[..], i + 1, e)
    {
      ghost var s := arr[..];
      stepHistory := CompareAndSwap(i, e);
      PassRecords(s0, hist, s, i, e, stepHistory, hist + stepHistory);
    }

    /**
     * The body of the inner loop (bubbleSortViz.js:107-122): show the pair (i - 1, i),
     * snapshot, and swap it if out of order, snapshotting again.
     */
    method CompareAndSwap(i: int, e: int) returns (stepHistory: seq<seq<Elem>>)
      requires PassInv(arr[..], i, e) && i <= e
      modifies arr
      ensures arr[..] == PairStep(old(arr[..]), i)
      ensures stepHistory == PairSnapshots(old(arr[..]), i)
      ensures PassInv(arr[..], i + 1, e)
      ensures SameHeightBag(arr[..], old(arr[..]))
      ensures |stepHistory| > 0 && stepHistory[|stepHistory| - 1] == arr[..]
    {
      CursorsKeepPass(arr[..], i, e);
      SetCursors(arr, i);
      var snap := CopyArray(arr);
      stepHistory := [snap];
      // The source reads `cur` and `prev` before the two calls above and holds them by
      // reference, so it sees the flags those calls set; reading them now is the same.
      var cur := arr[i];
      var prev := arr[i - 1];
      if Compare(prev, cur) > 0 {
        ghost var shown := arr[..];
        SwapKeepsPass(shown, i, e);
        SwapShownKeepsBag(shown, i);
        arr[i] := prev;
        arr[i - 1] := cur;
        assert arr[..] == Swapped(shown, i, i - 1);
        SetCursors(arr, i);
        snap := CopyArray(arr);
        stepHistory := stepHistory + [snap];
      } else {
        PassAdvances(arr[..], i, e);
      }
    }
  }

  // ---------------------------------------------------------------------------
  // The loop invariants of fullSort, on snapshots

  /** Every entry after e is marked sorted and carries neither current flag. */
  predicate SettledAbove(s: seq<Elem>, e: int)
    requires -1 <= e
  {
    forall j :: e < j < |s| ==> s[j].sorted && !s[j].current && !s[j].current2
  }

  /** The outer loop's invariant: the passes done have placed and settled the suffix after e. */
  predicate OuterInv(s: seq<Elem>, e: int) {
    -1 <= e < |s| && SuffixPlaced(Heights(s), e) && SettledAbove(s, e)
  }

  /** The inner loop's invariant: besides the outer one, a maximum of s[0..i] is at i - 1. */
  predicate PassInv(s: seq<Elem>, i: int, e: int) {
    && 1 <= i <= e + 1 && OuterInv(s, e)
    && MaxAt(Heights(s), i - 1)
  }

  lemma CursorsKeepPass(s: seq<Elem>, i: int, e: int)
    requires PassInv(s, i, e) && i <= e
    ensures PassInv(WithCursors(s, i), i, e)
  {
  }

  lemma SwapKeepsPass(s: seq<Elem>, i: int, e: int)
    requires PassInv(s, i, e) && i <= e && s[i - 1].height > s[i].height
    ensures PassInv(WithCursors(Swapped(s, i, i - 1), i), i + 1, e)
  {
    SwapMovesMax(Heights(s), i, e);
  }

  /** Swapping the pair (i - 1, i) and showing it keeps the heights' multiset. */
  lemma SwapShownKeepsBag(s: seq<Elem>, i: int)
    requires 0 < i < |s|
    ensures SameHeightBag(WithCursors(Swapped(s, i, i - 1), i), s)
  {
    var h := Heights(s);
    SwapPermutes(h, i, i - 1);
    assert Heights(WithCursors(Swapped(s, i, i - 1), i)) == h[i := h[i - 1]][i - 1 := h[i]];
  }

  lemma PassAdvances(s: seq<Elem>, i: int, e: int)
    requires PassInv(s, i, e) && i <= e && s[i - 1].height <= s[i].height
    ensures PassInv(s, i + 1, e)
  {
    MaxMovesRight(Heights(s), i);
  }

  lemma PassEnds(s: seq<Elem>, e: int)
    requires PassInv(s, e + 1, e) && e >= 0
    ensures OuterInv(WithSortedReverse(s, e, true), e - 1)
  {
    PassCloses(Heights(s), e);
  }

  // ---------------------------------------------------------------------------
  // fullSort on a snapshot (bubbleSortViz.js:105-127)

  /**
   * One turn of the inner loop on the pair (i - 1, i): both cursors are shown on it and,
   * when the left bar is higher, the two change places and are shown again. Nothing else
   * moves; every other bar only loses its cursors.
   */
  function PairStep(s: seq<Elem>, i: int): (r: seq<Elem>)
    requires 0 < i < |s|
    ensures |r| == |s|
    ensures forall k :: 0 <= k < |s| && k != i - 1 && k != i ==> r[k] == s[k].(current := false, current2 := false)
    ensures s[i - 1].height > s[i].height ==>
      r[i] == s[i - 1].(current := true, current2 := false) && r[i - 1] == s[i].(current := false, current2 := true)
    ensures s[i - 1].height <= s[i].height ==>
      r[i] == s[i].(current := true, current2 := false) && r[i - 1] == s[i - 1].(current := false, current2 := true)
  {
    var shown := WithCursors(s, i);
    assert shown[i - 1].height == s[i - 1].height && shown[i].height == s[i].height;
    if Compare(shown[i - 1], shown[i]) > 0 then WithCursors(Swapped(shown, i, i - 1), i) else shown
  }

  /** The snapshots of that turn: the pair shown, and the pair swapped when it was out of order. */
  function PairSnapshots(s: seq<Elem>, i: int): (hs: seq<seq<Elem>>)
    requires 0 < i < |s|
    ensures |hs| == (if s[i - 1].height > s[i].height then 2 else 1)
    ensures hs[0] == WithCursors(s, i) && hs[|hs| - 1] == PairStep(s, i)
  {
    [WithCursors(s, i)] + (if s[i - 1].height > s[i].height then [PairStep(s, i)] else [])
  }

  /** The inner loop from i up to the boundary e. */
  function PassFrom(s: seq<Elem>, i: int, e: int): (r: seq<Elem>)
    requires 1 <= i <= e + 1 <= |s|
    ensures |r| == |s|
    decreases e + 1 - i
  {
    if i <= e then PassFrom(PairStep(s, i), i + 1, e) else s
  }

  /** The snapshots the inner loop records from i on; the last is the array it leaves. */
  function PassHistory(s: seq<Elem>, i: int, e: int): (hs: seq<seq<Elem>>)
    requires 1 <= i <= e + 1 <= |s|
    ensures |hs| >= e + 1 - i
    ensures i <= e ==> hs[|hs| - 1] == PassFrom(s, i, e)
    decreases e + 1 - i
  {
    if i <= e then PairSnapshots(s, i) + PassHistory(PairStep(s, i), i + 1, e) else []
  }

  /** The outer loop from the boundary e down to 0: a pass, then the suffix from e settled. */
  function OuterPasses(s: seq<Elem>, e: int): (r: seq<Elem>)
    requires -1 <= e < |s|
    ensures |r| == |s|
    decreases e + 1
  {
    if e >= 0 then OuterPasses(WithSortedReverse(PassFrom(s, 1, e), e, true), e - 1) else s
  }

  /** The snapshots the outer loop records: each pass's, then one after each settling. */
  function OuterHistory(s: seq<Elem>, e: int): (hs: seq<seq<Elem>>)
    requires -1 <= e < |s|
    ensures |hs| == 0 <==> e < 0
    decreases e + 1
  {
    if e >= 0 then
      var p := WithSortedReverse(PassFrom(s, 1, e), e, true);
      PassHistory(s, 1, e) + [p] + OuterHistory(p, e - 1)
    else []
  }

  /** One turn of the inner loop keeps its invariant and the heights' multiset. */
  lemma PairKeepsPass(s: seq<Elem>, i: int, e: int)
    requires PassInv(s, i, e) && i <= e
    ensures PassInv(PairStep(s, i), i + 1, e) && SameHeightBag(PairStep(s, i), s)
  {
    CursorsKeepPass(s, i, e);
    var shown := WithCursors(s, i);
    if s[i - 1].height > s[i].height {
      SwapKeepsPass(shown, i, e);
      SwapShownKeepsBag(shown, i);
    } else {
      PassAdvances(shown, i, e);
    }
  }

  /** A whole pass leaves a maximum of [0, e] at e and keeps the heights' multiset. */
  lemma {:induction false} PassFromKeeps(s: seq<Elem>, i: int, e: int)
    requires PassInv(s, i, e)
    ensures PassInv(PassFrom(s, i, e), e + 1, e) && SameHeightBag(PassFrom(s, i, e), s)
    decreases e + 1 - i
  {
    if i <= e {
      PairKeepsPass(s, i, e);
      PassFromKeeps(PairStep(s, i), i + 1, e);
    }
  }

  /** The outer passes from e down leave the bars sorted, settled and rearranged only. */
  lemma {:induction false} OuterPassesSort(s: seq<Elem>, e: int)
    requires OuterInv(s, e)
    ensures OuterInv(OuterPasses(s, e), -1) && SameHeightBag(OuterPasses(s, e), s)
    decreases e + 1
  {
    if e >= 0 {
      var p := PassFrom(s, 1, e);
      PassFromKeeps(s, 1, e);
      PassEnds(p, e);
      OuterPassesSort(WithSortedReverse(p, e, true), e - 1);
    }
  }

  /** What fullSort computes is sorted, fully settled and a permutation of its input. */
  lemma FullSortSorts(input: seq<Elem>)
    ensures Sorted(OuterPasses(InitState(input), |input| - 1))
    ensures AllSettled(OuterPasses(InitState(input), |input| - 1))
    ensures SameHeightBag(OuterPasses(InitState(input), |input| - 1), input)
  {
    PassesFromScratch(input, InitState(input), OuterPasses(InitState(input), |input| - 1));
  }

  /** All passes run from the initial state end sorted, settled and with the input's heights. */
  lemma PassesFromScratch(input: seq<Elem>, s: seq<Elem>, r: seq<Elem>)
    requires s == InitState(input) && r == OuterPasses(s, |input| - 1)
    ensures Sorted(r) && AllSettled(r) && SameHeightBag(r, input)
  {
    assert |s| == |input|;
    NothingPlacedYet(s);
    OuterPassesSort(s, |s| - 1);
    AllPlaced(r);
    assert Heights(s) == Heights(input);
  }

  /** Before the first pass nothing is placed, so the outer invariant holds trivially. */
  lemma NothingPlacedYet(s: seq<Elem>)
    ensures OuterInv(s, |s| - 1)
  {
  }

  /** With the boundary below 0 every bar is placed and settled. */
  lemma AllPlaced(r: seq<Elem>)
    requires OuterInv(r, -1)
    ensures Sorted(r) && AllSettled(r)
  {
  }

  /**
   * The inner loop's invariant: besides PassInv and the multiset, finishing the pass from
   * i gives the whole pass, and the snapshots so far followed by the rest are all of them.
   */
  ghost predicate Passing(s0: seq<Elem>, hist: seq<seq<Elem>>, s: seq<Elem>, i: int, e: int) {
    && 1 <= i <= e + 1 <= |s| == |s0|
    && PassInv(s, i, e) && SameHeightBag(s, s0)
    && (|hist| > 0 ==> hist[|hist| - 1] == s)
    && PassFrom(s, i, e) == PassFrom(s0, 1, e)
    && hist + PassHistory(s, i, e) == PassHistory(s0, 1, e)
  }

  lemma PassStarts(s0: seq<Elem>, e: int)
    requires 0 <= e && OuterInv(s0, e)
    ensures Passing(s0, [], s0, 1, e)
  {
    assert [] + PassHistory(s0, 1, e) == PassHistory(s0, 1, e);
  }

  lemma PassRecords(s0: seq<Elem>, hist: seq<seq<Elem>>, s: seq<Elem>, i: int, e: int,
                    step: seq<seq<Elem>>, hist': seq<seq<Elem>>)
    requires Passing(s0, hist, s, i, e) && i <= e
    requires step == PairSnapshots(s, i) && hist' == hist + step
    ensures Passing(s0, hist', PairStep(s, i), i + 1, e)
  {
    PairKeepsPass(s, i, e);
    var rest := PassHistory(PairStep(s, i), i + 1, e);
    assert PassHistory(s, i, e) == step + rest;
    AppendTwo(hist, hist', hist' + rest, step, rest, step + rest);
  }

  lemma PassDone(s0: seq<Elem>, hist: seq<seq<Elem>>, s: seq<Elem>, e: int)
    requires Passing(s0, hist, s, e + 1, e)
    ensures s == PassFrom(s0, 1, e) && hist == PassHistory(s0, 1, e)
    ensures PassInv(s, e + 1, e) && SameHeightBag(s, s0)
    ensures |hist| > 0 ==> hist[|hist| - 1] == s
  {
    assert hist + [] == hist;
  }

  /** The outer loop's record: finishing the passes from e gives the whole sort and its snapshots. */
  ghost predicate OuterAt(s0: seq<Elem>, hist: seq<seq<Elem>>, s: seq<Elem>, e: int) {
    && -1 <= e < |s| == |s0|
    && OuterPasses(s, e) == OuterPasses(s0, |s0| - 1)
    && hist + OuterHistory(s, e) == [s0] + OuterHistory(s0, |s0| - 1)
  }

  lemma OuterRecords(s0: seq<Elem>, hist: seq<seq<Elem>>, s: seq<Elem>, e: int,
                     hist1: seq<seq<Elem>>, p: seq<Elem>, hist2: seq<seq<Elem>>)
    requires OuterAt(s0, hist, s, e) && e >= 0
    requires hist1 == hist + PassHistory(s, 1, e)
    requires p == WithSortedReverse(PassFrom(s, 1, e), e, true) && hist2 == hist1 + [p]
    ensures OuterAt(s0, hist2, p, e - 1)
  {
    var x, z := PassHistory(s, 1, e), OuterHistory(p, e - 1);
    assert OuterHistory(s, e) == x + [p] + z;
    AppendChain(hist, hist1, hist2, hist2 + z, x, [p], z);
    AppendThree(hist, x, [p], z, OuterHistory(s, e));
  }

  /**
   * The two modes agree: the bars `FullSort` leaves have the same heights, in the same
   * order, as those the stepper leaves when driven to the end from the same input, and
   * both mark every bar sorted with no cursor.
   */
  lemma ModesAgree(input: seq<Elem>)
    requires |input| >= 2
    ensures var full := OuterPasses(InitState(input), |input| - 1);
      && Heights(Run(Start(input)).bars) == Heights(full)
      && AllSettled(Run(Start(input)).bars) && AllSettled(full)
  {
    StepperSorts(input);
    FullSortSorts(input);
    SortedPermutationUnique(Run(Start(input)).bars, OuterPasses(InitState(input), |input| - 1));
  }
}
