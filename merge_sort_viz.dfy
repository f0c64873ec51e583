/**
 * The merge sort driver (mergeSortViz.js): a recursive top-down merge sort over the
 * bars, recording a snapshot at every comparison of `merge` and after every copy-back.
 *
 * `merge` is specified by `MergeOrder`, the indices of the two halves in the order it
 * takes them, and by `MergedRange`, the snapshot it leaves; `mergesort` by `SortRange`
 * and `SortHistory`. What the source promises (sorted, a permutation, stable) is proved
 * about these functions.
 */
module MergeSort {
  import opened SortViz

  // ---------------------------------------------------------------------------
  // The order in which merge takes the indices of [i, mid] and [j, right]

  /**
   * The two-pointer walk of merge (mergeSortViz.js:107-127) over the heights h: while both
   * halves have entries, the smaller head is taken, the left one on a tie; then what is
   * left of either half follows in place.
   */
  function MergeOrder(h: seq<int>, i: int, mid: int, j: int, right: int): (r: seq<int>)
    requires 0 <= i <= mid + 1 <= j <= right + 1 <= |h|
    ensures |r| == (mid + 1 - i) + (right + 1 - j)
    ensures forall t :: 0 <= t < |r| ==> i <= r[t] <= mid || j <= r[t] <= right
    decreases (mid + 1 - i) + (right + 1 - j)
  {
    if i <= mid && j <= right then
      if h[i] <= h[j] then [i] + MergeOrder(h, i + 1, mid, j, right)
      else [j] + MergeOrder(h, i, mid, j + 1, right)
    else if i <= mid then [i] + MergeOrder(h, i + 1, mid, j, right)
    else if j <= right then [j] + MergeOrder(h, i, mid, j + 1, right)
    else []
  }

  /** The number of comparisons the walk makes: the steps taken while both halves have entries. */
  function Compared(h: seq<int>, i: int, mid: int, j: int, right: int): (c: nat)
    requires 0 <= i <= mid + 1 <= j <= right + 1 <= |h|
    ensures c <= (mid + 1 - i) + (right + 1 - j)
    ensures c == 0 <==> i > mid || j > right
    decreases (mid + 1 - i) + (right + 1 - j)
  {
    if i <= mid && j <= right then
      if h[i] <= h[j] then 1 + Compared(h, i + 1, mid, j, right)
      else 1 + Compared(h, i, mid, j + 1, right)
    else 0
  }

  /** The heights at the given indices, in that order. */
  function Pick(h: seq<int>, order: seq<int>): (r: seq<int>)
    requires forall t :: 0 <= t < |order| ==> 0 <= order[t] < |h|
    ensures |r| == |order|
  {
    seq(|order|, t requires 0 <= t < |order| => h[order[t]])
  }

  lemma PickCons(h: seq<int>, x: int, order: seq<int>)
    requires 0 <= x < |h| && forall t :: 0 <= t < |order| ==> 0 <= order[t] < |h|
    ensures Pick(h, [x] + order) == [h[x]] + Pick(h, order)
  {
  }

  /** The heights the walk takes are those of both halves, each as often as it occurs there. */
  predicate KeepsBag(h: seq<int>, i: int, mid: int, j: int, right: int)
    requires 0 <= i <= mid + 1 <= j <= right + 1 <= |h|
  {
    multiset(Pick(h, MergeOrder(h, i, mid, j, right))) == multiset(h[i..mid + 1]) + multiset(h[j..right + 1])
  }

  /** The merge takes every entry of both halves exactly once: the heights are a permutation. */
  lemma {:induction false} MergePermutes(h: seq<int>, i: int, mid: int, j: int, right: int)
    requires 0 <= i <= mid + 1 <= j <= right + 1 <= |h|
    ensures KeepsBag(h, i, mid, j, right)
    decreases (mid + 1 - i) + (right + 1 - j)
  {
    if i <= mid || j <= right {
      var takeLeft := i <= mid && (j > right || h[i] <= h[j]);
      var i', j' := if takeLeft then i + 1 else i, if takeLeft then j else j + 1;
      MergePermutes(h, i', mid, j', right);
      StepKeepsBag(h, i, mid, j, right, takeLeft, i', j');
    } else {
      NothingLeftKeepsBag(h, i, mid, j, right);
    }
  }

  /** One step of the walk keeps the bag: the entry taken joins the rest of the walk. */
  lemma StepKeepsBag(h: seq<int>, i: int, mid: int, j: int, right: int, takeLeft: bool, i': int, j': int)
    requires 0 <= i <= mid + 1 <= j <= right + 1 <= |h| && (i <= mid || j <= right)
    requires takeLeft == (i <= mid && (j > right || h[i] <= h[j]))
    requires i' == (if takeLeft then i + 1 else i) && j' == (if takeLeft then j else j + 1)
    requires KeepsBag(h, i', mid, j', right)
    ensures KeepsBag(h, i, mid, j, right)
  {
    if takeLeft {
      TakeLeftKeepsBag(h, i, mid, j, right);
    } else {
      TakeRightKeepsBag(h, i, mid, j, right);
    }
  }

  lemma NothingLeftKeepsBag(h: seq<int>, i: int, mid: int, j: int, right: int)
    requires 0 <= i <= mid + 1 <= j <= right + 1 <= |h| && i > mid && j > right
    ensures KeepsBag(h, i, mid, j, right)
  {
    assert h[i..mid + 1] == [] && h[j..right + 1] == [];
  }

  lemma TakeLeftKeepsBag(h: seq<int>, i: int, mid: int, j: int, right: int)
    requires 0 <= i <= mid < j <= right + 1 <= |h| && (j > right || h[i] <= h[j])
    requires KeepsBag(h, i + 1, mid, j, right)
    ensures KeepsBag(h, i, mid, j, right)
  {
    var rest := MergeOrder(h, i + 1, mid, j, right);
    assert MergeOrder(h, i, mid, j, right) == [i] + rest;
    PickCons(h, i, rest);
    var a, b := h[i + 1..mid + 1], h[j..right + 1];
    assert h[i..mid + 1] == [h[i]] + a;
    ConsBag(h[i], Pick(h, rest), a, b, h[i..mid + 1], b);
  }

  lemma TakeRightKeepsBag(h: seq<int>, i: int, mid: int, j: int, right: int)
    requires 0 <= i <= mid + 1 <= j <= right < |h| && (i > mid || h[i] > h[j])
    requires KeepsBag(h, i, mid, j + 1, right)
    ensures KeepsBag(h, i, mid, j, right)
  {
    var rest := MergeOrder(h, i, mid, j + 1, right);
    assert MergeOrder(h, i, mid, j, right) == [j] + rest;
    PickCons(h, j, rest);
    var a, b := h[i..mid + 1], h[j + 1..right + 1];
    assert h[j..right + 1] == [h[j]] + b;
    ConsBag(h[j], Pick(h, rest), a, b, a, h[j..right + 1]);
  }

  /** Putting x in front of p, where x joins one of the two halves. */
  lemma ConsBag(x: int, p: seq<int>, a: seq<int>, b: seq<int>, a': seq<int>, b': seq<int>)
    requires multiset(p) == multiset(a) + multiset(b)
    requires (a' == [x] + a && b' == b) || (a' == a && b' == [x] + b)
    ensures multiset([x] + p) == multiset(a') + multiset(b')
  {
  }

  /** Two ascending halves merge into an ascending sequence. */
  lemma {:induction false} MergeSorts(h: seq<int>, i: int, mid: int, j: int, right: int)
    requires 0 <= i <= mid + 1 <= j <= right + 1 <= |h|
    requires AscendingRange(h, i, mid + 1) && AscendingRange(h, j, right + 1)
    ensures Ascending(Pick(h, MergeOrder(h, i, mid, j, right)))
    decreases (mid + 1 - i) + (right + 1 - j)
  {
    if i <= mid || j <= right {
      var takeLeft := i <= mid && (j > right || h[i] <= h[j]);
      var i', j' := if takeLeft then i + 1 else i, if takeLeft then j else j + 1;
      StepKeepsHalves(h, i, mid, j, right, i', j');
      MergeSorts(h, i', mid, j', right);
      StepSorts(h, i, mid, j, right, takeLeft, i', j');
    } else {
      assert Pick(h, MergeOrder(h, i, mid, j, right)) == [];
    }
  }

  /** Dropping the head of either half keeps both halves ascending. */
  lemma StepKeepsHalves(h: seq<int>, i: int, mid: int, j: int, right: int, i': int, j': int)
    requires 0 <= i <= mid + 1 <= j <= right + 1 <= |h|
    requires (i <= mid && i' == i + 1 && j' == j) || (j <= right && i' == i && j' == j + 1)
    requires AscendingRange(h, i, mid + 1) && AscendingRange(h, j, right + 1)
    ensures 0 <= i' <= mid + 1 <= j' <= right + 1 <= |h|
    ensures AscendingRange(h, i', mid + 1) && AscendingRange(h, j', right + 1)
  {
  }

  /** One step of the walk keeps the taken heights ascending. */
  lemma StepSorts(h: seq<int>, i: int, mid: int, j: int, right: int, takeLeft: bool, i': int, j': int)
    requires 0 <= i <= mid + 1 <= j <= right + 1 <= |h| && (i <= mid || j <= right)
    requires takeLeft == (i <= mid && (j > right || h[i] <= h[j]))
    requires i' == (if takeLeft then i + 1 else i) && j' == (if takeLeft then j else j + 1)
    requires AscendingRange(h, i, mid + 1) && AscendingRange(h, j, right + 1)
    requires Ascending(Pick(h, MergeOrder(h, i', mid, j', right)))
    ensures Ascending(Pick(h, MergeOrder(h, i, mid, j, right)))
  {
    if takeLeft {
      TakeLeftSorts(h, i, mid, j, right);
    } else {
      TakeRightSorts(h, i, mid, j, right);
    }
  }

  lemma TakeLeftSorts(h: seq<int>, i: int, mid: int, j: int, right: int)
    requires 0 <= i <= mid < j <= right + 1 <= |h| && (j > right || h[i] <= h[j])
    requires AscendingRange(h, i, mid + 1) && AscendingRange(h, j, right + 1)
    requires Ascending(Pick(h, MergeOrder(h, i + 1, mid, j, right)))
    ensures Ascending(Pick(h, MergeOrder(h, i, mid, j, right)))
  {
    var rest := MergeOrder(h, i + 1, mid, j, right);
    assert MergeOrder(h, i, mid, j, right) == [i] + rest;
    PickCons(h, i, rest);
    HeadBelowRest(h, i, rest, i + 1, mid, j, right);
  }

  lemma TakeRightSorts(h: seq<int>, i: int, mid: int, j: int, right: int)
    requires 0 <= i <= mid + 1 <= j <= right < |h| && (i > mid || h[i] > h[j])
    requires AscendingRange(h, i, mid + 1) && AscendingRange(h, j, right + 1)
    requires Ascending(Pick(h, MergeOrder(h, i, mid, j + 1, right)))
    ensures Ascending(Pick(h, MergeOrder(h, i, mid, j, right)))
  {
    var rest := MergeOrder(h, i, mid, j + 1, right);
    assert MergeOrder(h, i, mid, j, right) == [j] + rest;
    PickCons(h, j, rest);
    HeadBelowRest(h, j, rest, i, mid, j + 1, right);
  }

  /** The entry taken first is below every entry still to come. */
  lemma HeadBelowRest(h: seq<int>, x: int, rest: seq<int>, i: int, mid: int, j: int, right: int)
    requires 0 <= i <= mid + 1 <= j <= right + 1 <= |h| && 0 <= x < |h|
    requires forall t :: 0 <= t < |rest| ==> i <= rest[t] <= mid || j <= rest[t] <= right
    requires AscendingRange(h, i, mid + 1) && AscendingRange(h, j, right + 1)
    requires i <= mid ==> h[x] <= h[i]
    requires j <= right ==> h[x] <= h[j]
    requires Ascending(Pick(h, rest))
    ensures Ascending([h[x]] + Pick(h, rest))
  {
    var p := Pick(h, rest);
    assert forall t :: 0 <= t < |p| ==> h[x] <= p[t];
    var q := [h[x]] + p;
    forall a, b | 0 <= a < b < |q|
      ensures q[a] <= q[b]
    {
      if a > 0 {
        assert q[a] == p[a - 1] && q[b] == p[b - 1];
      }
    }
  }

  /** Of two entries of `order` with the same height, the one from the earlier index comes first. */
  predicate Stable(h: seq<int>, order: seq<int>) {
    forall a, b ::
      (0 <= a < b < |order| && 0 <= order[a] < |h| && 0 <= order[b] < |h| && h[order[a]] == h[order[b]])
      ==> order[a] < order[b]
  }

  /**
   * The merge is stable: of two entries with the same height, the one from the earlier
   * index is taken first. This needs the left half in order: a right entry is taken ahead
   * of the left head only when it is strictly below it, hence below the whole left rest.
   */
  lemma {:induction false} MergeIsStable(h: seq<int>, i: int, mid: int, j: int, right: int)
    requires 0 <= i <= mid + 1 <= j <= right + 1 <= |h|
    requires AscendingRange(h, i, mid + 1)
    ensures Stable(h, MergeOrder(h, i, mid, j, right))
    decreases (mid + 1 - i) + (right + 1 - j)
  {
    if i <= mid && (j > right || h[i] <= h[j]) {
      MergeIsStable(h, i + 1, mid, j, right);
      TakeLeftStable(h, i, mid, j, right);
    } else if j <= right {
      MergeIsStable(h, i, mid, j + 1, right);
      TakeRightStable(h, i, mid, j, right);
    } else {
      assert MergeOrder(h, i, mid, j, right) == [];
    }
  }

  lemma TakeLeftStable(h: seq<int>, i: int, mid: int, j: int, right: int)
    requires 0 <= i <= mid < j <= right + 1 <= |h| && (j > right || h[i] <= h[j])
    requires Stable(h, MergeOrder(h, i + 1, mid, j, right))
    ensures Stable(h, MergeOrder(h, i, mid, j, right))
  {
    var rest := MergeOrder(h, i + 1, mid, j, right);
    var r := [i] + rest;
    assert MergeOrder(h, i, mid, j, right) == r;
    forall a, b | 0 <= a < b < |r| && 0 <= r[a] < |h| && 0 <= r[b] < |h| && h[r[a]] == h[r[b]]
      ensures r[a] < r[b]
    {
      if a > 0 {
        assert r[a] == rest[a - 1] && r[b] == rest[b - 1];
      } else {
        assert r[b] == rest[b - 1];
      }
    }
  }

  lemma TakeRightStable(h: seq<int>, i: int, mid: int, j: int, right: int)
    requires 0 <= i <= mid + 1 <= j <= right < |h| && (i > mid || h[i] > h[j])
    requires AscendingRange(h, i, mid + 1)
    requires Stable(h, MergeOrder(h, i, mid, j + 1, right))
    ensures Stable(h, MergeOrder(h, i, mid, j, right))
  {
    var rest := MergeOrder(h, i, mid, j + 1, right);
    var r := [j] + rest;
    assert MergeOrder(h, i, mid, j, right) == r;
    forall a, b | 0 <= a < b < |r| && 0 <= r[a] < |h| && 0 <= r[b] < |h| && h[r[a]] == h[r[b]]
      ensures r[a] < r[b]
    {
      if a > 0 {
        assert r[a] == rest[a - 1] && r[b] == rest[b - 1];
      } else {
        assert r[b] == rest[b - 1];
      }
    }
  }

  // ---------------------------------------------------------------------------
  // merge on a snapshot (mergeSortViz.js:90-135)

  /** Every index of `order` is an index of a sequence of length n. */
  predicate IndicesIn(order: seq<int>, n: int) {
    forall u :: 0 <= u < |order| ==> 0 <= order[u] < n
  }

  /**
   * The t-th bar pushed onto the scratch buffer: a copy of the bar at order[t] as it was
   * then. The first is pushed before any `setCurrent`; every later one after a
   * `setCurrent` on an index already taken, so with `current` cleared.
   */
  function Taken(s: seq<Elem>, order: seq<int>, t: int): (e: Elem)
    requires 0 <= t < |order| && IndicesIn(order, |s|)
    ensures e.height == s[order[t]].height && e.sorted == s[order[t]].sorted
    ensures e.current2 == s[order[t]].current2 && e.pivot == s[order[t]].pivot
    ensures t > 0 ==> !e.current
  {
    if t == 0 then s[order[0]] else s[order[t]].(current := false)
  }

  /** The order in which `merge(left, mid, right)` takes the indices. */
  function Order(s: seq<Elem>, left: int, mid: int, right: int): (r: seq<int>)
    requires 0 <= left <= mid < right < |s|
    ensures |r| == right - left + 1 && IndicesIn(r, |s|)
  {
    MergeOrder(Heights(s), left, mid, mid + 1, right)
  }

  /**
   * The snapshot the copy-back leaves when the bars were taken in the given order:
   * [left, right] holds the taken bars, each marked sorted; the `setCurrent` calls have
   * cleared `current` everywhere else.
   */
  function MergedFrom(s: seq<Elem>, order: seq<int>, left: int, right: int): (r: seq<Elem>)
    requires 0 <= left <= right < |s| && |order| == right - left + 1 && IndicesIn(order, |s|)
    ensures |r| == |s|
    ensures forall x :: left <= x <= right ==> r[x].sorted && r[x].height == s[order[x - left]].height
    ensures forall x :: 0 <= x < |s| && !(left <= x <= right) ==> r[x] == s[x].(current := false)
  {
    var r := seq(|s|, x requires 0 <= x < |s| =>
      if left <= x <= right then Taken(s, order, x - left).(sorted := true) else s[x].(current := false));
    assert forall x :: left <= x <= right ==> r[x] == Taken(s, order, x - left).(sorted := true);
    r
  }

  /** The snapshot `merge(left, mid, right)` leaves. */
  function MergedRange(s: seq<Elem>, left: int, mid: int, right: int): (r: seq<Elem>)
    requires 0 <= left <= mid < right < |s|
    ensures |r| == |s|
  {
    MergedFrom(s, Order(s, left, mid, right), left, right)
  }

  /** The snapshots taken at the first c comparisons: `current` on the index just taken. */
  function Marks(s: seq<Elem>, order: seq<int>, c: int): (r: seq<seq<Elem>>)
    requires 0 <= c <= |order|
    ensures |r| == c
  {
    seq(c, t requires 0 <= t < c => WithMark(s, Current, order[t]))
  }

  /** What `merge` records: one snapshot per comparison and one after the copy-back. */
  function MergeSnapshots(s: seq<Elem>, left: int, mid: int, right: int): (r: seq<seq<Elem>>)
    requires 0 <= left <= mid < right < |s|
    ensures |r| == Compared(Heights(s), left, mid, mid + 1, right) + 1 >= 2
    ensures r[|r| - 1] == MergedRange(s, left, mid, right)
  {
    Marks(s, Order(s, left, mid, right), Compared(Heights(s), left, mid, mid + 1, right))
      + [MergedRange(s, left, mid, right)]
  }

  /**
   * The heights the copy-back leaves: those before `left` and after `right` as they were,
   * the taken heights in between.
   */
  lemma MergedHeights(s: seq<Elem>, order: seq<int>, left: int, right: int)
    requires 0 <= left <= right < |s| && |order| == right - left + 1 && IndicesIn(order, |s|)
    ensures var h, g := Heights(s), Heights(MergedFrom(s, order, left, right));
      && g[..left] == h[..left] && g[right + 1..] == h[right + 1..]
      && g[left..right + 1] == Pick(h, order)
  {
    var h, g := Heights(s), Heights(MergedFrom(s, order, left, right));
    var p := Pick(h, order);
    assert forall x :: 0 <= x < left ==> g[x] == h[x];
    assert forall x :: right < x < |s| ==> g[x] == h[x];
    forall x | left <= x <= right
      ensures g[x] == p[x - left]
    {
      var k := order[x - left];
      assert MergedFrom(s, order, left, right)[x] == Taken(s, order, x - left).(sorted := true);
      assert g[x] == s[k].height == h[k];
    }
    assert g[left..right + 1] == p;
  }

  /** merge on the heights alone: [left, right] replaced by the heights in merge order. */
  function MergeHeights(h: seq<int>, left: int, mid: int, right: int): (g: seq<int>)
    requires 0 <= left <= mid < right < |h|
    ensures |g| == |h|
  {
    h[..left] + Pick(h, MergeOrder(h, left, mid, mid + 1, right)) + h[right + 1..]
  }

  /** Two ascending halves [left, mid] and [mid + 1, right] merge into the range sorted. */
  lemma MergeHeightsSorts(h: seq<int>, left: int, mid: int, right: int)
    requires 0 <= left <= mid < right < |h|
    requires AscendingRange(h, left, mid + 1) && AscendingRange(h, mid + 1, right + 1)
    ensures SortedOver(h, MergeHeights(h, left, mid, right), left, right)
  {
    var next := mid + 1;
    var p := Pick(h, MergeOrder(h, left, mid, next, right));
    var g := MergeHeights(h, left, mid, right);
    MergeHeightsParts(h, left, mid, right);
    MergeSorts(h, left, mid, next, right);
    MergePermutes(h, left, mid, next, right);
    PickedSorts(h, g, p, left, mid, right);
  }

  /** merge leaves the heights outside [left, right] alone and puts the merged ones inside. */
  lemma MergeHeightsParts(h: seq<int>, left: int, mid: int, right: int)
    requires 0 <= left <= mid < right < |h|
    ensures var g := MergeHeights(h, left, mid, right);
      && g[..left] == h[..left] && g[right + 1..] == h[right + 1..]
      && g[left..right + 1] == Pick(h, MergeOrder(h, left, mid, mid + 1, right))
  {
    var p := Pick(h, MergeOrder(h, left, mid, mid + 1, right));
    var g := MergeHeights(h, left, mid, right);
    assert g == (h[..left] + p) + h[right + 1..];
  }

  /** The heights of the snapshot merge leaves are the merged heights. */
  lemma MergedRangeHeights(s: seq<Elem>, left: int, mid: int, right: int)
    requires 0 <= left <= mid < right < |s|
    ensures Heights(MergedRange(s, left, mid, right)) == MergeHeights(Heights(s), left, mid, right)
  {
    var order := Order(s, left, mid, right);
    var g := Heights(MergedFrom(s, order, left, right));
    MergedHeights(s, order, left, right);
    Reassemble(g, Heights(s), Pick(Heights(s), order), left, right);
  }

  /** A sequence is its part before `left`, the range [left, right] and its part after `right`. */
  lemma Reassemble(g: seq<int>, h: seq<int>, p: seq<int>, left: int, right: int)
    requires 0 <= left <= right < |g| == |h|
    requires g[..left] == h[..left] && g[left..right + 1] == p && g[right + 1..] == h[right + 1..]
    ensures g == h[..left] + p + h[right + 1..]
  {
    assert g == g[..left] + g[left..right + 1] + g[right + 1..];
  }

  /** The heights-only step of MergeRangeSorts: a picked range that is ascending and a permutation. */
  lemma PickedSorts(h: seq<int>, g: seq<int>, p: seq<int>, left: int, mid: int, right: int)
    requires 0 <= left <= mid < right < |h| == |g|
    requires g[..left] == h[..left] && g[right + 1..] == h[right + 1..] && g[left..right + 1] == p
    requires Ascending(p) && multiset(p) == multiset(h[left..mid + 1]) + multiset(h[mid + 1..right + 1])
    ensures SortedOver(h, g, left, right)
  {
    assert h[left..right + 1] == h[left..mid + 1] + h[mid + 1..right + 1];
    AscendingShift(g, p, left, right + 1);
  }

  /** A slice equal to an ascending sequence is an ascending range. */
  lemma AscendingShift(g: seq<int>, p: seq<int>, lo: int, hi: int)
    requires 0 <= lo <= hi <= |g| && g[lo..hi] == p && Ascending(p)
    ensures AscendingRange(g, lo, hi)
  {
    assert forall a :: lo <= a < hi ==> g[a] == p[a - lo];
  }

  /**
   * Every bar of [left, right] is marked sorted; if no bar carried `current` before the
   * merge, none does after it.
   */
  lemma MergeMarksRange(s: seq<Elem>, order: seq<int>, left: int, right: int)
    requires 0 <= left <= right < |s| && |order| == right - left + 1 && IndicesIn(order, |s|)
    ensures var r := MergedFrom(s, order, left, right);
      && (forall x :: left <= x <= right ==> r[x].sorted)
      && (NoCurrent(s) ==> NoCurrent(r))
  {
    var r := MergedFrom(s, order, left, right);
    if NoCurrent(s) {
      forall x | 0 <= x < |r| ensures !r[x].current && !r[x].current2 {
        if left <= x <= right {
          assert r[x] == Taken(s, order, x - left).(sorted := true);
        }
      }
    }
  }

  /**
   * The copy-back of merge leaves the merged snapshot: g is the array after the three loops
   * (`current` on the last index compared), t the buffer, r the array after the copy-back.
   */
  lemma CopiedBackMerges(s: seq<Elem>, g: seq<Elem>, t: seq<Elem>, r: seq<Elem>, left: int, mid: int, right: int)
    requires 0 <= left <= mid < right < |s| == |r|
    requires |t| == right - left + 1
    requires forall k :: 0 <= k < |t| ==> t[k] == Taken(s, Order(s, left, mid, right), k)
    requires Compared(Heights(s), left, mid, mid + 1, right) > 0
    requires g == WithMark(s, Current, Order(s, left, mid, right)[Compared(Heights(s), left, mid, mid + 1, right) - 1])
    requires forall x :: 0 <= x < |r| && !(left <= x <= right) ==> r[x] == g[x]
    requires forall x :: left <= x <= right ==> r[x] == t[x - left].(sorted := true)
    ensures r == MergedRange(s, left, mid, right)
  {
    var order := Order(s, left, mid, right);
    var k := order[Compared(Heights(s), left, mid, mid + 1, right) - 1];
    CopyBackLands(s, g, t, r, order, k, left, right);
  }

  /** The same, for any order of taking and any marked index inside the range. */
  lemma CopyBackLands(s: seq<Elem>, g: seq<Elem>, t: seq<Elem>, r: seq<Elem>, order: seq<int>, k: int,
                      left: int, right: int)
    requires 0 <= left <= k <= right < |s| == |r|
    requires |t| == |order| == right - left + 1 && IndicesIn(order, |s|)
    requires forall u :: 0 <= u < |t| ==> t[u] == Taken(s, order, u)
    requires g == WithMark(s, Current, k)
    requires forall x :: 0 <= x < |r| && !(left <= x <= right) ==> r[x] == g[x]
    requires forall x :: left <= x <= right ==> r[x] == t[x - left].(sorted := true)
    ensures r == MergedFrom(s, order, left, right)
  {
    var m := MergedFrom(s, order, left, right);
    forall x | 0 <= x < |r|
      ensures r[x] == m[x]
    {
      if !(left <= x <= right) {
        UnmarkedElsewhere(s, g, k, x);
      }
    }
  }

  /** Marking one index clears `current` at every other index. */
  lemma UnmarkedElsewhere(s: seq<Elem>, g: seq<Elem>, k: int, x: int)
    requires g == WithMark(s, Current, k) && 0 <= x < |s| && x != k
    ensures g[x] == s[x].(current := false)
  {
  }

  /**
   * The next index the two-pointer walk takes: the head of the left half when the right half
   * is used up or the left head is not higher, the head of the right half otherwise.
   */
  lemma WalkNext(h: seq<int>, order: seq<int>, n: int, i: int, mid: int, j: int, right: int)
    requires 0 <= i <= mid + 1 <= j <= right + 1 <= |h| && (i <= mid || j <= right)
    requires 0 <= n <= |order| && order[n..] == MergeOrder(h, i, mid, j, right)
    ensures n < |order| && order[n] == (if i <= mid && (j > right || h[i] <= h[j]) then i else j)
  {
    assert order[n] == order[n..][0];
  }

  /**
   * After that step the rest of the walk starts one index further along the half taken from;
   * a comparison was counted only if both halves had entries.
   */
  lemma Walked(h: seq<int>, order: seq<int>, n: int, n': int, i: int, i': int, mid: int, j: int, j': int, right: int)
    requires 0 <= i <= mid + 1 <= j <= right + 1 <= |h| && (i <= mid || j <= right)
    requires 0 <= n <= |order| && order[n..] == MergeOrder(h, i, mid, j, right) && n' == n + 1
    requires if i <= mid && (j > right || h[i] <= h[j]) then i' == i + 1 && j' == j else i' == i && j' == j + 1
    ensures order[n'..] == MergeOrder(h, i', mid, j', right)
    ensures Compared(h, i, mid, j, right) == (if i <= mid && j <= right then 1 else 0) + Compared(h, i', mid, j', right)
  {
    assert order[n + 1..] == order[n..][1..];
  }

  /** The walk as merge starts it, with the start of the right half held in a variable. */
  lemma WalkStart(h: seq<int>, left: int, mid: int, j: int, right: int)
    requires 0 <= left <= mid < right < |h| && j == mid + 1
    ensures MergeOrder(h, left, mid, j, right) == MergeOrder(h, left, mid, mid + 1, right)
    ensures Compared(h, left, mid, j, right) == Compared(h, left, mid, mid + 1, right)
  {
  }

  /**
   * The state of merge's first loop over the snapshot s, with the history h0 before the merge:
   * g the array, hist the history, buf the buffer, i and j the heads of the halves, last the
   * index taken at the latest step; c counts the comparisons of the whole walk.
   */
  ghost predicate Walking(s: seq<Elem>, h0: seq<seq<Elem>>, order: seq<int>, c: int, left: int, mid: int, right: int,
                          g: seq<Elem>, hist: seq<seq<Elem>>, buf: seq<Elem>, i: int, j: int, last: int)
  {
    && 0 <= left <= i <= mid + 1 <= j <= right + 1 <= |s| == |g|
    && |buf| == (i - left) + (j - mid - 1)
    && IndicesIn(order, |s|) && |buf| <= |order|
    && order[|buf|..] == MergeOrder(Heights(s), i, mid, j, right)
    && c == |buf| + Compared(Heights(s), i, mid, j, right)
    && c == Compared(Heights(s), left, mid, mid + 1, right)
    && (forall t :: 0 <= t < |buf| ==> buf[t] == Taken(s, order, t))
    && MarkedAt(s, g, |buf|, last)
    && (|buf| > 0 ==> last == order[|buf| - 1] && (last < i || mid < last < j))
    && hist == h0 + Marks(s, order, |buf|)
  }

  /** One step of the first loop keeps its state. */
  lemma WalkStep(s: seq<Elem>, h0: seq<seq<Elem>>, order: seq<int>, c: int, left: int, mid: int, right: int,
                 g: seq<Elem>, hist: seq<seq<Elem>>, buf: seq<Elem>, i: int, j: int, last: int,
                 g': seq<Elem>, hist': seq<seq<Elem>>, buf': seq<Elem>, i': int, j': int, x: int)
    requires Walking(s, h0, order, c, left, mid, right, g, hist, buf, i, j, last) && i <= mid && j <= right
    requires x == (if g[i].height <= g[j].height then i else j)
    requires buf' == buf + [g[x]] && g' == WithMark(g, Current, x) && hist' == hist + [g']
    requires if x == i then i' == i + 1 && j' == j else i' == i && j' == j + 1
    ensures Walking(s, h0, order, c, left, mid, right, g', hist', buf', i', j', x)
  {
    var h, n, n' := Heights(s), |buf|, |buf'|;
    WalkNext(h, order, n, i, mid, j, right);
    KeepsHeights(s, g, n, last);
    TakenAt(s, g, order, n, x, last);
    MarkAgain(s, g, n, last, x);
    MarksGrow(h0, hist, hist', g', s, order, n, n');
    Walked(h, order, n, n', i, i', mid, j, j', right);
    TakenGrow(s, order, buf, buf');
  }

  /** When the first loop stops, every comparison has been made and at least one was. */
  lemma WalkEnds(s: seq<Elem>, h0: seq<seq<Elem>>, order: seq<int>, c: int, left: int, mid: int, right: int,
                 g: seq<Elem>, hist: seq<seq<Elem>>, buf: seq<Elem>, i: int, j: int, last: int)
    requires Walking(s, h0, order, c, left, mid, right, g, hist, buf, i, j, last) && (i > mid || j > right)
    requires left <= mid < right
    ensures |buf| == c > 0 && last == order[c - 1] && g == WithMark(s, Current, last)
  {
  }

  /** Pushing the bar Taken(s, order, |a|) onto a buffer of the first |a| taken bars. */
  lemma TakenGrow(s: seq<Elem>, order: seq<int>, a: seq<Elem>, b: seq<Elem>)
    requires IndicesIn(order, |s|) && |a| < |order| && |b| == |a| + 1 && b == a + [b[|a|]]
    requires b[|a|] == Taken(s, order, |a|)
    requires forall t :: 0 <= t < |a| ==> a[t] == Taken(s, order, t)
    ensures forall t :: 0 <= t < |b| ==> b[t] == Taken(s, order, t)
  {
  }

  /** Before the walk's first step the array is as it was; after, `current` sits on the last index taken. */
  predicate MarkedAt(s: seq<Elem>, g: seq<Elem>, n: int, last: int) {
    (n == 0 && g == s) || (n > 0 && g == WithMark(s, Current, last))
  }

  /** Marking keeps every height. */
  lemma KeepsHeights(s: seq<Elem>, g: seq<Elem>, n: int, last: int)
    requires MarkedAt(s, g, n, last)
    ensures |g| == |s| && forall x :: 0 <= x < |g| ==> g[x].height == Heights(s)[x]
  {
  }

  /** The bar the walk pushes at step n is Taken(s, order, n). */
  lemma TakenAt(s: seq<Elem>, g: seq<Elem>, order: seq<int>, n: int, x: int, last: int)
    requires 0 <= n < |order| && IndicesIn(order, |s|) && order[n] == x
    requires MarkedAt(s, g, n, last) && (n > 0 ==> last != x)
    ensures g[x] == Taken(s, order, n)
  {
  }

  /** Marking the next index taken leaves `current` on it alone. */
  lemma MarkAgain(s: seq<Elem>, g: seq<Elem>, n: int, last: int, x: int)
    requires MarkedAt(s, g, n, last)
    ensures WithMark(g, Current, x) == WithMark(s, Current, x)
  {
    if n > 0 {
      MarkTwice(s, last, x);
    }
  }

  /** Recording the snapshot of step n extends the recorded marks by one. */
  lemma MarksGrow(a: seq<seq<Elem>>, c: seq<seq<Elem>>, b: seq<seq<Elem>>, r: seq<Elem>, s: seq<Elem>,
                  order: seq<int>, n: int, n': int)
    requires 0 <= n < |order| && n' == n + 1
    requires c == a + Marks(s, order, n) && b == c + [r] && r == WithMark(s, Current, order[n])
    ensures b == a + Marks(s, order, n')
  {
    AppendTwo(a, c, b, Marks(s, order, n), [r], Marks(s, order, n'));
  }

  /** What merge records: its comparison snapshots, then the merged snapshot. */
  lemma MergeHistory(a: seq<seq<Elem>>, c: seq<seq<Elem>>, b: seq<seq<Elem>>, r: seq<Elem>, s: seq<Elem>,
                     left: int, mid: int, right: int)
    requires 0 <= left <= mid < right < |s|
    requires c == a + Marks(s, Order(s, left, mid, right), Compared(Heights(s), left, mid, mid + 1, right))
    requires r == MergedRange(s, left, mid, right) && b == c + [r]
    ensures b == a + MergeSnapshots(s, left, mid, right)
  {
    var x := Marks(s, Order(s, left, mid, right), Compared(Heights(s), left, mid, mid + 1, right));
    AppendTwo(a, c, b, x, [r], MergeSnapshots(s, left, mid, right));
  }

  // ---------------------------------------------------------------------------
  // mergesort on a snapshot (mergeSortViz.js:71-82)

  /** The split point, `Math.floor((left + right) / 2)` (both are non-negative). */
  function Middle(left: int, right: int): (mid: int)
    requires 0 <= left < right
    ensures left <= mid < right
  {
    (left + right) / 2
  }

  /**
   * The snapshot `mergesort(left, right)` leaves: [left, right] ascending and holding the
   * same heights, the heights outside the range where they were.
   */
  function SortRange(s: seq<Elem>, left: int, right: int): (r: seq<Elem>)
    requires 0 <= left <= right + 1 <= |s|
    ensures |r| == |s|
    ensures SortedOver(Heights(s), Heights(r), left, right)
    ensures NoCurrent(s) ==> NoCurrent(r)
    ensures right > left ==> forall x :: left <= x <= right ==> r[x].sorted
    decreases right - left
  {
    if right > left then
      var mid := Middle(left, right);
      var s1 := SortRange(s, left, mid);
      var s2 := SortRange(s1, mid + 1, right);
      HalvesThenMergeSorts(s, s1, s2, left, mid, right);
      MergeMarksRange(s2, Order(s2, left, mid, right), left, right);
      MergedRange(s2, left, mid, right)
    else s
  }

  /** The snapshots `mergesort(left, right)` records. */
  function SortHistory(s: seq<Elem>, left: int, right: int): (hs: seq<seq<Elem>>)
    requires 0 <= left <= right + 1 <= |s|
    ensures (hs == []) == (right <= left)
    decreases right - left
  {
    if right > left then
      var mid := Middle(left, right);
      var s1 := SortRange(s, left, mid);
      var s2 := SortRange(s1, mid + 1, right);
      SortHistory(s, left, mid) + SortHistory(s1, mid + 1, right) + MergeSnapshots(s2, left, mid, right)
    else []
  }

  /** The recursive case of SortRange: sorting both halves, then merging them, sorts the range. */
  lemma HalvesThenMergeSorts(s: seq<Elem>, s1: seq<Elem>, s2: seq<Elem>, left: int, mid: int, right: int)
    requires 0 <= left <= mid < right < |s| == |s1| == |s2|
    requires SortedOver(Heights(s), Heights(s1), left, mid)
    requires SortedOver(Heights(s1), Heights(s2), mid + 1, right)
    ensures SortedOver(Heights(s), Heights(MergedRange(s2, left, mid, right)), left, right)
  {
    var h, h1, h2 := Heights(s), Heights(s1), Heights(s2);
    HalvesSorted(h, h1, h2, left, mid, right);
    MergeHeightsSorts(h2, left, mid, right);
    MergedRangeHeights(s2, left, mid, right);
    SplitBag(h, h1, h2, MergeHeights(h2, left, mid, right), left, mid, right);
  }

  /** After sorting both halves one after the other, each half is ascending. */
  lemma HalvesSorted(h: seq<int>, h1: seq<int>, h2: seq<int>, left: int, mid: int, right: int)
    requires 0 <= left <= mid < right < |h| == |h1| == |h2|
    requires SortedOver(h, h1, left, mid) && SortedOver(h1, h2, mid + 1, right)
    ensures AscendingRange(h2, left, mid + 1) && AscendingRange(h2, mid + 1, right + 1)
  {
    assert forall a :: left <= a <= mid ==> h2[a] == h2[..mid + 1][a] == h1[..mid + 1][a];
  }

  /** Bookkeeping of the recursive case: sorting both halves and then merging sorts the range. */
  lemma SplitBag(h: seq<int>, h1: seq<int>, h2: seq<int>, g: seq<int>, left: int, mid: int, right: int)
    requires 0 <= left <= mid < right < |h| == |h1| == |h2| == |g|
    requires SortedOver(h, h1, left, mid) && SortedOver(h1, h2, mid + 1, right)
    requires SortedOver(h2, g, left, right)
    ensures SortedOver(h, g, left, right)
  {
    assert h2[left..right + 1] == h2[left..mid + 1] + h2[mid + 1..right + 1];
    assert h[left..right + 1] == h[left..mid + 1] + h[mid + 1..right + 1];
    assert h2[left..mid + 1] == h1[left..mid + 1] by {
      assert forall a :: left <= a <= mid ==> h2[a] == h2[..mid + 1][a] == h1[..mid + 1][a];
    }
    assert h1[mid + 1..right + 1] == h[mid + 1..right + 1] by {
      assert forall a :: mid < a <= right ==> h1[a] == h1[mid + 1..][a - mid - 1] == h[mid + 1..][a - mid - 1];
    }
    assert g[..left] == h[..left] by {
      assert forall a :: 0 <= a < left ==> g[a] == h2[a] == h1[a] == h[a];
    }
    assert g[right + 1..] == h[right + 1..] by {
      assert forall a :: right < a < |g| ==> g[a] == h2[a] == h1[a] == h[a];
    }
  }

  /** One step of mergesort: sorting both halves and merging them is sorting the range. */
  lemma SortStep(s: seq<Elem>, s1: seq<Elem>, s2: seq<Elem>, s3: seq<Elem>, left: int, right: int)
    requires 0 <= left < right < |s|
    requires s1 == SortRange(s, left, Middle(left, right))
    requires s2 == SortRange(s1, Middle(left, right) + 1, right)
    requires s3 == MergedRange(s2, left, Middle(left, right), right)
    ensures s3 == SortRange(s, left, right)
  {
  }

  /** One step of mergesort's history: the halves' snapshots, then the merge's. */
  lemma HistoryUnfolds(s: seq<Elem>, s1: seq<Elem>, s2: seq<Elem>, left: int, right: int)
    requires 0 <= left < right < |s|
    requires s1 == SortRange(s, left, Middle(left, right))
    requires s2 == SortRange(s1, Middle(left, right) + 1, right)
    ensures SortHistory(s, left, right) == SortHistory(s, left, Middle(left, right))
      + SortHistory(s1, Middle(left, right) + 1, right) + MergeSnapshots(s2, left, Middle(left, right), right)
  {
  }

  /** The same, appended to what was recorded before. */
  lemma HistoryAppends(s: seq<Elem>, s1: seq<Elem>, s2: seq<Elem>, a: seq<seq<Elem>>, left: int, right: int)
    requires 0 <= left < right < |s|
    requires s1 == SortRange(s, left, Middle(left, right))
    requires s2 == SortRange(s1, Middle(left, right) + 1, right)
    ensures a + SortHistory(s, left, Middle(left, right)) + SortHistory(s1, Middle(left, right) + 1, right)
      + MergeSnapshots(s2, left, Middle(left, right), right) == a + SortHistory(s, left, right)
  {
    var x, y, z, w := SortHistory(s, left, Middle(left, right)), SortHistory(s1, Middle(left, right) + 1, right),
      MergeSnapshots(s2, left, Middle(left, right), right), SortHistory(s, left, right);
    HistoryUnfolds(s, s1, s2, left, right);
    AppendThree(a, x, y, z, w);
  }

  /** One step of mergesort's history, recorded one part after the other. */
  lemma HistoryStep(s: seq<Elem>, s1: seq<Elem>, s2: seq<Elem>, a: seq<seq<Elem>>, b: seq<seq<Elem>>,
                    c: seq<seq<Elem>>, d: seq<seq<Elem>>, left: int, right: int)
    requires 0 <= left < right < |s|
    requires s1 == SortRange(s, left, Middle(left, right))
    requires s2 == SortRange(s1, Middle(left, right) + 1, right)
    requires b == a + SortHistory(s, left, Middle(left, right))
    requires c == b + SortHistory(s1, Middle(left, right) + 1, right)
    requires d == c + MergeSnapshots(s2, left, Middle(left, right), right)
    ensures d == a + SortHistory(s, left, right)
  {
    HistoryAppends(s, s1, s2, a, left, right);
    AppendChain(a, b, c, d, SortHistory(s, left, Middle(left, right)), SortHistory(s1, Middle(left, right) + 1, right),
      MergeSnapshots(s2, left, Middle(left, right), right));
  }

  /**
   * The recursive case of mergesort as the driver runs it, with the split point and the start
   * of the right half computed by the caller: the range ends sorted and the history grows by
   * the range's snapshots.
   */
  lemma SortsBySplitting(s: seq<Elem>, s1: seq<Elem>, s2: seq<Elem>, s3: seq<Elem>, a: seq<seq<Elem>>,
                         b: seq<seq<Elem>>, c: seq<seq<Elem>>, d: seq<seq<Elem>>,
                         left: int, mid: int, next: int, right: int)
    requires 0 <= left < right < |s| && mid == (left + right) / 2 && next == mid + 1
    requires s1 == SortRange(s, left, mid) && b == a + SortHistory(s, left, mid)
    requires s2 == SortRange(s1, next, right) && c == b + SortHistory(s1, next, right)
    requires s3 == MergedRange(s2, left, mid, right) && d == c + MergeSnapshots(s2, left, mid, right)
    ensures s3 == SortRange(s, left, right) && d == a + SortHistory(s, left, right)
  {
    SameSplit(s, s1, s2, s3, a, b, c, d, left, mid, next, right);
  }

  /** The same, once the split point is known to be Middle(left, right). */
  lemma SameSplit(s: seq<Elem>, s1: seq<Elem>, s2: seq<Elem>, s3: seq<Elem>, a: seq<seq<Elem>>,
                  b: seq<seq<Elem>>, c: seq<seq<Elem>>, d: seq<seq<Elem>>,
                  left: int, mid: int, next: int, right: int)
    requires 0 <= left < right < |s| && mid == Middle(left, right) && next == Middle(left, right) + 1
    requires s1 == SortRange(s, left, mid) && b == a + SortHistory(s, left, mid)
    requires s2 == SortRange(s1, next, right) && c == b + SortHistory(s1, next, right)
    requires s3 == MergedRange(s2, left, mid, right) && d == c + MergeSnapshots(s2, left, mid, right)
    ensures s3 == SortRange(s, left, right) && d == a + SortHistory(s, left, right)
  {
    SortStep(s, s1, s2, s3, left, right);
    HistoryStep(s, s1, s2, a, b, c, d, left, right);
  }

  /** A range of fewer than two bars is left as it is, and records nothing. */
  lemma SortNothing(s: seq<Elem>, left: int, right: int)
    requires 0 <= left <= right + 1 <= |s| && right <= left
    ensures SortRange(s, left, right) == s && SortHistory(s, left, right) == []
  {
  }

  /** A range of two or more records its last snapshot at the top-level merge: the range as sorted. */
  lemma SortHistoryEnds(s: seq<Elem>, left: int, right: int)
    requires 0 <= left <= right + 1 <= |s|
    ensures right <= left ==> SortHistory(s, left, right) == []
    ensures right > left ==>
      (|SortHistory(s, left, right)| >= 2
       && SortHistory(s, left, right)[|SortHistory(s, left, right)| - 1] == SortRange(s, left, right))
  {
  }

  /** Sorting a whole array of two or more bars with no current flag leaves every bar settled. */
  lemma SortSettles(s: seq<Elem>, r: seq<Elem>, last: int)
    requires 0 < last == |s| - 1 && NoCurrent(s) && r == SortRange(s, 0, last)
    ensures AllSettled(r)
  {
  }

  // ---------------------------------------------------------------------------
  // Small facts about the flag helpers used by merge

  /** A second `setCurrent` overrides the first. */
  lemma MarkTwice(s: seq<Elem>, a: int, b: int)
    ensures WithMark(WithMark(s, Current, a), Current, b) == WithMark(s, Current, b)
  {
    var r, t := WithMark(WithMark(s, Current, a), Current, b), WithMark(s, Current, b);
    assert forall x :: 0 <= x < |s| ==> r[x] == t[x];
  }

  class MergeSortViz {
    /** The bars being sorted (the source's `this.array`). */
    const arr: array<Elem>
    /** Every snapshot recorded so far. */
    var arrayHistory: seq<seq<Elem>>

    constructor (input: array<Elem>)
      ensures arr == input && arrayHistory == []
    {
      arr := input;
      arrayHistory := [];
    }

    /** The merge driver's `init` (mergeSortViz.js:30-34): only `setSorted(-1)`. */
    method Init()
      modifies arr
      ensures arr[..] == WithSorted(old(arr[..]), -1)
    {
      SetSorted(arr, -1);
    }

    /**
     * fullSort (mergeSortViz.js:43-62): `init`, then `mergesort(0, length - 1)`; returns the
     * history field.
     */
    method FullSort() returns (history: seq<seq<Elem>>)
      modifies this, arr
      ensures arr[..] == SortRange(WithSorted(old(arr[..]), -1), 0, arr.Length - 1)
      ensures history == arrayHistory
        == old(arrayHistory) + SortHistory(WithSorted(old(arr[..]), -1), 0, arr.Length - 1)
      ensures Sorted(arr[..]) && SameHeightBag(arr[..], old(arr[..]))
      ensures arr.Length >= 2 ==> AllSettled(arr[..]) && history[|history| - 1] == arr[..]
    {
      Init();
      ghost var s := arr[..];
      var last := arr.Length - 1;
      MergeSortRange(0, last);
      history := arrayHistory;
      SortHistoryEnds(s, 0, last);
      WholeRange(Heights(s), Heights(arr[..]));
      if last > 0 {
        SortSettles(s, arr[..], last);
      }
    }

    /** mergesort (mergeSortViz.js:71-82). */
    method MergeSortRange(left: int, right: int)
      requires 0 <= left <= right + 1 <= arr.Length
      modifies this, arr
      ensures arr[..] == SortRange(old(arr[..]), left, right)
      ensures arrayHistory == old(arrayHistory) + SortHistory(old(arr[..]), left, right)
      decreases right - left
    {
      ghost var s, h0 := arr[..], arrayHistory;
      if right > left {
        var middle := (left + right) / 2;
        var next := middle + 1;
        MergeSortRange(left, middle);
        ghost var s1, h1 := arr[..], arrayHistory;
        MergeSortRange(next, right);
        ghost var s2, h2 := arr[..], arrayHistory;
        Merge(left, middle, right);
        SortsBySplitting(s, s1, s2, arr[..], h0, h1, h2, arrayHistory, left, middle, next, right);
      } else {
        SortNothing(s, left, right);
      }
    }

    /**
     * merge (mergeSortViz.js:90-135). The source returns at once when `left === right`;
     * mergesort only calls it with left < right, and then the right half is not empty.
     */
    method Merge(left: int, mid: int, right: int)
      requires 0 <= left <= mid < right < arr.Length
      modifies this, arr
      ensures arr[..] == MergedRange(old(arr[..]), left, mid, right)
      ensures arrayHistory == old(arrayHistory) + MergeSnapshots(old(arr[..]), left, mid, right)
    {
      ghost var s, h0 := arr[..], arrayHistory;
      var tArr := Gather(left, mid, right);
      ghost var g, h1 := arr[..], arrayHistory;
      CopyBack(tArr, left, right);
      CopiedBackMerges(s, g, tArr, arr[..], left, mid, right);
      var snap := CopyArray(arr);
      arrayHistory := arrayHistory + [snap];
      MergeHistory(h0, h1, arrayHistory, snap, s, left, mid, right);
    }

    /**
     * The three loops of merge that fill the scratch buffer (mergeSortViz.js:102-127): the
     * buffer ends with right - left + 1 bars, the bars taken in merge order; `current` sits on
     * the index taken at the last comparison, and one snapshot per comparison is recorded.
     */
    method Gather(left: int, mid: int, right: int) returns (tArr: seq<Elem>)
      requires 0 <= left <= mid < right < arr.Length
      modifies this, arr
      ensures |tArr| == right - left + 1
      ensures forall t :: 0 <= t < |tArr| ==> tArr[t] == Taken(old(arr[..]), Order(old(arr[..]), left, mid, right), t)
      ensures var order := Order(old(arr[..]), left, mid, right);
        var c := Compared(Heights(old(arr[..])), left, mid, mid + 1, right);
        && c > 0 && arr[..] == WithMark(old(arr[..]), Current, order[c - 1])
        && arrayHistory == old(arrayHistory) + Marks(old(arr[..]), order, c)
    {
      ghost var s := arr[..];
      var i, j;
      ghost var last;
      i, j, tArr, last := Walk(left, mid, right);
      tArr := Drain(left, mid, right, i, j, tArr, s, Order(s, left, mid, right), last);
    }

    /**
     * The first loop of merge (mergeSortViz.js:102-118): while both halves have bars, the
     * lower head is taken; it stops when one half is used up, after one step per comparison.
     */
    method Walk(left: int, mid: int, right: int) returns (i: int, j: int, tArr: seq<Elem>, ghost last: int)
      requires 0 <= left <= mid < right < arr.Length
      modifies this, arr
      ensures left <= i <= mid + 1 <= j <= right + 1 && (i > mid || j > right)
      ensures var order, c := Order(old(arr[..]), left, mid, right), Compared(Heights(old(arr[..])), left, mid, mid + 1, right);
        && |tArr| == (i - left) + (j - mid - 1) == c > 0
        && order[|tArr|..] == MergeOrder(Heights(old(arr[..])), i, mid, j, right)
        && (forall t :: 0 <= t < |tArr| ==> tArr[t] == Taken(old(arr[..]), order, t))
        && last == order[c - 1] && (last < i || mid < last < j)
        && arr[..] == WithMark(old(arr[..]), Current, last)
        && arrayHistory == old(arrayHistory) + Marks(old(arr[..]), order, c)
    {
      ghost var s, h0 := arr[..], arrayHistory;
      ghost var h := Heights(s);
      ghost var order := Order(s, left, mid, right);
      ghost var c := Compared(h, left, mid, mid + 1, right);
      i := left;
      j := mid + 1;
      WalkStart(h, left, mid, j, right);
      last := left;
      tArr := [];
      while i <= mid && j <= right
        invariant Walking(s, h0, order, c, left, mid, right, arr[..], arrayHistory, tArr, i, j, last)
        decreases (mid + 1 - i) + (right + 1 - j)
      {
        ghost var before, hist, buf, i0, j0 := arr[..], arrayHistory, tArr, i, j;
        ghost var x := if before[i].height <= before[j].height then i else j;
        i, j, tArr := TakeSmaller(i, mid, j, right, tArr);
        WalkStep(s, h0, order, c, left, mid, right, before, hist, buf, i0, j0, last, arr[..], arrayHistory, tArr, i, j, x);
        last := x;
      }
      WalkEnds(s, h0, order, c, left, mid, right, arr[..], arrayHistory, tArr, i, j, last);
    }

    /**
     * One step of merge's first loop (mergeSortViz.js:107-117): a copy of the lower head,
     * the left one on a tie, is pushed and marked current, its half moves on, and a
     * snapshot is recorded.
     */
    method TakeSmaller(i: int, mid: int, j: int, right: int, buf: seq<Elem>) returns (i': int, j': int, tArr: seq<Elem>)
      requires 0 <= i <= mid < j <= right < arr.Length
      modifies this, arr
      ensures var x := if old(arr[i].height) <= old(arr[j].height) then i else j;
        && tArr == buf + [old(arr[x])] && arr[..] == WithMark(old(arr[..]), Current, x)
        && (if x == i then i' == i + 1 && j' == j else i' == i && j' == j + 1)
      ensures arrayHistory == old(arrayHistory) + [arr[..]]
    {
      if Compare(arr[i], arr[j]) <= 0 {
        tArr := buf + [arr[i]];
        SetCurrent(arr, i);
        i', j' := i + 1, j;
      } else {
        tArr := buf + [arr[j]];
        SetCurrent(arr, j);
        i', j' := i, j + 1;
      }
      var snap := CopyArray(arr);
      arrayHistory := arrayHistory + [snap];
    }

    /**
     * The last two loops of merge (mergeSortViz.js:120-127): once one half is used up, the
     * rest of the other follows in place; no comparison is made and no snapshot recorded.
     */
    method Drain(left: int, mid: int, right: int, i0: int, j0: int, buf: seq<Elem>,
                 ghost s: seq<Elem>, ghost order: seq<int>, ghost last: int) returns (tArr: seq<Elem>)
      requires 0 <= left <= i0 <= mid + 1 <= j0 <= right + 1 <= arr.Length == |s|
      requires (i0 > mid || j0 > right) && |buf| == (i0 - left) + (j0 - mid - 1) && |buf| > 0
      requires IndicesIn(order, |s|) && |buf| <= |order|
      requires order[|buf|..] == MergeOrder(Heights(s), i0, mid, j0, right)
      requires forall t :: 0 <= t < |buf| ==> buf[t] == Taken(s, order, t)
      requires last == order[|buf| - 1] && arr[..] == WithMark(s, Current, last)
      requires last < i0 || mid < last < j0
      ensures |tArr| == right - left + 1
      ensures forall t :: 0 <= t < |tArr| ==> tArr[t] == Taken(s, order, t)
    {
      ghost var h := Heights(s);
      tArr := buf;
      var i, j := i0, j0;
      while i <= mid
        invariant i0 <= i <= mid + 1 && j == j0
        invariant i <= mid ==> j == right + 1
        invariant |tArr| == (i - left) + (j - mid - 1) && |tArr| <= |order|
        invariant order[|tArr|..] == MergeOrder(h, i, mid, j, right)
        invariant forall t :: 0 <= t < |tArr| ==> tArr[t] == Taken(s, order, t)
        invariant last < i || mid < last < j
      {
        ghost var n, taken, i1 := |tArr|, tArr, i;
        WalkNext(h, order, n, i, mid, j, right);
        TakenAt(s, arr[..], order, n, i, last);
        tArr := tArr + [arr[i]];
        i := i + 1;
        Walked(h, order, n, |tArr|, i1, i, mid, j, j, right);
        TakenGrow(s, order, taken, tArr);
      }
      while j <= right
        invariant i == mid + 1 <= j <= right + 1
        invariant |tArr| == (i - left) + (j - mid - 1) && |tArr| <= |order|
        invariant order[|tArr|..] == MergeOrder(h, i, mid, j, right)
        invariant forall t :: 0 <= t < |tArr| ==> tArr[t] == Taken(s, order, t)
        invariant last < j
      {
        ghost var n, taken, j1 := |tArr|, tArr, j;
        WalkNext(h, order, n, i, mid, j, right);
        TakenAt(s, arr[..], order, n, j, last);
        tArr := tArr + [arr[j]];
        j := j + 1;
        Walked(h, order, n, |tArr|, i, i, mid, j1, j, right);
        TakenGrow(s, order, taken, tArr);
      }
    }

    /**
     * The copy-back loop of merge (mergeSortViz.js:130-133): the buffer's bars land on
     * [left, right], each marked sorted.
     */
    method CopyBack(tArr: seq<Elem>, left: int, right: int)
      requires 0 <= left <= right < arr.Length && |tArr| == right - left + 1
      modifies arr
      ensures forall x :: 0 <= x < arr.Length && !(left <= x <= right) ==> arr[x] == old(arr[x])
      ensures forall x :: left <= x <= right ==> arr[x] == tArr[x - left].(sorted := true)
    {
      var t := left;
      var i := 0;
      while t <= right
        invariant left <= t <= right + 1 && i == t - left
        invariant forall x :: 0 <= x < arr.Length && !(left <= x < t) ==> arr[x] == old(arr[x])
        invariant forall x :: left <= x < t ==> arr[x] == tArr[x - left].(sorted := true)
      {
        arr[t] := tArr[i];
        arr[t] := arr[t].(sorted := true);
        t := t + 1;
        i := i + 1;
      }
    }
  }
}
