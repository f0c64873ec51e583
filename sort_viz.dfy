/**
 * The shared base of the four sort drivers: the element record, the comparator,
 * the flag helpers every driver calls, the snapshot copier and the base `init`.
 *
 * The base class of the source keeps the array as a field and its helpers loop
 * over it; here the helpers are module-level methods over the driver's
 * `array<Elem>`, and each is specified by a function on the snapshot `a[..]`.
 */
module SortViz {

  /** One bar of the visualisation: the compared value plus its display flags. */
  datatype Elem = Elem(height: int, current: bool, current2: bool, pivot: bool, sorted: bool) {

    function Get(m: Mark): bool {
      match m
      case Current => current
      case Current2 => current2
      case Pivot => pivot
    }

    function Set(m: Mark, b: bool): Elem {
      match m
      case Current => this.(current := b)
      case Current2 => this.(current2 := b)
      case Pivot => this.(pivot := b)
    }
  }

  /** The three "exactly one index" flags, set by setCurrent, setCurrent2 and setPivot. */
  datatype Mark = Current | Current2 | Pivot

  // ---------------------------------------------------------------------------
  // Views of a snapshot used by the specifications

  function Heights(s: seq<Elem>): seq<int> {
    seq(|s|, i requires 0 <= i < |s| => s[i].height)
  }

  /** The heights h[lo..hi] are in non-decreasing order. */
  predicate AscendingRange(h: seq<int>, lo: int, hi: int)
    requires 0 <= lo <= hi <= |h|
  {
    forall p, q :: lo <= p < q < hi ==> h[p] <= h[q]
  }

  predicate Ascending(h: seq<int>) {
    AscendingRange(h, 0, |h|)
  }

  /** The bars stand in non-decreasing order of height. */
  predicate Sorted(s: seq<Elem>) {
    Ascending(Heights(s))
  }

  /** Every element is marked sorted and neither current flag is set. */
  predicate AllSettled(s: seq<Elem>) {
    forall i :: 0 <= i < |s| ==> s[i].sorted && !s[i].current && !s[i].current2
  }

  /** The heights of `t` are a rearrangement of those of `s`. */
  predicate SameHeightBag(s: seq<Elem>, t: seq<Elem>) {
    multiset(Heights(s)) == multiset(Heights(t))
  }

  /**
   * g is h with [left, right] sorted: the heights outside the range are where they were,
   * the range is ascending and holds the same heights.
   */
  predicate SortedOver(h: seq<int>, g: seq<int>, left: int, right: int) {
    && 0 <= left <= right + 1 <= |h| == |g|
    && g[..left] == h[..left] && g[right + 1..] == h[right + 1..]
    && AscendingRange(g, left, right + 1)
    && multiset(g[left..right + 1]) == multiset(h[left..right + 1])
  }

  /** Sorting the whole array: the heights end ascending and are a rearrangement of the old ones. */
  lemma WholeRange(h: seq<int>, g: seq<int>)
    requires |h| == |g| && SortedOver(h, g, 0, |h| - 1)
    ensures Ascending(g) && multiset(g) == multiset(h)
  {
    assert g[0..|g|] == g;
    assert h[0..|h|] == h;
  }

  /** No bar carries `current` or `current2`. */
  predicate NoCurrent(s: seq<Elem>) {
    forall x :: 0 <= x < |s| ==> !s[x].current && !s[x].current2
  }

  /** Appending two pieces one after the other appends their concatenation. */
  lemma AppendTwo<T>(a: seq<T>, c: seq<T>, b: seq<T>, x: seq<T>, y: seq<T>, w: seq<T>)
    requires c == a + x && b == c + y && w == x + y
    ensures b == a + w
  {
  }

  /** Appending three pieces one after the other. */
  lemma AppendChain<T>(a: seq<T>, b: seq<T>, c: seq<T>, d: seq<T>, x: seq<T>, y: seq<T>, z: seq<T>)
    requires b == a + x && c == b + y && d == c + z
    ensures d == a + x + y + z
  {
  }

  /** Appending three pieces one after the other appends their concatenation. */
  lemma AppendThree<T>(a: seq<T>, x: seq<T>, y: seq<T>, z: seq<T>, w: seq<T>)
    requires w == x + y + z
    ensures a + x + y + z == a + w
  {
  }

  // ---------------------------------------------------------------------------
  // Comparator (sortViz.js:46-54); the compared property is always `height`

  function Compare(x: Elem, y: Elem): (r: int)
    ensures r == -1 <==> x.height < y.height
    ensures r == 0 <==> x.height == y.height
    ensures r == 1 <==> x.height > y.height
  {
    if x.height < y.height then -1
    else if x.height == y.height then 0
    else 1
  }

  lemma CompareIsAntisymmetric(x: Elem, y: Elem)
    ensures Compare(x, x) == 0
    ensures Compare(x, y) == -Compare(y, x)
  {
  }

  // ---------------------------------------------------------------------------
  // Specifications of the flag helpers

  /** `m` set exactly at index k (no index when k is out of range); nothing else changes. */
  function WithMark(s: seq<Elem>, m: Mark, k: int): (r: seq<Elem>)
    ensures |r| == |s| && Heights(r) == Heights(s)
    ensures forall i :: 0 <= i < |r| ==> (r[i].Get(m) <==> i == k)
    ensures forall i :: 0 <= i < |r| ==> r[i].height == s[i].height && r[i].sorted == s[i].sorted
    ensures m != Current ==> forall i :: 0 <= i < |r| ==> r[i].current == s[i].current
    ensures m != Current2 ==> forall i :: 0 <= i < |r| ==> r[i].current2 == s[i].current2
    ensures m != Pivot ==> forall i :: 0 <= i < |r| ==> r[i].pivot == s[i].pivot
  {
    seq(|s|, i requires 0 <= i < |s| => s[i].Set(m, i == k))
  }

  /** setSorted: currents cleared everywhere, `sorted` exactly on indices <= e. */
  function WithSorted(s: seq<Elem>, e: int): (r: seq<Elem>)
    ensures |r| == |s| && Heights(r) == Heights(s)
    ensures forall i :: 0 <= i < |r| ==> !r[i].current && !r[i].current2 && (r[i].sorted <==> i <= e)
    ensures forall i :: 0 <= i < |r| ==> r[i].pivot == s[i].pivot
  {
    seq(|s|, i requires 0 <= i < |s| => s[i].(current := false, current2 := false, sorted := i <= e))
  }

  /**
   * setSortedReverse: indices >= start become sorted with currents cleared; indices below
   * become unsorted, and lose their currents only when `clearCurrents` holds.
   */
  function WithSortedReverse(s: seq<Elem>, start: int, clearCurrents: bool): (r: seq<Elem>)
    ensures |r| == |s| && Heights(r) == Heights(s)
    ensures forall i :: 0 <= i < |r| ==> r[i].pivot == s[i].pivot && (r[i].sorted <==> i >= start)
    ensures forall i :: 0 <= i < |r| && (i >= start || clearCurrents) ==> !r[i].current && !r[i].current2
    ensures forall i :: 0 <= i < |r| && i < start && !clearCurrents ==>
      r[i].current == s[i].current && r[i].current2 == s[i].current2
  {
    seq(|s|, i requires 0 <= i < |s| =>
      if i < start then
        if clearCurrents then s[i].(sorted := false, current := false, current2 := false)
        else s[i].(sorted := false)
      else s[i].(current := false, current2 := false, sorted := true))
  }

  /** setSortedSubset: `sorted` set on [start, end]; every other field and index unchanged. */
  function WithSortedSubset(s: seq<Elem>, start: int, end: int): (r: seq<Elem>)
    ensures |r| == |s| && Heights(r) == Heights(s)
    ensures forall i :: 0 <= i < |r| && start <= i <= end ==> r[i] == s[i].(sorted := true)
    ensures forall i :: 0 <= i < |r| && !(start <= i <= end) ==> r[i] == s[i]
  {
    seq(|s|, i requires 0 <= i < |s| => if start <= i <= end then s[i].(sorted := true) else s[i])
  }

  /**
   * The pair of calls `setCurrent(i); setCurrent2(i - 1)` the drivers make to show the
   * two entries being compared: current exactly at i, current2 exactly at i - 1.
   */
  function WithCursors(s: seq<Elem>, i: int): (r: seq<Elem>)
    ensures |r| == |s| && Heights(r) == Heights(s)
    ensures forall j :: 0 <= j < |r| ==>
      (r[j].current <==> j == i) && (r[j].current2 <==> j == i - 1)
      && r[j].sorted == s[j].sorted && r[j].pivot == s[j].pivot
  {
    WithMark(WithMark(s, Current, i), Current2, i - 1)
  }

  /** The state left by the base `init`: nothing sorted, current at 1, current2 at 0. */
  function InitState(s: seq<Elem>): (r: seq<Elem>)
    ensures |r| == |s| && Heights(r) == Heights(s)
    ensures forall i :: 0 <= i < |r| ==>
      !r[i].sorted && (r[i].current <==> i == 1) && (r[i].current2 <==> i == 0) && r[i].pivot == s[i].pivot
  {
    WithMark(WithMark(WithSorted(s, -1), Current, 1), Current2, 0)
  }

  /** The two entries i and j exchanged; the heights stay a permutation. */
  function Swapped(s: seq<Elem>, i: int, j: int): (r: seq<Elem>)
    requires 0 <= i < |s| && 0 <= j < |s|
    ensures |r| == |s| && r[i] == s[j] && r[j] == s[i]
    ensures forall k :: 0 <= k < |s| && k != i && k != j ==> r[k] == s[k]
    ensures Heights(r) == Heights(s)[i := s[j].height][j := s[i].height]

  {
    var r := s[i := s[j]][j := s[i]];
    assert Heights(r) == Heights(s)[i := s[j].height][j := s[i].height];
    r
  }

  /** Exchanging two entries keeps the multiset of a sequence of heights. */
  lemma SwapPermutes(h: seq<int>, i: int, j: int)
    requires 0 <= i < |h| && 0 <= j < |h|
    ensures multiset(h[i := h[j]][j := h[i]]) == multiset(h)
  {
  }

  lemma SettledIsFixedBySetSorted(s: seq<Elem>, e: int)
    requires AllSettled(s) && e >= |s| - 1
    ensures WithSorted(s, e) == s
  {
    var r := WithSorted(s, e);
    assert forall i :: 0 <= i < |s| ==> r[i] == s[i];
  }

  // ---------------------------------------------------------------------------
  // Sorted permutations

  /** The head of an ascending sequence is below everything in it. */
  lemma HeadIsLeast(a: seq<int>, x: int)
    requires Ascending(a) && x in multiset(a)
    ensures a[0] <= x
  {
    assert x in a;
  }

  lemma TailsHaveSameBag(a: seq<int>, b: seq<int>)
    requires |a| > 0 && |b| > 0 && a[0] == b[0] && multiset(a) == multiset(b)
    ensures multiset(a[1..]) == multiset(b[1..])
  {
    assert a == [a[0]] + a[1..] && b == [b[0]] + b[1..];
    forall y ensures multiset(a[1..])[y] == multiset(b[1..])[y] {
      calc {
        multiset(a[1..])[y];
        multiset(a)[y] - multiset([a[0]])[y];
        multiset(b)[y] - multiset([b[0]])[y];
        multiset(b[1..])[y];
      }
    }
  }

  lemma {:induction false} AscendingUnique(a: seq<int>, b: seq<int>)
    requires Ascending(a) && Ascending(b) && multiset(a) == multiset(b)
    ensures a == b
    decreases |a|
  {
    assert |a| == |multiset(a)| == |multiset(b)| == |b|;
    if |a| > 0 {
      assert a[0] in multiset(a) && b[0] in multiset(b);
      HeadIsLeast(a, b[0]);
      HeadIsLeast(b, a[0]);
      TailsHaveSameBag(a, b);
      AscendingUnique(a[1..], b[1..]);
      assert a == [a[0]] + a[1..] && b == [b[0]] + b[1..];
    }
  }

  /** A sorted rearrangement of a multiset of heights is unique. */
  lemma SortedPermutationUnique(s: seq<Elem>, t: seq<Elem>)
    requires Sorted(s) && Sorted(t) && SameHeightBag(s, t)
    ensures Heights(s) == Heights(t)
  {
    AscendingUnique(Heights(s), Heights(t));
  }

  // ---------------------------------------------------------------------------
  // The flag helpers (sortViz.js:61-129): loops that rewrite the array in place

  method SetCurrent(a: array<Elem>, curIndex: int)
    modifies a
    ensures a[..] == WithMark(old(a[..]), Current, curIndex)
  {
    for i := 0 to a.Length
      invariant forall j :: 0 <= j < i ==> a[j] == old(a[j]).(current := j == curIndex)
      invariant forall j :: i <= j < a.Length ==> a[j] == old(a[j])
    {
      if i == curIndex {
        a[i] := a[i].(current := true);
      } else {
        a[i] := a[i].(current := false);
      }
    }
  }

  method SetCurrent2(a: array<Elem>, curIndex: int)
    modifies a
    ensures a[..] == WithMark(old(a[..]), Current2, curIndex)
  {
    for i := 0 to a.Length
      invariant forall j :: 0 <= j < i ==> a[j] == old(a[j]).(current2 := j == curIndex)
      invariant forall j :: i <= j < a.Length ==> a[j] == old(a[j])
    {
      if i == curIndex {
        a[i] := a[i].(current2 := true);
      } else {
        a[i] := a[i].(current2 := false);
      }
    }
  }
  /** `setCurrent(i)` followed by `setCurrent2(i - 1)`, the pair every driver calls together. */
  method SetCursors(a: array<Elem>, i: int)
    modifies a
    ensures a[..] == WithCursors(old(a[..]), i)
  {
    SetCurrent(a, i);
    SetCurrent2(a, i - 1);
  }


  /**
   * quickSortViz.js calls `setPivot` (lines 102 and 138), but sortViz.js does not define
   * it, so as written the first `partition` would throw. This is the helper those calls
   * evidently expect: the `setCurrent` contract applied to the `pivot` flag, which the
   * presentation reads (sortContainer.js:36,48).
   */
  method SetPivot(a: array<Elem>, pivotIndex: int)
    modifies a
    ensures a[..] == WithMark(old(a[..]), Pivot, pivotIndex)
  {
    for i := 0 to a.Length
      invariant forall j :: 0 <= j < i ==> a[j] == old(a[j]).(pivot := j == pivotIndex)
      invariant forall j :: i <= j < a.Length ==> a[j] == old(a[j])
    {
      if i == pivotIndex {
        a[i] := a[i].(pivot := true);
      } else {
        a[i] := a[i].(pivot := false);
      }
    }
  }

  method SetSorted(a: array<Elem>, endIndex: int)
    modifies a
    ensures a[..] == WithSorted(old(a[..]), endIndex)
  {
    for i := 0 to a.Length
      invariant forall j :: 0 <= j < i ==>
        a[j] == old(a[j]).(current := false, current2 := false, sorted := j <= endIndex)
      invariant forall j :: i <= j < a.Length ==> a[j] == old(a[j])
    {
      a[i] := a[i].(current := false, current2 := false);
      if i <= endIndex {
        a[i] := a[i].(sorted := true);
      } else {
        a[i] := a[i].(sorted := false);
      }
    }
  }

  /** `clearCurrents` is `false` where the source passes no second argument. */
  method SetSortedReverse(a: array<Elem>, startIndex: int, clearCurrents: bool)
    modifies a
    ensures a[..] == WithSortedReverse(old(a[..]), startIndex, clearCurrents)
  {
    for i := 0 to a.Length
      invariant forall j :: 0 <= j < i ==> a[j] == WithSortedReverse(old(a[..]), startIndex, clearCurrents)[j]
      invariant forall j :: i <= j < a.Length ==> a[j] == old(a[j])
    {
      if i < startIndex {
        a[i] := a[i].(sorted := false);
        if clearCurrents {
          a[i] := a[i].(current := false, current2 := false);
        }
      } else {
        a[i] := a[i].(current := false, current2 := false, sorted := true);
      }
    }
  }

  /**
   * The loop runs from startIndex to endIndex and writes `array[i].sorted`, which throws
   * for an index outside the array; an empty range touches nothing.
   */
  method SetSortedSubset(a: array<Elem>, startIndex: int, endIndex: int)
    requires startIndex > endIndex || (0 <= startIndex && endIndex < a.Length)
    modifies a
    ensures a[..] == WithSortedSubset(old(a[..]), startIndex, endIndex)
  {
    var i := startIndex;
    while i <= endIndex
      invariant i == startIndex || startIndex <= i <= endIndex + 1
      invariant forall j :: 0 <= j < a.Length && startIndex <= j < i ==> a[j] == old(a[j]).(sorted := true)
      invariant forall j :: 0 <= j < a.Length && !(startIndex <= j < i) ==> a[j] == old(a[j])
    {
      a[i] := a[i].(sorted := true);
      i := i + 1;
    }
    assert forall j :: 0 <= j < a.Length ==> a[j] == WithSortedSubset(old(a[..]), startIndex, endIndex)[j];
  }

  /**
   * The scan at the head of swapCurrents (sortViz.js:135-150): the index of an element
   * flagged `current` and of one flagged `current2` (and not `current`), -1 for none,
   * stopping as soon as both are known.
   */
  method FindCurrents(a: array<Elem>) returns (current: int, current2: int)
    ensures current == -1 || (0 <= current < a.Length && a[current].current)
    ensures current2 == -1 || (0 <= current2 < a.Length && a[current2].current2 && !a[current2].current)
    ensures current == -1 ==> forall j :: 0 <= j < a.Length ==> !a[j].current
    ensures current2 == -1 ==> forall j :: 0 <= j < a.Length ==> a[j].current2 ==> a[j].current
  {
    current, current2 := -1, -1;
    var i := 0;
    while i < a.Length
      invariant 0 <= i <= a.Length
      invariant current == -1 || (0 <= current < i && a[current].current)
      invariant current2 == -1 || (0 <= current2 < i && a[current2].current2 && !a[current2].current)
      invariant current == -1 ==> forall j :: 0 <= j < i ==> !a[j].current
      invariant current2 == -1 ==> forall j :: 0 <= j < i ==> a[j].current2 ==> a[j].current
    {
      if a[i].current {
        current := i;
        if current2 >= 0 {
          break;
        }
      } else if a[i].current2 {
        current2 := i;
        if current >= 0 {
          break;
        }
      }
      i := i + 1;
    }
  }

  /**
   * What the guarded body of swapCurrents (sortViz.js:153-156) would do to a snapshot:
   * each flag set false and then true again at the index where the scan found it set.
   */
  function SwapCurrentsBody(s: seq<Elem>, current: int, current2: int): (r: seq<Elem>)
    requires 0 <= current < |s| && 0 <= current2 < |s|
    requires s[current].current && s[current2].current2
    ensures r == s
  {
    var s1 := s[current := s[current].(current := false)];
    var s2 := s1[current := s1[current].(current := true)];
    var s3 := s2[current2 := s2[current2].(current2 := false)];
    s3[current2 := s3[current2].(current2 := true)]
  }

  /**
   * swapCurrents changes nothing. Its guard `current >= 0 && current[2] >= 0`
   * (sortViz.js:152) indexes the number `current`, which yields `undefined`, and
   * `undefined >= 0` is false in JavaScript; so the guarded body never runs (and it
   * would cancel itself out anyway, see SwapCurrentsBody). Hence no modifies clause.
   */
  method SwapCurrents(a: array<Elem>)
    ensures a[..] == old(a[..])
  {
    var current, current2 := FindCurrents(a);
  }

  /** copyArray (sortViz.js:163-173): an element-wise copy of the live array. */
  method CopyArray(a: array<Elem>) returns (arr: seq<Elem>)
    ensures arr == a[..]
  {
    arr := [];
    for i := 0 to a.Length
      invariant arr == a[..i]
    {
      arr := arr + [a[i]];
    }
  }

  /** The base `init` (sortViz.js:20-27), used by the bubble driver. */
  method Init(a: array<Elem>)
    modifies a
    ensures a[..] == InitState(old(a[..]))
  {
    SetSorted(a, -1);
    SetCurrent(a, 1);
    SetCurrent2(a, 0);
  }
}
