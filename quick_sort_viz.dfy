/**
 * Quick sort with recorded history (src/sorting/quickSortViz.js).
 *
 * `partition(low, high)` takes the bar at `high` as pivot and scans the range
 * [low, high - 1] with a left index and a right index that move towards each
 * other; `quicksort` places the pivot and recurses on both sides. Every step is
 * recorded as a snapshot in the history. The functions below compute on
 * snapshots what the driver's methods do in place, and the lemmas prove the
 * sorting properties about those functions.
 */
module QuickSort {
  import opened SortViz

  // ---------------------------------------------------------------------------
  // The scan loop of partition (quickSortViz.js:107-136)

  /** Where the scan stands: the array and its left and right indices. */
  datatype Cursor = Cursor(g: seq<Elem>, l: int, r: int)

  /** `setCurrent(l); setCurrent2(r)`. */
  function Pointed(g: seq<Elem>, l: int, r: int): (p: seq<Elem>)
    ensures |p| == |g| && Heights(p) == Heights(g)
    ensures forall x :: 0 <= x < |p| ==> p[x] == g[x].(current := x == l, current2 := x == r)
  {
    WithMark(WithMark(g, Current, l), Current2, r)
  }

  /**
   * One pass of the scan loop while l < r, against the pivot height v: a left bar
   * above the pivot facing a right bar not above it are swapped and l moves on; a
   * left bar above the pivot facing a right bar also above it moves r back; a left
   * bar not above the pivot moves l on. Either way exactly one index moves.
   */
  function ScanStep(g: seq<Elem>, l: int, r: int, v: int): (c: Cursor)
    requires 0 <= l < r < |g|
    ensures |c.g| == |g| && l <= c.l <= c.r <= r && c.r - c.l == r - l - 1
  {
    var p := Pointed(g, l, r);
    if p[l].height > v then
      if p[r].height <= v then Cursor(Pointed(Swapped(p, l, r), l, r), l + 1, r)
      else Cursor(p, l, r - 1)
    else Cursor(p, l + 1, r)
  }

  /** The whole scan loop from (l, r): it stops exactly where the two indices meet. */
  function Scan(g: seq<Elem>, l: int, r: int, v: int): (c: Cursor)
    requires 0 <= l <= r < |g|
    ensures |c.g| == |g| && l <= c.l == c.r <= r
    decreases r - l
  {
    if l < r then
      var c := ScanStep(g, l, r, v);
      Scan(c.g, c.l, c.r, v)
    else Cursor(g, l, r)
  }

  /** The snapshots the scan loop records, one per pass: r - l of them. */
  function ScanHistory(g: seq<Elem>, l: int, r: int, v: int): (hs: seq<seq<Elem>>)
    requires 0 <= l <= r < |g|
    ensures |hs| == r - l
    decreases r - l
  {
    if l < r then
      var c := ScanStep(g, l, r, v);
      [c.g] + ScanHistory(c.g, c.l, c.r, v)
    else []
  }

  // ---------------------------------------------------------------------------
  // partition on a snapshot (quickSortViz.js:98-153)

  /** What `partition(low, high)` leaves: the array and the index it returns. */
  datatype Parted = Parted(g: seq<Elem>, pi: int)

  /** The scan of `partition(low, high)`: run on the range after `setPivot(high)`. */
  function Scanned(s: seq<Elem>, low: int, high: int): (c: Cursor)
    requires 0 <= low < high < |s|
    ensures |c.g| == |s| && low <= c.l == c.r < high
  {
    Scan(WithMark(s, Pivot, high), low, high - 1, s[high].height)
  }

  /** `setPivot(-1); setCurrent(high); setCurrent2(r)` after the scan. */
  function Shown(g: seq<Elem>, high: int, r: int): (t: seq<Elem>)
    ensures |t| == |g| && Heights(t) == Heights(g)
    ensures forall k :: 0 <= k < |t| ==>
      !t[k].pivot && (t[k].current <==> k == high) && (t[k].current2 <==> k == r) && t[k].sorted == g[k].sorted
  {
    Pointed(WithMark(g, Pivot, -1), high, r)
  }

  /**
   * The end of partition, from the array g where the scan stopped at r: when the pivot
   * is below the bar at r, that bar goes to `high`, the pivot copy goes to r and r is
   * returned; otherwise `high` is returned.
   */
  function Settled(g: seq<Elem>, high: int, r: int, pivot: Elem): (p: Parted)
    requires 0 <= r < high < |g|
    ensures |p.g| == |g| && r <= p.pi <= high
  {
    var t := Shown(g, high, r);
    if pivot.height < t[r].height then
      Parted(Pointed(t[high := t[r]][r := pivot], r, high), r)
    else Parted(t, high)
  }

  /** The snapshots the end of partition records. */
  function SettledHistory(g: seq<Elem>, high: int, r: int, pivot: Elem): (hs: seq<seq<Elem>>)
    requires 0 <= r < high < |g|
    ensures |hs| == (if Settled(g, high, r, pivot).pi < high then 2 else 1)
    ensures hs[0] == Shown(g, high, r) && hs[|hs| - 1] == Settled(g, high, r, pivot).g
  {
    var t := Shown(g, high, r);
    [t] + (if pivot.height < t[r].height then [Settled(g, high, r, pivot).g] else [])
  }

  /** `partition(low, high)`: the scan, then the pivot is put in its place. */
  function Partitioned(s: seq<Elem>, low: int, high: int): (p: Parted)
    requires 0 <= low < high < |s|
    ensures |p.g| == |s| && low <= p.pi <= high
  {
    var c := Scanned(s, low, high);
    Settled(c.g, high, c.r, s[high])
  }

  /** The snapshots `partition(low, high)` records. */
  function PartitionHistory(s: seq<Elem>, low: int, high: int): (hs: seq<seq<Elem>>)
    requires 0 <= low < high < |s|
    ensures |hs| >= 2 && hs[0] == WithMark(s, Pivot, high)
  {
    var g0 := WithMark(s, Pivot, high);
    var c := Scanned(s, low, high);
    [g0] + ScanHistory(g0, low, high - 1, s[high].height) + SettledHistory(c.g, high, c.r, s[high])
  }

  // ---------------------------------------------------------------------------
  // quicksort on a snapshot (quickSortViz.js:77-89)

  /**
   * `setCurrent(-1); setCurrent2(-1); array[pi].sorted = true`: both cursors cleared and
   * the bar at pi marked sorted.
   */
  function PivotFixed(g: seq<Elem>, pi: int): (r: seq<Elem>)
    requires 0 <= pi < |g|
    ensures |r| == |g| && Heights(r) == Heights(g) && NoCurrent(r) && r[pi].sorted
  {
    var c := WithMark(WithMark(g, Current, -1), Current2, -1);
    c[pi := c[pi].(sorted := true)]
  }

  /** The array after `partition(low, high)` and the placing of its pivot. */
  function Placed(s: seq<Elem>, low: int, high: int): (g: seq<Elem>)
    requires 0 <= low < high < |s|
    ensures |g| == |s| && Heights(g) == Heights(Partitioned(s, low, high).g)
  {
    PivotFixed(Partitioned(s, low, high).g, Partitioned(s, low, high).pi)
  }

  /** `quicksort(low, high)` on a snapshot: the heights in [low, high] end sorted. */
  function QuickRange(s: seq<Elem>, low: int, high: int): (r: seq<Elem>)
    requires 0 <= low <= high + 1 <= |s|
    ensures |r| == |s|
    ensures SortedOver(Heights(s), Heights(r), low, high)
    decreases high - low
  {
    if low < high then
      var pi := Partitioned(s, low, high).pi;
      var g := Placed(s, low, high);
      var g1 := QuickRange(g, low, pi - 1);
      var g2 := QuickRange(g1, pi + 1, high);
      PartitionSplits(s, low, high);
      QuickCombines(Heights(s), Heights(g), Heights(g1), Heights(g2), low, pi, high);
      g2
    else
      Untouched(Heights(s), low, high);
      s
  }

  /** The snapshots `quicksort(low, high)` records. */
  function QuickHistory(s: seq<Elem>, low: int, high: int): (hs: seq<seq<Elem>>)
    requires 0 <= low <= high + 1 <= |s|
    ensures (hs == []) == (high <= low)
    decreases high - low
  {
    if low < high then
      var pi := Partitioned(s, low, high).pi;
      var g := Placed(s, low, high);
      PartitionHistory(s, low, high) + [g]
      + QuickHistory(g, low, pi - 1) + QuickHistory(QuickRange(g, low, pi - 1), pi + 1, high)
    else []
  }

  // ---------------------------------------------------------------------------
  // What the scan keeps, on heights

  /**
   * The scan's invariant against the pivot height v: h is a rearrangement of h0
   * inside [low, high), every height left of l is at most v, every height right of r
   * (below high) is above v, and unless r is still at high - 1 one of h[l], h[r] is above v.
   */
  predicate ScanInv(h0: seq<int>, h: seq<int>, low: int, high: int, l: int, r: int, v: int) {
    && 0 <= low <= l <= r < high < |h0| == |h|
    && h[..low] == h0[..low] && h[high..] == h0[high..]
    && multiset(h[low..high]) == multiset(h0[low..high])
    && (forall x :: low <= x < l ==> h[x] <= v)
    && (forall x :: r < x < high ==> v < h[x])
    && (r < high - 1 ==> v < h[l] || v < h[r])
  }

  lemma ScanLeft(h0: seq<int>, h: seq<int>, low: int, high: int, l: int, r: int, v: int)
    requires ScanInv(h0, h, low, high, l, r, v) && l < r && h[l] <= v
    ensures ScanInv(h0, h, low, high, l + 1, r, v)
  {
  }

  lemma ScanRight(h0: seq<int>, h: seq<int>, low: int, high: int, l: int, r: int, v: int)
    requires ScanInv(h0, h, low, high, l, r, v) && l < r && v < h[l] && v < h[r]
    ensures ScanInv(h0, h, low, high, l, r - 1, v)
  {
  }

  lemma ScanSwap(h0: seq<int>, h: seq<int>, h': seq<int>, low: int, high: int, l: int, r: int, v: int)
    requires ScanInv(h0, h, low, high, l, r, v) && l < r && v < h[l] && h[r] <= v
    requires h' == h[l := h[r]][r := h[l]]
    ensures ScanInv(h0, h', low, high, l + 1, r, v)
  {
    SwapInside(h, h', l, r, low, high);
  }

  /** Swapping two heights inside [lo, hi) rearranges that range and leaves the rest alone. */
  lemma SwapInside(h: seq<int>, g: seq<int>, i: int, j: int, lo: int, hi: int)
    requires 0 <= lo <= i < hi <= |h| && lo <= j < hi && g == h[i := h[j]][j := h[i]]
    ensures g[..lo] == h[..lo] && g[hi..] == h[hi..]
    ensures multiset(g[lo..hi]) == multiset(h[lo..hi])
  {
    var w := h[lo..hi];
    assert g[lo..hi] == w[i - lo := w[j - lo]][j - lo := w[i - lo]];
    SwapPermutes(w, i - lo, j - lo);
    assert g[..lo] == h[..lo];
    assert g[hi..] == h[hi..];
  }

  /** One pass of the scan keeps its invariant. */
  lemma StepKeeps(h0: seq<int>, g: seq<Elem>, low: int, high: int, l: int, r: int, v: int)
    requires ScanInv(h0, Heights(g), low, high, l, r, v) && l < r
    ensures ScanInv(h0, Heights(ScanStep(g, l, r, v).g), low, high, ScanStep(g, l, r, v).l, ScanStep(g, l, r, v).r, v)
  {
    var h := Heights(g);
    var p := Pointed(g, l, r);
    if p[l].height > v {
      if p[r].height <= v {
        ScanSwap(h0, h, Heights(Swapped(p, l, r)), low, high, l, r, v);
      } else {
        ScanRight(h0, h, low, high, l, r, v);
      }
    } else {
      ScanLeft(h0, h, low, high, l, r, v);
    }
  }

  /** The whole scan keeps its invariant. */
  lemma {:induction false} ScanKeeps(h0: seq<int>, g: seq<Elem>, low: int, high: int, l: int, r: int, v: int)
    requires ScanInv(h0, Heights(g), low, high, l, r, v)
    ensures ScanInv(h0, Heights(Scan(g, l, r, v).g), low, high, Scan(g, l, r, v).l, Scan(g, l, r, v).r, v)
    decreases r - l
  {
    if l < r {
      var c := ScanStep(g, l, r, v);
      StepKeeps(h0, g, low, high, l, r, v);
      ScanKeeps(h0, c.g, low, high, c.l, c.r, v);
    }
  }

  // ---------------------------------------------------------------------------
  // What partition leaves, on heights

  /**
   * g is h split at pi inside [low, high]: outside the range nothing moved, the range
   * holds the same heights, everything before pi is at most g[pi] and everything after
   * pi is above it.
   */
  predicate SplitAt(h: seq<int>, g: seq<int>, low: int, pi: int, high: int) {
    && 0 <= low <= pi <= high < |h| == |g|
    && g[..low] == h[..low] && g[high + 1..] == h[high + 1..]
    && multiset(g[low..high + 1]) == multiset(h[low..high + 1])
    && (forall x :: low <= x < pi ==> g[x] <= g[pi])
    && (forall x :: pi < x <= high ==> g[pi] < g[x])
  }

  /** The scan stopped on a bar above the pivot: swapping it with the pivot splits at r. */
  lemma SwapCaseSplits(h0: seq<int>, h: seq<int>, g: seq<int>, low: int, r: int, high: int)
    requires 0 <= high < |h0| && ScanInv(h0, h, low, high, r, r, h0[high]) && h0[high] < h[r]
    requires g == h[high := h[r]][r := h0[high]]
    ensures SplitAt(h0, g, low, r, high)
  {
    TailHead(h0, h, high);
    PivotSwapBag(h0, h, g, low, r, high);
  }

  /** Swapping the pivot at high with a bar of [low, high) keeps [low, high] a rearrangement of h0's. */
  lemma PivotSwapBag(h0: seq<int>, h: seq<int>, g: seq<int>, low: int, r: int, high: int)
    requires 0 <= low <= r < high < |h| == |h0| && h[high] == h0[high]
    requires h[..low] == h0[..low] && h[high + 1..] == h0[high + 1..]
    requires multiset(h[low..high]) == multiset(h0[low..high])
    requires g == h[high := h[r]][r := h0[high]]
    ensures g[..low] == h0[..low] && g[high + 1..] == h0[high + 1..]
    ensures multiset(g[low..high + 1]) == multiset(h0[low..high + 1])
  {
    assert g == h[r := h[high]][high := h[r]];
    SwapInside(h, g, r, high, low, high + 1);
    assert h[low..high + 1] == h[low..high] + [h[high]];
    assert h0[low..high + 1] == h0[low..high] + [h0[high]];
  }

  /** Equal suffixes from k: equal at k and from k + 1. */
  lemma TailHead(h0: seq<int>, h: seq<int>, k: int)
    requires 0 <= k < |h0| == |h| && h[k..] == h0[k..]
    ensures h[k] == h0[k] && h[k + 1..] == h0[k + 1..]
  {
    assert h[k..][0] == h0[k..][0];
    assert h[k + 1..] == h[k..][1..];
    assert h0[k + 1..] == h0[k..][1..];
  }

  /** The scan stopped on a bar not above the pivot: the pivot stays at high. */
  lemma KeepCaseSplits(h0: seq<int>, h: seq<int>, low: int, r: int, high: int)
    requires 0 <= high < |h0| && ScanInv(h0, h, low, high, r, r, h0[high]) && h[r] <= h0[high]
    ensures r == high - 1 && SplitAt(h0, h, low, high, high) && h[high] == h0[high]
  {
    TailHead(h0, h, high);
    assert h[low..high + 1] == h[low..high] + [h[high]];
    assert h0[low..high + 1] == h0[low..high] + [h0[high]];
  }

  /** Heights of a sequence with one bar replaced. */
  lemma HeightsUpdate(g: seq<Elem>, i: int, e: Elem)
    requires 0 <= i < |g|
    ensures Heights(g[i := e]) == Heights(g)[i := e.height]
  {
  }

  /**
   * partition leaves the range split at the returned index, with the old pivot height
   * there: everything before it is at most the pivot, everything after it above.
   */
  lemma PartitionSplits(s: seq<Elem>, low: int, high: int)
    requires 0 <= low < high < |s|
    ensures SplitAt(Heights(s), Heights(Partitioned(s, low, high).g), low, Partitioned(s, low, high).pi, high)
    ensures Heights(Partitioned(s, low, high).g)[Partitioned(s, low, high).pi] == s[high].height
  {
    var h0 := Heights(s);
    var v := s[high].height;
    var cs := Scanned(s, low, high);
    ScanSplits(s, low, high);
    var h := Heights(cs.g);
    var t := Shown(cs.g, high, cs.r);
    var p := Partitioned(s, low, high);
    if v < t[cs.r].height {
      var u := t[high := t[cs.r]];
      assert p == Parted(Pointed(u[cs.r := s[high]], cs.r, high), cs.r);
      HeightsUpdate(t, high, t[cs.r]);
      HeightsUpdate(u, cs.r, s[high]);
      SwapCaseSplits(h0, h, Heights(p.g), low, cs.r, high);
    } else {
      assert p == Parted(t, high);
      KeepCaseSplits(h0, h, low, cs.r, high);
    }
  }

  /** The scan of partition ends with its invariant holding where the indices met. */
  lemma ScanSplits(s: seq<Elem>, low: int, high: int)
    requires 0 <= low < high < |s|
    ensures ScanInv(Heights(s), Heights(Scanned(s, low, high).g), low, high,
                    Scanned(s, low, high).r, Scanned(s, low, high).r, s[high].height)
  {
    var g0 := WithMark(s, Pivot, high);
    assert ScanInv(Heights(s), Heights(g0), low, high, low, high - 1, s[high].height);
    ScanKeeps(Heights(s), g0, low, high, low, high - 1, s[high].height);
  }

  // ---------------------------------------------------------------------------
  // Putting the two sides together, on heights

  /** Sorting nothing, or a single bar, changes nothing. */
  lemma Untouched(h: seq<int>, low: int, high: int)
    requires 0 <= low <= high + 1 <= |h| && high <= low
    ensures SortedOver(h, h, low, high)
  {
  }

  /** Heights at most v stay at most v when rearranged. */
  lemma BelowKept(a: seq<int>, b: seq<int>, v: int)
    requires multiset(a) == multiset(b) && forall i :: 0 <= i < |a| ==> a[i] <= v
    ensures forall i :: 0 <= i < |b| ==> b[i] <= v
  {
    forall i | 0 <= i < |b| ensures b[i] <= v {
      assert b[i] in multiset(a);
    }
  }

  /** Heights above v stay above v when rearranged. */
  lemma AboveKept(a: seq<int>, b: seq<int>, v: int)
    requires multiset(a) == multiset(b) && forall i :: 0 <= i < |a| ==> v < a[i]
    ensures forall i :: 0 <= i < |b| ==> v < b[i]
  {
    forall i | 0 <= i < |b| ensures v < b[i] {
      assert b[i] in multiset(a);
    }
  }

  /**
   * Split at pi, then sort [low, pi - 1], then sort [pi + 1, high]: [low, high] ends sorted.
   */
  lemma QuickCombines(h: seq<int>, g: seq<int>, g1: seq<int>, g2: seq<int>, low: int, pi: int, high: int)
    requires SplitAt(h, g, low, pi, high)
    requires SortedOver(g, g1, low, pi - 1) && SortedOver(g1, g2, pi + 1, high)
    ensures SortedOver(h, g2, low, high)
  {
    var v := g[pi];
    SidesSorted(h, g, g1, g2, low, pi, high);
    BelowKept(g[low..pi], g2[low..pi], v);
    AboveKept(g[pi + 1..high + 1], g2[pi + 1..high + 1], v);
    forall x | low <= x < pi ensures g2[x] <= g2[pi] {
      assert g2[x] == g2[low..pi][x - low];
    }
    forall x | pi < x <= high ensures g2[pi] < g2[x] {
      assert g2[x] == g2[pi + 1..high + 1][x - pi - 1];
    }
    JoinAscending(g2, low, pi, high);
    SplitSlice(g2, low, pi, high);
    SplitSlice(g, low, pi, high);
  }

  /** The range [low, high] is its part before pi, the entry at pi and its part after pi. */
  lemma SplitSlice(g: seq<int>, low: int, pi: int, high: int)
    requires 0 <= low <= pi <= high < |g|
    ensures g[low..high + 1] == g[low..pi] + [g[pi]] + g[pi + 1..high + 1]
  {
    var w := g[low..pi] + [g[pi]] + g[pi + 1..high + 1];
    forall x | 0 <= x < high + 1 - low ensures g[low..high + 1][x] == w[x] {
      if x > pi - low {
        assert w[x] == g[pi + 1..high + 1][x - (pi - low) - 1];
      }
    }
  }

  /** An ascending run, a middle entry above it and an ascending run above that: ascending. */
  lemma JoinAscending(g: seq<int>, low: int, pi: int, high: int)
    requires 0 <= low <= pi <= high < |g|
    requires AscendingRange(g, low, pi) && AscendingRange(g, pi + 1, high + 1)
    requires forall x :: low <= x < pi ==> g[x] <= g[pi]
    requires forall x :: pi < x <= high ==> g[pi] < g[x]
    ensures AscendingRange(g, low, high + 1)
  {
    forall p, q | low <= p < q < high + 1 ensures g[p] <= g[q] {
      if p < pi && pi < q {
        assert g[p] <= g[pi] < g[q];
      }
    }
  }

  /** A run equal to an ascending run is ascending. */
  lemma AscendingAgrees(a: seq<int>, b: seq<int>, lo: int, hi: int)
    requires 0 <= lo <= hi <= |a| && hi <= |b| && a[lo..hi] == b[lo..hi] && AscendingRange(a, lo, hi)
    ensures AscendingRange(b, lo, hi)
  {
    forall p, q | lo <= p < q < hi ensures b[p] <= b[q] {
      assert b[p] == b[lo..hi][p - lo] == a[lo..hi][p - lo];
      assert b[q] == b[lo..hi][q - lo] == a[lo..hi][q - lo];
    }
  }

  /** After the two recursive sorts, each side of pi is sorted and holds what it held after the split. */
  lemma SidesSorted(h: seq<int>, g: seq<int>, g1: seq<int>, g2: seq<int>, low: int, pi: int, high: int)
    requires SplitAt(h, g, low, pi, high)
    requires SortedOver(g, g1, low, pi - 1) && SortedOver(g1, g2, pi + 1, high)
    ensures |g2| == |h| && g2[..low] == h[..low] && g2[high + 1..] == h[high + 1..] && g2[pi] == g[pi]
    ensures AscendingRange(g2, low, pi) && AscendingRange(g2, pi + 1, high + 1)
    ensures multiset(g2[low..pi]) == multiset(g[low..pi])
    ensures multiset(g2[pi + 1..high + 1]) == multiset(g[pi + 1..high + 1])
  {
    // the second sort leaves [0, pi] as the first one left it
    assert g2[..pi + 1] == g1[..pi + 1];
    assert g2[low..pi] == g1[low..pi] by { assert g2[low..pi] == g2[..pi + 1][low..pi]; assert g1[low..pi] == g1[..pi + 1][low..pi]; }
    assert g2[pi] == g1[pi] == g[pi] by { assert g2[..pi + 1][pi] == g1[..pi + 1][pi]; assert g1[pi..][0] == g[pi..][0]; }
    assert g2[..low] == h[..low] by { assert g2[..low] == g2[..pi + 1][..low]; assert g1[..low] == g1[..pi + 1][..low]; }
    // the first sort leaves [pi + 1, |g|) as the split left it
    assert g1[pi + 1..] == g[pi + 1..] by { assert g1[pi + 1..] == g1[pi..][1..]; assert g[pi + 1..] == g[pi..][1..]; }
    assert g1[pi + 1..high + 1] == g[pi + 1..high + 1] by {
      assert g1[pi + 1..high + 1] == g1[pi + 1..][..high - pi];
      assert g[pi + 1..high + 1] == g[pi + 1..][..high - pi];
    }
    assert g1[high + 1..] == g[high + 1..] by { assert g1[high + 1..] == g1[pi + 1..][high - pi..]; assert g[high + 1..] == g[pi + 1..][high - pi..]; }
    AscendingAgrees(g1, g2, low, pi);
  }

  // ---------------------------------------------------------------------------
  // What partition does to the flags, and what it records

  /** A bar with both cursors cleared. */
  function Bare(e: Elem): Elem {
    e.(current := false, current2 := false)
  }

  /** The scan over [l, r] touches nothing outside [l, r] but the two cursors. */
  lemma {:induction false} ScanOutside(g: seq<Elem>, l: int, r: int, v: int)
    requires 0 <= l <= r < |g|
    ensures forall x :: 0 <= x < |g| && !(l <= x <= r) ==> Bare(Scan(g, l, r, v).g[x]) == Bare(g[x])
    decreases r - l
  {
    if l < r {
      var c := ScanStep(g, l, r, v);
      ScanOutside(c.g, c.l, c.r, v);
      forall x | 0 <= x < |g| && !(l <= x <= r) ensures Bare(Scan(g, l, r, v).g[x]) == Bare(g[x]) {
        StepOutside(g, l, r, v, x);
      }
    }
  }

  /** One pass of the scan touches nothing outside [l, r] but the two cursors. */
  lemma StepOutside(g: seq<Elem>, l: int, r: int, v: int, x: int)
    requires 0 <= l < r < |g| && 0 <= x < |g| && !(l <= x <= r)
    ensures Bare(ScanStep(g, l, r, v).g[x]) == Bare(g[x])
  {
    var p := Pointed(g, l, r);
    if p[l].height > v && p[r].height <= v {
      assert Swapped(p, l, r)[x] == p[x];
    }
  }

  /**
   * partition touches nothing outside [low, high] but the flags it clears everywhere,
   * and the bar it leaves at the returned index is the pivot: when the pivot moved, it
   * is the copy taken before `setPivot(high)`, so its own pivot flag is the one it had
   * before partition started.
   */
  lemma PartitionFlags(s: seq<Elem>, low: int, high: int)
    requires 0 <= low < high < |s|
    ensures forall x :: 0 <= x < |s| && !(low <= x <= high) ==>
      Partitioned(s, low, high).g[x] == s[x].(current := false, current2 := false, pivot := false)
    ensures Partitioned(s, low, high).pi < high ==>
      Partitioned(s, low, high).g[Partitioned(s, low, high).pi] == s[high].(current := true, current2 := false)
    ensures Partitioned(s, low, high).pi == high ==>
      Partitioned(s, low, high).g[high] == s[high].(current := true, current2 := false, pivot := false)
  {
    var g0 := WithMark(s, Pivot, high);
    var c := Scanned(s, low, high);
    var r := c.r;
    ScanOutside(g0, low, high - 1, s[high].height);
    var t := Shown(c.g, high, r);
    var p := Partitioned(s, low, high);
    if s[high].height < t[r].height {
      var u := t[high := t[r]][r := s[high]];
      assert p.g == Pointed(u, r, high) && p.pi == r;
      forall x | 0 <= x < |s| && !(low <= x <= high)
        ensures p.g[x] == s[x].(current := false, current2 := false, pivot := false)
      {
        assert p.g[x] == Bare(u[x]) && u[x] == t[x];
        ShownAt(c.g, high, r, x);
      }
    } else {
      assert p.g == t && p.pi == high;
      forall x | 0 <= x < |s| && !(low <= x <= high)
        ensures p.g[x] == s[x].(current := false, current2 := false, pivot := false)
      {
        ShownAt(c.g, high, r, x);
      }
      ShownAt(c.g, high, r, high);
    }
  }

  /** One bar of the array after `setPivot(-1); setCurrent(high); setCurrent2(r)`. */
  lemma ShownAt(g: seq<Elem>, high: int, r: int, x: int)
    requires 0 <= x < |g|
    ensures Shown(g, high, r)[x] == Bare(g[x]).(pivot := false, current := x == high, current2 := x == r)
  {
  }

  /**
   * partition records one snapshot for setPivot, one per pass of the scan, one when the
   * scan is over and one more when the pivot moves; the last one is the partitioned array.
   */
  lemma PartitionHistoryShape(s: seq<Elem>, low: int, high: int)
    requires 0 <= low < high < |s|
    ensures |PartitionHistory(s, low, high)| == high - low + (if Partitioned(s, low, high).pi < high then 2 else 1)
    ensures PartitionHistory(s, low, high)[|PartitionHistory(s, low, high)| - 1] == Partitioned(s, low, high).g
  {
  }

  /** The last snapshot quicksort(low, high) records is the array it leaves. */
  lemma {:induction false} HistoryEndsSorted(s: seq<Elem>, low: int, high: int)
    requires 0 <= low < high < |s|
    ensures EndsWith(QuickHistory(s, low, high), QuickRange(s, low, high))
    decreases high - low
  {
    var pi := Partitioned(s, low, high).pi;
    var before, after := pi - 1, pi + 1;
    var g := Placed(s, low, high);
    var g1 := QuickRange(g, low, before);
    var x, y, z := PartitionHistory(s, low, high) + [g], QuickHistory(g, low, before), QuickHistory(g1, after, high);
    QuickUnfolds(s, low, high, before, after, g, g1, x, y, z);
    if after < high {
      HistoryEndsSorted(g1, after, high);
    } else {
      QuickNothing(g1, after, high);
    }
    if low < before {
      HistoryEndsSorted(g, low, before);
    } else {
      QuickNothing(g, low, before);
    }
    EndsOfThree(x, y, z, g, g1, QuickRange(g1, after, high));
  }

  /** hs is not empty and ends with r. */
  predicate EndsWith<T(==)>(hs: seq<T>, r: T) {
    |hs| > 0 && hs[|hs| - 1] == r
  }

  /** x ends with g, y is empty or ends with g1 (which is g when y is empty), and so on for z. */
  lemma EndsOfThree<T>(x: seq<T>, y: seq<T>, z: seq<T>, g: T, g1: T, r: T)
    requires EndsWith(x, g)
    requires if |y| > 0 then EndsWith(y, g1) else g1 == g
    requires if |z| > 0 then EndsWith(z, r) else r == g1
    ensures EndsWith(x + y + z, r)
  {
  }

  /** quicksort on fewer than two bars leaves them and records nothing. */
  lemma QuickNothing(s: seq<Elem>, low: int, high: int)
    requires 0 <= low <= high + 1 <= |s| && high <= low
    ensures QuickRange(s, low, high) == s && QuickHistory(s, low, high) == []
  {
  }

  /** Unlike the base `init`, quick sort's `init` leaves no cursor set: on two or more bars the two differ. */
  lemma InitSetsNoCursor(s: seq<Elem>)
    requires |s| >= 2
    ensures NoCurrent(WithSorted(s, -1)) && InitState(s)[1].current && InitState(s)[0].current2
    ensures WithSorted(s, -1) != InitState(s)
  {
    assert !WithSorted(s, -1)[1].current;
  }

  /** partition(0, 3) on heights 5, 3, 8, 1: the pivot 1 ends first and 5 takes its place. */
  lemma PartitionExample()
    ensures var s := [Elem(5, false, false, false, false), Elem(3, false, false, false, false),
                      Elem(8, false, false, false, false), Elem(1, false, false, false, false)];
            Partitioned(s, 0, 3).pi == 0 && Heights(Partitioned(s, 0, 3).g) == [1, 3, 8, 5]
  {
    var s := [Elem(5, false, false, false, false), Elem(3, false, false, false, false),
              Elem(8, false, false, false, false), Elem(1, false, false, false, false)];
    var g0 := WithMark(s, Pivot, 3);
    var c1 := ScanStep(g0, 0, 2, 1);
    assert c1.l == 0 && c1.r == 1 && Heights(c1.g) == [5, 3, 8, 1];
    var c2 := ScanStep(c1.g, 0, 1, 1);
    assert c2.l == 0 && c2.r == 0 && Heights(c2.g) == [5, 3, 8, 1];
    assert Scanned(s, 0, 3) == c2;
  }

  /**
   * Heights equal to the pivot stay on the left: partition(0, 1) on heights 1, 1 returns 1
   * and leaves the equal height 1 before it.
   */
  lemma PartitionTieExample()
    ensures var s := [Elem(1, false, false, false, false), Elem(1, false, false, false, false)];
            Partitioned(s, 0, 1).pi == 1 && Partitioned(s, 0, 1).g[0].height == s[1].height
  {
  }

  // ---------------------------------------------------------------------------
  // The scan loop of the partition method

  /**
   * The scan loop's invariant: finishing the scan from (l, r) on g ends where the scan
   * from (low, high - 1) on g0 ends, and the snapshots recorded so far followed by the
   * remaining ones are the ones the whole scan records.
   */
  ghost predicate ScanAt(g0: seq<Elem>, h1: seq<seq<Elem>>, low: int, high: int, v: int,
                         g: seq<Elem>, hist: seq<seq<Elem>>, l: int, r: int) {
    && 0 <= low <= l <= r < high <= |g0| == |g|
    && Scan(g, l, r, v) == Scan(g0, low, high - 1, v)
    && hist + ScanHistory(g, l, r, v) == h1 + ScanHistory(g0, low, high - 1, v)
  }

  lemma ScanAdvances(g0: seq<Elem>, h1: seq<seq<Elem>>, low: int, high: int, v: int,
                     g: seq<Elem>, hist: seq<seq<Elem>>, l: int, r: int,
                     g': seq<Elem>, hist': seq<seq<Elem>>, l': int, r': int)
    requires ScanAt(g0, h1, low, high, v, g, hist, l, r) && l < r
    requires Cursor(g', l', r') == ScanStep(g, l, r, v) && hist' == hist + [g']
    ensures ScanAt(g0, h1, low, high, v, g', hist', l', r')
  {
    AppendTwo(hist, hist', hist' + ScanHistory(g', l', r', v), [g'], ScanHistory(g', l', r', v), ScanHistory(g, l, r, v));
  }

  /**
   * The partition method's steps compose to Partitioned and PartitionHistory: the pivot
   * snapshot, the scan loop run until its indices meet at r, and the end of partition.
   */
  lemma PartitionRecords(s: seq<Elem>, low: int, high: int, pivot: Elem,
                         h0: seq<seq<Elem>>, g0: seq<Elem>, h1: seq<seq<Elem>>,
                         g: seq<Elem>, hist: seq<seq<Elem>>, r: int,
                         g': seq<Elem>, h': seq<seq<Elem>>, pi: int)
    requires 0 <= low < high < |s| && pivot == s[high]
    requires g0 == WithMark(s, Pivot, high) && h1 == h0 + [g0]
    requires Cursor(g, r, r) == Scan(g0, low, high - 1, pivot.height)
    requires hist == h1 + ScanHistory(g0, low, high - 1, pivot.height)
    requires Parted(g', pi) == Settled(g, high, r, pivot) && h' == hist + SettledHistory(g, high, r, pivot)
    ensures Parted(g', pi) == Partitioned(s, low, high)
    ensures h' == h0 + PartitionHistory(s, low, high)
  {
    var x := ScanHistory(g0, low, high - 1, pivot.height);
    var y := SettledHistory(g, high, r, pivot);
    AppendChain(h0, h1, hist, h', [g0], x, y);
    AppendThree(h0, [g0], x, y, PartitionHistory(s, low, high));
  }

  // ---------------------------------------------------------------------------
  // The driver (quickSortViz.js:3-158)

  class QuickSortViz {
    /** The bars being sorted (the source's `this.array`). */
    const arr: array<Elem>
    /** Every snapshot recorded so far. */
    var arrayHistory: seq<seq<Elem>>

    constructor (input: array<Elem>)
      ensures arr == input && arrayHistory == []
    {
      arr := input;
      arrayHistory := [];
    }

    /** `init`: clears every sorted flag and both cursors, and sets no cursor (quickSortViz.js:30-34). */
    method Init()
      modifies arr
      ensures arr[..] == WithSorted(old(arr[..]), -1)
    {
      SetSorted(arr, -1);
    }

    /**
     * `fullSort`: init, quicksort the whole array, mark everything sorted and record the
     * final array (quickSortViz.js:62-67).
     */
    method FullSort() returns (history: seq<seq<Elem>>)
      modifies this, arr
      ensures arr[..] == WithSorted(QuickRange(WithSorted(old(arr[..]), -1), 0, arr.Length - 1), arr.Length - 1)
      ensures history == arrayHistory
        == old(arrayHistory) + QuickHistory(WithSorted(old(arr[..]), -1), 0, arr.Length - 1) + [arr[..]]
      ensures Sorted(arr[..]) && SameHeightBag(arr[..], old(arr[..])) && AllSettled(arr[..])
    {
      Init();
      ghost var s := arr[..];
      var last := arr.Length - 1;
      QuickSortRange(0, last);
      ghost var q := arr[..];
      SetSorted(arr, last);
      arrayHistory := arrayHistory + [arr[..]];
      history := arrayHistory;
      WholeRange(Heights(s), Heights(q));
    }

    /** `quicksort(low, high)` (quickSortViz.js:77-89). */
    method QuickSortRange(low: int, high: int)
      requires 0 <= low <= high + 1 <= arr.Length
      modifies this, arr
      ensures arr[..] == QuickRange(old(arr[..]), low, high)
      ensures arrayHistory == old(arrayHistory) + QuickHistory(old(arr[..]), low, high)
      decreases high - low
    {
      ghost var s, h0 := arr[..], arrayHistory;
      if low < high {
        var pi := Partition(low, high);
        FixPivot(pi);
        ghost var g, h1 := arr[..], arrayHistory;
        var before := pi - 1;
        QuickSortRange(low, before);
        ghost var g1, h2 := arr[..], arrayHistory;
        var after := pi + 1;
        QuickSortRange(after, high);
        QuickSteps(s, low, high, before, after, g, g1, arr[..], h0, h1, h2, arrayHistory);
      }
    }

    /** Clears both cursors, marks the bar at pi sorted and records the array (quickSortViz.js:81-84). */
    method FixPivot(pi: int)
      requires 0 <= pi < arr.Length
      modifies this, arr
      ensures arr[..] == PivotFixed(old(arr[..]), pi)
      ensures arrayHistory == old(arrayHistory) + [arr[..]]
    {
      SetCurrent(arr, -1);
      SetCurrent2(arr, -1);
      arr[pi] := arr[pi].(sorted := true);
      var snap := CopyArray(arr);
      arrayHistory := arrayHistory + [snap];
    }

    /** `partition(low, high)` (quickSortViz.js:98-153). */
    method Partition(low: int, high: int) returns (pi: int)
      requires 0 <= low < high < arr.Length
      modifies this, arr
      ensures Parted(arr[..], pi) == Partitioned(old(arr[..]), low, high)
      ensures arrayHistory == old(arrayHistory) + PartitionHistory(old(arr[..]), low, high)
    {
      ghost var s, h0 := arr[..], arrayHistory;
      var pivot := arr[high];
      SetPivot(arr, high);
      var snap := CopyArray(arr);
      arrayHistory := arrayHistory + [snap];
      ghost var g0, h1 := arr[..], arrayHistory;
      var rightIndex := ScanLoop(low, high, pivot);
      ghost var g, hist := arr[..], arrayHistory;
      pi := Settle(high, rightIndex, pivot);
      PartitionRecords(s, low, high, pivot, h0, g0, h1, g, hist, rightIndex, arr[..], arrayHistory, pi);
    }

    /**
     * The scan loop of partition on [low, high - 1]; returns the index where the left
     * and right indices met (quickSortViz.js:107-136).
     */
    method ScanLoop(low: int, high: int, pivot: Elem) returns (rightIndex: int)
      requires 0 <= low < high < arr.Length
      modifies this, arr
      ensures Cursor(arr[..], rightIndex, rightIndex) == Scan(old(arr[..]), low, high - 1, pivot.height)
      ensures arrayHistory == old(arrayHistory) + ScanHistory(old(arr[..]), low, high - 1, pivot.height)
    {
      ghost var g0, h1 := arr[..], arrayHistory;
      var leftIndex := low;
      rightIndex := high - 1;
      while leftIndex < rightIndex
        invariant ScanAt(g0, h1, low, high, pivot.height, arr[..], arrayHistory, leftIndex, rightIndex)
        decreases rightIndex - leftIndex
      {
        ghost var g, hist, l, r := arr[..], arrayHistory, leftIndex, rightIndex;
        leftIndex, rightIndex := ScanOnce(leftIndex, rightIndex, pivot);
        ScanAdvances(g0, h1, low, high, pivot.height, g, hist, l, r, arr[..], arrayHistory, leftIndex, rightIndex);
      }
    }

    /** The end of partition, once the scan has stopped at r (quickSortViz.js:138-152). */
    method Settle(high: int, r: int, pivot: Elem) returns (pi: int)
      requires 0 <= r < high < arr.Length
      modifies this, arr
      ensures Parted(arr[..], pi) == Settled(old(arr[..]), high, r, pivot)
      ensures arrayHistory == old(arrayHistory) + SettledHistory(old(arr[..]), high, r, pivot)
    {
      var pivotIndex := high;
      SetPivot(arr, -1);
      SetCurrent(arr, high);
      SetCurrent2(arr, r);
      var snap := CopyArray(arr);
      arrayHistory := arrayHistory + [snap];
      if Compare(pivot, arr[r]) < 0 {
        arr[pivotIndex] := arr[r];
        arr[r] := pivot;
        SetCurrent(arr, r);
        SetCurrent2(arr, pivotIndex);
        snap := CopyArray(arr);
        arrayHistory := arrayHistory + [snap];
        pi := r;
      } else {
        pi := pivotIndex;
      }
    }

    /** One pass of the scan loop of partition, with its snapshot (quickSortViz.js:110-135). */
    method ScanOnce(l: int, r: int, pivot: Elem) returns (l': int, r': int)
      requires 0 <= l < r < arr.Length
      modifies this, arr
      ensures Cursor(arr[..], l', r') == ScanStep(old(arr[..]), l, r, pivot.height)
      ensures arrayHistory == old(arrayHistory) + [arr[..]]
    {
      SetCurrent(arr, l);
      SetCurrent2(arr, r);
      if Compare(arr[l], pivot) > 0 {
        if Compare(arr[r], pivot) <= 0 {
          var t := arr[l];
          arr[l] := arr[r];
          arr[r] := t;
          SetCurrent(arr, l);
          SetCurrent2(arr, r);
          l', r' := l + 1, r;
        } else {
          l', r' := l, r - 1;
        }
      } else {
        l', r' := l + 1, r;
      }
      var snap := CopyArray(arr);
      arrayHistory := arrayHistory + [snap];
    }
  }

  /** The three steps of quicksort(low, high) compose to QuickRange and QuickHistory. */
  lemma QuickSteps(s: seq<Elem>, low: int, high: int, before: int, after: int,
                   g: seq<Elem>, g1: seq<Elem>, g2: seq<Elem>,
                   h0: seq<seq<Elem>>, h1: seq<seq<Elem>>, h2: seq<seq<Elem>>, h3: seq<seq<Elem>>)
    requires 0 <= low < high < |s|
    requires before == Partitioned(s, low, high).pi - 1 && after == Partitioned(s, low, high).pi + 1
    requires g == Placed(s, low, high) && h1 == h0 + PartitionHistory(s, low, high) + [g]
    requires g1 == QuickRange(g, low, before) && h2 == h1 + QuickHistory(g, low, before)
    requires g2 == QuickRange(g1, after, high) && h3 == h2 + QuickHistory(g1, after, high)
    ensures g2 == QuickRange(s, low, high) && h3 == h0 + QuickHistory(s, low, high)
  {
    var x := PartitionHistory(s, low, high) + [g];
    var y, z := QuickHistory(g, low, before), QuickHistory(g1, after, high);
    QuickUnfolds(s, low, high, before, after, g, g1, x, y, z);
    AppendTwo(h0, h0 + PartitionHistory(s, low, high), h1, PartitionHistory(s, low, high), [g], x);
    AppendChain(h0, h1, h2, h3, x, y, z);
    AppendThree(h0, x, y, z, QuickHistory(s, low, high));
  }

  /** One unfolding of QuickRange and QuickHistory when low < high. */
  lemma QuickUnfolds(s: seq<Elem>, low: int, high: int, before: int, after: int,
                     g: seq<Elem>, g1: seq<Elem>, x: seq<seq<Elem>>, y: seq<seq<Elem>>, z: seq<seq<Elem>>)
    requires 0 <= low < high < |s|
    requires before == Partitioned(s, low, high).pi - 1 && after == Partitioned(s, low, high).pi + 1
    requires g == Placed(s, low, high) && g1 == QuickRange(g, low, before)
    requires x == PartitionHistory(s, low, high) + [g]
    requires y == QuickHistory(g, low, before) && z == QuickHistory(g1, after, high)
    ensures QuickRange(g1, after, high) == QuickRange(s, low, high)
    ensures QuickHistory(s, low, high) == x + y + z
  {
  }
}
