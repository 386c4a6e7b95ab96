// Quicksort of a range of ITEMS, as one process runs it (scripts/parallelsort.sh).

module Partitioning {

  predicate SortedRange(s: seq<int>, lo: nat, hi: nat)
    requires lo <= hi <= |s|
  {
    forall i, k :: lo <= i < k < hi ==> s[i] <= s[k]
  }

  /** Everything in the range is on the right side of position p. */
  predicate SplitAt(s: seq<int>, lo: nat, hi: nat, p: int)
    requires hi <= |s|
  {
    && lo <= p < hi
    && (forall k :: lo <= k < p ==> s[k] <= s[p])
    && (forall k :: p < k < hi ==> s[p] <= s[k])
  }

  /** Between the two scanning indices nothing is known yet; outside them all is. */
  predicate Scanned(s: seq<int>, lo: nat, hi: nat, pivot: int, i: int, j: int)
    requires hi <= |s|
  {
    && lo < i <= hi && lo <= j < hi && i <= j + 2
    && s[lo] == pivot
    && (forall k :: lo < k < i ==> s[k] <= pivot)
    && (forall k :: j < k < hi ==> pivot <= s[k])
  }

  function Swapped(s: seq<int>, i: nat, j: nat): (r: seq<int>)
    requires i < |s| && j < |s|
    ensures |r| == |s|
  {
    s[i := s[j]][j := s[i]]
  }

  /** Swapping the two elements at which the scans stopped moves both scans on. */
  lemma SwapKeepsScan(s: seq<int>, lo: nat, hi: nat, pivot: int, i: nat, j: nat)
    requires hi <= |s| && Scanned(s, lo, hi, pivot, i, j) && i <= j && s[j] <= pivot <= s[i]
    ensures Scanned(Swapped(s, i, j), lo, hi, pivot, i + 1, j - 1)
  {
  }

  /** When the scans have met, swapping the pivot into place splits the range. */
  lemma FinalSwapSplits(s: seq<int>, lo: nat, hi: nat, pivot: int, i: int, j: int)
    requires hi <= |s| && Scanned(s, lo, hi, pivot, i, j) && i > j
    ensures SplitAt(Swapped(s, lo, j), lo, hi, j)
  {
  }

  /** Which of three positions holds the median. */
  function Choose(a: nat, b: nat, c: nat, va: int, vb: int, vc: int): nat {
    if va <= vb then
      if vb <= vc then b else if va <= vc then c else a
    else
      if va <= vc then a else if vb <= vc then c else b
  }

  // ----- Rearranging a range -----

  /** t is s with the elements of the range in another order. */
  ghost predicate Rearranged(s: seq<int>, t: seq<int>, lo: nat, hi: nat) {
    && |s| == |t| && lo <= hi <= |s|
    && (forall k :: 0 <= k < |s| && (k < lo || hi <= k) ==> s[k] == t[k])
    && multiset(s) == multiset(t)
  }

  lemma SwapRearranges(s: seq<int>, t: seq<int>, lo: nat, hi: nat, i: nat, j: nat)
    requires Rearranged(s, t, lo, hi) && lo <= i < hi && lo <= j < hi
    ensures Rearranged(s, Swapped(t, i, j), lo, hi)
  {
  }

  lemma RangeKeepsMultiset(s: seq<int>, t: seq<int>, lo: nat, hi: nat)
    requires Rearranged(s, t, lo, hi)
    ensures multiset(s[lo..hi]) == multiset(t[lo..hi])
  {
    assert s[..lo] == t[..lo] && s[hi..] == t[hi..];
    ThreeParts(s, lo, hi);
    ThreeParts(t, lo, hi);
  }

  lemma ThreeParts(s: seq<int>, lo: nat, hi: nat)
    requires lo <= hi <= |s|
    ensures multiset(s[lo..hi]) == multiset(s) - multiset(s[..lo]) - multiset(s[hi..])
  {
    assert s == s[..lo] + s[lo..hi] + s[hi..];
  }

  /** Every element of the rearranged range was in the range before. */
  lemma Moved(s: seq<int>, t: seq<int>, lo: nat, hi: nat, k: nat) returns (x: nat)
    requires Rearranged(s, t, lo, hi) && lo <= k < hi
    ensures lo <= x < hi && s[x] == t[k]
  {
    RangeKeepsMultiset(s, t, lo, hi);
    assert t[lo..hi][k - lo] in multiset(s[lo..hi]);
    var y :| 0 <= y < hi - lo && s[lo..hi][y] == t[k];
    x := lo + y;
  }

  lemma FirstIsLeast(s: seq<int>, t: seq<int>)
    requires s != [] && SortedRange(s, 0, |s|) && multiset(s) == multiset(t)
    ensures t != [] && s[0] <= t[0]
  {
    assert s[0] in multiset(t);
    assert t[0] in multiset(s);
    var j :| 0 <= j < |s| && s[j] == t[0];
  }

  lemma RestOf(s: seq<int>)
    requires s != []
    ensures s == [s[0]] + s[1..] && multiset(s[1..]) == multiset(s) - multiset{s[0]}
  {
    assert s == [s[0]] + s[1..];
  }

  lemma {:induction false} SortedIsUnique(s: seq<int>, t: seq<int>)
    requires SortedRange(s, 0, |s|) && SortedRange(t, 0, |t|) && multiset(s) == multiset(t)
    ensures s == t
  {
    if s == [] {
      assert |multiset(t)| == |t|;
    } else {
      FirstIsLeast(s, t);
      FirstIsLeast(t, s);
      RestOf(s);
      RestOf(t);
      SortedIsUnique(s[1..], t[1..]);
    }
  }

  // ----- The code -----

  method SwapItems(items: array<int>, i: nat, j: nat)
    requires i < items.Length && j < items.Length
    modifies items
    ensures items[..] == Swapped(old(items[..]), i, j)
  {
    var t := items[i];
    items[i] := items[j];
    items[j] := t;
  }

  /** Nothing but the pivot itself reaches the pivot's value. */
  predicate RestBelow(s: seq<int>, lo: nat, hi: nat)
    requires lo < hi <= |s|
  {
    forall k :: lo < k < hi ==> s[k] < s[lo]
  }

  /** A range of one element, or an increasing pair. */
  predicate OneOrPair(s: seq<int>, lo: nat, hi: nat)
    requires lo < hi <= |s|
  {
    hi - lo == 1 || (hi - lo == 2 && s[lo] < s[lo + 1])
  }

  /** With the median of three as pivot that is what it takes. */
  lemma MedianRestBelow(s: seq<int>, lo: nat, hi: nat)
    requires lo < hi <= |s|
    ensures var b, c := lo + (hi - lo) / 2, hi - 1;
            var m := Choose(lo, b, c, s[lo], s[b], s[c]);
            && m in {lo, b, c}
            && (RestBelow(Swapped(s, lo, m), lo, hi) <==> OneOrPair(s, lo, hi))
  {
    var b, c := lo + (hi - lo) / 2, hi - 1;
    var m := Choose(lo, b, c, s[lo], s[b], s[c]);
    var moved := Swapped(s, lo, m);
    if hi - lo > 2 {
      assert moved[b] >= moved[lo] || moved[c] >= moved[lo];
    }
  }

  /** Equal elements, but for a larger one at the end. */
  predicate OneAbove(s: seq<int>, lo: nat, hi: nat) {
    lo + 2 <= hi <= |s| && s[lo] < s[hi - 1] && forall k :: lo <= k < hi - 1 ==> s[k] == s[lo]
  }

  /** In such a range of three or more the scans only swap equal elements, and soon leave its end. */
  ghost predicate FlatScan(moved: seq<int>, now: seq<int>, lo: nat, hi: nat, i: int, j: int) {
    OneAbove(moved, lo, hi) && hi - lo >= 3 ==> now == moved && (j + 3 <= hi || (i == lo + 1 && j == hi - 1))
  }

  lemma FlatSwap(moved: seq<int>, now: seq<int>, lo: nat, hi: nat, from: nat, to: int, i: nat, j: nat)
    requires |now| == |moved| && lo < from <= i <= j <= to < hi <= |now| && FlatScan(moved, now, lo, hi, from, to)
    requires OneAbove(moved, lo, hi) && to == hi - 1 ==> j == hi - 2
    ensures FlatScan(moved, Swapped(now, i, j), lo, hi, i + 1, j - 1)
  {
    if OneAbove(moved, lo, hi) && hi - lo >= 3 { assert Swapped(now, i, j) == moved; }
  }

  /** The median of such a range is one of the equal elements. */
  lemma FlatMedian(s: seq<int>, lo: nat, hi: nat, m: nat)
    requires OneAbove(s, lo, hi) && hi - lo >= 3
    requires var b, c := lo + (hi - lo) / 2, hi - 1; m == Choose(lo, b, c, s[lo], s[b], s[c])
    ensures Swapped(s, lo, m) == s
  {
  }

  /** The right end has not moved, and everything passed so far is below the pivot; or it has. */
  ghost predicate Untouched(moved: seq<int>, now: seq<int>, lo: nat, hi: nat, i: int, j: int)
    requires lo < hi <= |moved| && |now| == |moved|
  {
    if j == hi - 1 then now == moved && forall k :: lo < k < i && k < hi ==> moved[k] < moved[lo]
    else !RestBelow(moved, lo, hi)
  }

  /** What one call of the partition makes of a range. */
  ghost predicate Partitioned(s: seq<int>, t: seq<int>, lo: nat, hi: nat, p: nat) {
    && lo < hi <= |s| && Rearranged(s, t, lo, hi) && SplitAt(t, lo, hi, p)
    && (p + 1 == hi <==> OneOrPair(s, lo, hi))
    && (OneAbove(s, lo, hi) && hi - lo >= 3 ==> t == s && OneAbove(t, p + 1, hi))
  }

  /**
   * Leaves the pivot at its final position p. The right side is empty exactly when the range has
   * one element, or two in increasing order; the caller's exit status depends on it.
   */
  method Partition(items: array<int>, lo: nat, hi: nat) returns (p: nat)
    requires lo < hi <= items.Length
    modifies items
    ensures Partitioned(old(items[..]), items[..], lo, hi, p)
  {
    ghost var before := items[..];
    var n := hi - lo;
    var a, b, c := lo, lo + n / 2, hi - 1;
    var m := Choose(a, b, c, items[a], items[b], items[c]);
    MovePivot(items, lo, m);
    ghost var moved := items[..];
    var i, j := Scan(items, lo, hi);
    PartitionDone(before, moved, items[..], lo, hi, m, i, j);
    FlatPartition(before, moved, items[..], lo, hi, m, j);
    SwapItems(items, lo, j);
    p := j;
  }

  method MovePivot(items: array<int>, lo: nat, m: nat)
    requires lo < items.Length && m < items.Length
    modifies items
    ensures items[..] == Swapped(old(items[..]), lo, m)
  {
    if m != lo {
      SwapItems(items, lo, m);
    }
  }

  /** The three rearrangements of a partition, one after the other. */
  lemma PartitionDone(before: seq<int>, moved: seq<int>, scanned: seq<int>, lo: nat, hi: nat, m: nat, i: int, j: int)
    requires lo < hi <= |before| && m < |before| && moved == Swapped(before, lo, m)
    requires var b, c := lo + (hi - lo) / 2, hi - 1; m == Choose(lo, b, c, before[lo], before[b], before[c])
    requires j == hi - 1 <==> RestBelow(moved, lo, hi)
    requires Rearranged(moved, scanned, lo, hi) && Scanned(scanned, lo, hi, moved[lo], i, j) && i > j
    ensures Rearranged(before, Swapped(scanned, lo, j), lo, hi) && SplitAt(Swapped(scanned, lo, j), lo, hi, j)
    ensures j + 1 == hi <==> OneOrPair(before, lo, hi)
  {
    MedianRestBelow(before, lo, hi);
    SwapRearranges(before, before, lo, hi, lo, m);
    SwapRearranges(moved, scanned, lo, hi, lo, j);
    FinalSwapSplits(scanned, lo, hi, moved[lo], i, j);
  }

  /** A flat range stays as it is, and its right side is one too. */
  lemma FlatPartition(before: seq<int>, moved: seq<int>, scanned: seq<int>, lo: nat, hi: nat, m: nat, j: int)
    requires lo < hi <= |before| && m < |before| && moved == Swapped(before, lo, m)
    requires var b, c := lo + (hi - lo) / 2, hi - 1; m == Choose(lo, b, c, before[lo], before[b], before[c])
    requires |scanned| == |before| && lo <= j < hi
    requires OneAbove(moved, lo, hi) && hi - lo >= 3 ==> scanned == moved && j + 3 <= hi
    ensures OneAbove(before, lo, hi) && hi - lo >= 3 ==>
              Swapped(scanned, lo, j) == before && OneAbove(before, j + 1, hi)
  {
    if OneAbove(before, lo, hi) && hi - lo >= 3 {
      FlatMedian(before, lo, hi, m);
      assert Swapped(scanned, lo, j) == before;
    }
  }

  /** The first inner loop of the partition. */
  method ScanUp(items: array<int>, lo: nat, hi: nat, pivot: int, from: nat, j: int, ghost moved: seq<int>)
    returns (i: nat)
    requires lo < hi <= items.Length == |moved| && moved[lo] == pivot
    requires Scanned(items[..], lo, hi, pivot, from, j) && Untouched(moved, items[..], lo, hi, from, j)
    ensures Scanned(items[..], lo, hi, pivot, i, j) && Untouched(moved, items[..], lo, hi, i, j)
    ensures from <= i && (i <= j ==> pivot <= items[i])
    ensures from <= j && pivot <= items[from] ==> i == from
  {
    i := from;
    while i <= j && items[i] < pivot
      invariant from <= i && Scanned(items[..], lo, hi, pivot, i, j) && (from < i ==> items[from] < pivot)
      invariant Untouched(moved, items[..], lo, hi, i, j)
    {
      i := i + 1;
    }
  }

  /** The second one. */
  method ScanDown(items: array<int>, lo: nat, hi: nat, pivot: int, i: nat, from: int, ghost moved: seq<int>)
    returns (j: int)
    requires lo < hi <= items.Length == |moved| && moved[lo] == pivot
    requires Scanned(items[..], lo, hi, pivot, i, from) && Untouched(moved, items[..], lo, hi, i, from)
    requires i <= from ==> pivot <= items[i]
    ensures Scanned(items[..], lo, hi, pivot, i, j) && Untouched(moved, items[..], lo, hi, i, j)
    ensures j <= from && (i <= j ==> items[j] <= pivot <= items[i])
    ensures i < from && items[from] > pivot >= items[from - 1] ==> j == from - 1
  {
    j := from;
    while i <= j && items[j] > pivot
      invariant j <= from && Scanned(items[..], lo, hi, pivot, i, j)
      invariant j + 1 < from ==> items[from - 1] > pivot
      invariant Untouched(moved, items[..], lo, hi, i, j)
      invariant i <= j ==> pivot <= items[i]
    {
      j := j - 1;
    }
  }

  /** Two elements out of place keep the pivot from being strictly above the rest. */
  lemma SwapTouches(moved: seq<int>, now: seq<int>, next: seq<int>, lo: nat, hi: nat, i: nat, j: int)
    requires lo < hi <= |moved| == |now| == |next| && Untouched(moved, now, lo, hi, i, j)
    requires lo < i <= j < hi && moved[lo] <= now[i]
    ensures Untouched(moved, next, lo, hi, i + 1, j - 1)
  {
  }

  /** All that the loop of the partition keeps. */
  ghost predicate Scanning(moved: seq<int>, now: seq<int>, lo: nat, hi: nat, i: int, j: int)
    requires lo < hi <= |moved| && |now| == |moved|
  {
    && Scanned(now, lo, hi, moved[lo], i, j) && Rearranged(moved, now, lo, hi)
    && Untouched(moved, now, lo, hi, i, j) && FlatScan(moved, now, lo, hi, i, j)
  }

  /** One round of it. */
  lemma RoundKeepsScanning(moved: seq<int>, now: seq<int>, lo: nat, hi: nat, from: nat, to: int, i: nat, j: int)
    requires lo < hi <= |moved| && |now| == |moved| && Scanning(moved, now, lo, hi, from, to) && from <= to
    requires Scanned(now, lo, hi, moved[lo], i, j) && Untouched(moved, now, lo, hi, i, j)
    requires from <= i && j <= to && (moved[lo] <= now[from] ==> i == from)
    requires i < to && now[to] > moved[lo] >= now[to - 1] ==> j == to - 1
    requires i <= j ==> now[j] <= moved[lo] <= now[i]
    ensures if i <= j then Scanning(moved, Swapped(now, i, j), lo, hi, i + 1, j - 1)
            else Scanning(moved, now, lo, hi, i, j)
  {
    if i <= j {
      SwapKeepsScan(now, lo, hi, moved[lo], i, j);
      SwapRearranges(moved, now, lo, hi, i, j);
      SwapTouches(moved, now, Swapped(now, i, j), lo, hi, i, j);
      FlatSwap(moved, now, lo, hi, from, to, i, j);
    }
  }

  /** The loop of the partition: both indices scan until they have met. */
  method Scan(items: array<int>, lo: nat, hi: nat) returns (i: nat, j: int)
    requires lo < hi <= items.Length
    modifies items
    ensures Scanned(items[..], lo, hi, old(items[lo]), i, j) && i > j
    ensures Rearranged(old(items[..]), items[..], lo, hi)
    ensures j == hi - 1 <==> RestBelow(old(items[..]), lo, hi)
    ensures OneAbove(old(items[..]), lo, hi) && hi - lo >= 3 ==> items[..] == old(items[..]) && j + 3 <= hi
  {
    ghost var moved := items[..];
    var pivot := items[lo];
    i, j := lo + 1, hi - 1;
    while i <= j
      invariant Scanning(moved, items[..], lo, hi, i, j)
      decreases j - i + 2
    {
      ghost var now, from, to := items[..], i, j;
      i := ScanUp(items, lo, hi, pivot, i, j, moved);
      j := ScanDown(items, lo, hi, pivot, i, j, moved);
      RoundKeepsScanning(moved, now, lo, hi, from, to, i, j);
      if i <= j {
        SwapItems(items, i, j);
        i, j := i + 1, j - 1;
      }
    }
  }

  /** Both sides of a split that are sorted make a sorted range. */
  lemma SortedSides(split: seq<int>, done: seq<int>, lo: nat, p: nat, hi: nat)
    requires hi <= |split| && SplitAt(split, lo, hi, p) && |done| == |split|
    requires done[p] == split[p]
    requires forall k :: lo <= k < p ==> done[k] <= split[p]
    requires forall k :: p < k < hi ==> split[p] <= done[k]
    requires SortedRange(done, lo, p) && SortedRange(done, p + 1, hi)
    ensures SortedRange(done, lo, hi)
  {
    forall i, k | lo <= i < k < hi ensures done[i] <= done[k] {
      if i < p < k { assert done[i] <= split[p] <= done[k]; }
    }
  }

  // ----- The sort -----

  /** The range is sorted, and nothing else has changed. */
  ghost predicate Sorts(s: seq<int>, t: seq<int>, lo: nat, hi: nat) {
    Rearranged(s, t, lo, hi) && SortedRange(t, lo, hi)
  }

  /** The calls of one `psort`: where it split its range, and what it called on the two sides. */
  datatype Calls = Nothing | Both(p: nat, split: seq<int>, left: Calls, between: seq<int>, right: Calls)

  /** These calls lead from s to t. */
  ghost predicate Ran(s: seq<int>, t: seq<int>, lo: nat, hi: nat, calls: Calls)
    decreases calls
  {
    && lo <= hi <= |s|
    && match calls
       case Nothing => hi - lo <= 1 && t == s
       case Both(p, split, left, between, right) =>
         && hi - lo >= 2 && Partitioned(s, split, lo, hi, p)
         && Ran(split, between, lo, p, left) && Ran(between, t, p + 1, hi, right)
  }

  /** No call that forked has an empty right side. */
  predicate Succeeds(calls: Calls, lo: nat, hi: nat, threshold: int)
    decreases calls
  {
    match calls
    case Nothing => true
    case Both(p, _, left, _, right) =>
      && (hi - lo <= threshold || p + 1 < hi)
      && Succeeds(left, lo, p, threshold) && Succeeds(right, p + 1, hi, threshold)
  }

  /** The ranges that were sorted, with the array as each call found it. */
  datatype Visit = Visit(found: seq<int>, lo: nat, hi: nat)

  function Visits(s: seq<int>, lo: nat, hi: nat, calls: Calls): set<Visit>
    decreases calls
  {
    {Visit(s, lo, hi)} +
    match calls
    case Nothing => {}
    case Both(p, split, left, between, right) => Visits(split, lo, p, left) + Visits(between, p + 1, hi, right)
  }

  predicate IncreasingPair(v: Visit) {
    v.lo + 2 == v.hi <= |v.found| && v.found[v.lo] < v.found[v.lo + 1]
  }

  /**
   * `psort`, with the workers that it forks above the threshold run one after the other. `ok` is
   * status 0: an empty right side makes the last command of the forking branch fail, and under
   * `set -e` a failed worker fails its parent.
   */
  method Psort(items: array<int>, lo: nat, hi: nat, threshold: int) returns (ok: bool, ghost calls: Calls)
    requires lo <= hi <= items.Length
    modifies items
    ensures Ran(old(items[..]), items[..], lo, hi, calls)
    ensures ok <==> Succeeds(calls, lo, hi, threshold)
    decreases hi - lo, 1
  {
    if hi - lo <= 1 { return true, Nothing; }
    ghost var before := items[..];
    var p := Partition(items, lo, hi);
    ghost var split := items[..];
    var sidesOk, left, between, right := PsortSides(items, lo, p, hi, threshold);
    ok := sidesOk && (hi - lo <= threshold || p + 1 < hi);
    calls := BothRan(before, split, between, items[..], lo, p, hi, left, right, threshold);
  }

  /** Both sides, by this process or by workers that it waits for. */
  method PsortSides(items: array<int>, lo: nat, p: nat, hi: nat, threshold: int)
    returns (ok: bool, ghost left: Calls, ghost between: seq<int>, ghost right: Calls)
    requires lo <= p < hi <= items.Length
    modifies items
    ensures Ran(old(items[..]), between, lo, p, left) && Ran(between, items[..], p + 1, hi, right)
    ensures ok <==> Succeeds(left, lo, p, threshold) && Succeeds(right, p + 1, hi, threshold)
    decreases hi - lo, 0
  {
    var leftOk, rightOk;
    leftOk, left := Psort(items, lo, p, threshold);
    between := items[..];
    rightOk, right := Psort(items, p + 1, hi, threshold);
    ok := leftOk && rightOk;
  }

  lemma BothRan(s: seq<int>, split: seq<int>, between: seq<int>, t: seq<int>, lo: nat, p: nat, hi: nat,
                left: Calls, right: Calls, threshold: int) returns (calls: Calls)
    requires lo <= hi <= |s|
    ensures Ran(s, t, lo, hi, calls)
            <==> && hi - lo >= 2 && Partitioned(s, split, lo, hi, p)
                 && Ran(split, between, lo, p, left) && Ran(between, t, p + 1, hi, right)
    ensures Succeeds(calls, lo, hi, threshold)
            <==> && (hi - lo <= threshold || p + 1 < hi)
                 && Succeeds(left, lo, p, threshold) && Succeeds(right, p + 1, hi, threshold)
  {
    calls := Both(p, split, left, between, right);
  }

  /** Both sides sorted, one after the other. */
  lemma SidesSorted(before: seq<int>, split: seq<int>, left: seq<int>, done: seq<int>, lo: nat, p: nat, hi: nat)
    requires hi <= |split| && SplitAt(split, lo, hi, p) && Rearranged(before, split, lo, hi)
    requires Rearranged(split, left, lo, p) && SortedRange(left, lo, p)
    requires Rearranged(left, done, p + 1, hi) && SortedRange(done, p + 1, hi)
    ensures Rearranged(before, done, lo, hi) && SortedRange(done, lo, hi)
  {
    forall k | lo <= k < p ensures done[k] <= split[p] { var x := Moved(split, left, lo, p, k); }
    forall k | p < k < hi ensures split[p] <= done[k] { var x := Moved(left, done, p + 1, hi, k); }
    SortedSides(split, done, lo, p, hi);
  }

  /** Any such calls sort the range and leave the rest alone. */
  lemma {:induction false} RanSorts(s: seq<int>, t: seq<int>, lo: nat, hi: nat, calls: Calls)
    requires Ran(s, t, lo, hi, calls)
    ensures Sorts(s, t, lo, hi)
    decreases calls
  {
    if calls.Both? {
      RanSorts(calls.split, calls.between, lo, calls.p, calls.left);
      RanSorts(calls.between, t, calls.p + 1, hi, calls.right);
      SidesSorted(s, calls.split, calls.between, t, lo, calls.p, hi);
    }
  }

  /**
   * The status, whatever the array: with a threshold of two or more it is 0, and below that it is 0
   * exactly if no call came to a range of two elements in increasing order.
   */
  lemma {:induction false} SucceedsUnlessPair(s: seq<int>, t: seq<int>, lo: nat, hi: nat, calls: Calls, threshold: int)
    requires Ran(s, t, lo, hi, calls)
    ensures Succeeds(calls, lo, hi, threshold)
            <==> threshold >= 2 || forall v :: v in Visits(s, lo, hi, calls) ==> !IncreasingPair(v)
    decreases calls
  {
    if calls.Both? {
      SucceedsUnlessPair(calls.split, calls.between, lo, calls.p, calls.left, threshold);
      SucceedsUnlessPair(calls.between, t, calls.p + 1, hi, calls.right, threshold);
      VisitsAre(s, lo, hi, calls);
      assert IncreasingPair(Visit(s, lo, hi)) <==> calls.p + 1 == hi;
    }
  }

  lemma VisitsAre(s: seq<int>, lo: nat, hi: nat, calls: Calls)
    requires calls.Both?
    ensures forall v :: v in Visits(s, lo, hi, calls) <==>
              || v == Visit(s, lo, hi)
              || v in Visits(calls.split, lo, calls.p, calls.left)
              || v in Visits(calls.between, calls.p + 1, hi, calls.right)
  {
  }

  lemma OneAboveDivided(s: seq<int>, t: seq<int>, lo: nat, hi: nat, calls: Calls)
    requires Ran(s, t, lo, hi, calls) && OneAbove(s, lo, hi)
    ensures calls.Both? && lo <= calls.p < hi
    ensures if hi - lo >= 3 then OneAbove(calls.between, calls.p + 1, hi) else calls.p + 1 == hi
  {
    if hi - lo >= 3 { RanSorts(calls.split, calls.between, lo, calls.p, calls.left); }
  }

  /** A range of equal elements with a larger one at the end always fails. */
  lemma {:induction false} OneAboveFails(s: seq<int>, t: seq<int>, lo: nat, hi: nat, calls: Calls, threshold: int)
    ensures Ran(s, t, lo, hi, calls) && OneAbove(s, lo, hi) && threshold <= 1 ==> !Succeeds(calls, lo, hi, threshold)
    decreases calls
  {
    if Ran(s, t, lo, hi, calls) && OneAbove(s, lo, hi) {
      OneAboveDivided(s, t, lo, hi, calls);
      if hi - lo >= 3 { OneAboveFails(calls.between, t, calls.p + 1, hi, calls.right, threshold); }
    }
  }

  lemma {:induction false} OneAboveCalls(s: seq<int>, lo: nat, hi: nat) returns (calls: Calls)
    requires OneAbove(s, lo, hi)
    ensures Ran(s, s, lo, hi, calls)
    decreases hi - lo
  {
    if hi - lo == 2 {
      calls := Both(lo + 1, s, Nothing, s, Nothing);
    } else {
      var rest := OneAboveCalls(s, lo + 1, hi);
      calls := Both(lo, s, Nothing, s, rest);
    }
  }

  /** Some calls sort the array. */
  ghost predicate Sortable(s: seq<int>) {
    exists t, calls :: Ran(s, t, 0, |s|, calls)
  }

  /** Every psort of s that can happen has status 0. */
  ghost predicate AlwaysSucceeds(s: seq<int>, threshold: int) {
    forall t, calls :: Ran(s, t, 0, |s|, calls) ==> Succeeds(calls, 0, |s|, threshold)
  }

  ghost predicate AlwaysFails(s: seq<int>, threshold: int) {
    forall t, calls :: Ran(s, t, 0, |s|, calls) ==> !Succeeds(calls, 0, |s|, threshold)
  }

  /**
   * For every length of two or more, `psort` has status 0 on all arrays exactly if the threshold is
   * at least two: otherwise it fails on some array, though it sorts it.
   */
  lemma SucceedsIff(n: nat, threshold: int)
    requires n >= 2
    ensures (forall s: seq<int> :: |s| == n ==> AlwaysSucceeds(s, threshold)) <==> threshold >= 2
    ensures threshold < 2 ==> exists s: seq<int> :: |s| == n && Sortable(s) && AlwaysFails(s, threshold)
  {
    if threshold < 2 {
      var s, calls := FailingInput(n, threshold);
    } else {
      forall s: seq<int>, t, calls | Ran(s, t, 0, |s|, calls) ensures Succeeds(calls, 0, |s|, threshold) {
        SucceedsUnlessPair(s, t, 0, |s|, calls, threshold);
      }
    }
  }

  /** Such an array: 1 1 ... 1 2, and the calls that sort it. */
  lemma FailingInput(n: nat, threshold: int) returns (s: seq<int>, calls: Calls)
    requires n >= 2 && threshold <= 1
    ensures |s| == n && s[n - 1] == 2 && SortedRange(s, 0, n) && forall k :: 0 <= k < n - 1 ==> s[k] == 1
    ensures Ran(s, s, 0, n, calls) && AlwaysFails(s, threshold)
  {
    s := seq(n - 1, _ => 1) + [2];
    assert OneAbove(s, 0, n);
    forall t, c | Ran(s, t, 0, n, c) ensures !Succeeds(c, 0, n, threshold) { OneAboveFails(s, t, 0, n, c, threshold); }
    calls := OneAboveCalls(s, 0, n);
  }
}
