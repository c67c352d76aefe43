/**
  The in-place quicksort of the benchmark, with the last element as pivot.
 */
module Quicksort {
  import opened Words

  predicate SortedRange(s: seq<u32>, lo: int, hi: int) {
    forall i, j :: 0 <= i < |s| && 0 <= j < |s| && lo <= i <= j <= hi ==> s[i] <= s[j]
  }

  /** `t` is `s` with the entries from `lo` to `hi` in some other order, and nothing else moved. */
  ghost predicate Rearranged(s: seq<u32>, t: seq<u32>, lo: int, hi: int)
    requires 0 <= lo <= hi + 1 <= |s|
  {
    && |t| == |s|
    && t[..lo] == s[..lo] && t[hi + 1..] == s[hi + 1..]
    && multiset(t[lo..hi + 1]) == multiset(s[lo..hi + 1])
  }

  function Swapped(s: seq<u32>, i: nat, j: nat): (t: seq<u32>)
    requires i < |s| && j < |s|
    ensures |t| == |s|
  {
    s[i := s[j]][j := s[i]]
  }

  lemma SwapRearranges(s: seq<u32>, i: nat, j: nat, lo: nat, hi: nat)
    requires lo <= i <= hi < |s| && lo <= j <= hi
    ensures Rearranged(s, Swapped(s, i, j), lo, hi)
  {
    var t := Swapped(s, i, j);
    assert t[lo..hi + 1] == s[lo..hi + 1][i - lo := s[j]][j - lo := s[i]];
  }

  lemma RearrangedTrans(s: seq<u32>, t: seq<u32>, u: seq<u32>, lo: nat, hi: int)
    requires lo <= hi + 1 <= |s| && Rearranged(s, t, lo, hi) && Rearranged(t, u, lo, hi)
    ensures Rearranged(s, u, lo, hi)
  {}

  /** Reordering a part reorders the whole. */
  lemma Widen(s: seq<u32>, t: seq<u32>, from: nat, to: int, lo: nat, hi: int)
    requires lo <= from <= to + 1 <= hi + 1 <= |s| && Rearranged(s, t, from, to)
    ensures Rearranged(s, t, lo, hi)
  {
    assert s[lo..from] == s[..from][lo..] && t[lo..from] == t[..from][lo..];
    assert s[to + 1..hi + 1] == s[to + 1..][..hi - to] && t[to + 1..hi + 1] == t[to + 1..][..hi - to];
    assert t[..lo] == t[..from][..lo] && s[..lo] == s[..from][..lo];
    assert t[hi + 1..] == t[to + 1..][hi - to..] && s[hi + 1..] == s[to + 1..][hi - to..];
    assert s[lo..hi + 1] == s[lo..from] + s[from..to + 1] + s[to + 1..hi + 1];
    assert t[lo..hi + 1] == t[lo..from] + t[from..to + 1] + t[to + 1..hi + 1];
  }

  lemma EntryKept(s: seq<u32>, t: seq<u32>, lo: nat, hi: int, k: nat)
    requires lo <= hi + 1 <= |s| && Rearranged(s, t, lo, hi) && k < |s| && !(lo <= k <= hi)
    ensures t[k] == s[k]
  {
    if k < lo {
      assert t[..lo][k] == s[..lo][k];
    } else {
      assert t[hi + 1..][k - hi - 1] == s[hi + 1..][k - hi - 1];
    }
  }

  /** Whatever stood in the range still stands in the range. */
  lemma EntryFrom(s: seq<u32>, t: seq<u32>, lo: nat, hi: int, k: int) returns (m: int)
    requires lo <= hi + 1 <= |s| && Rearranged(s, t, lo, hi) && lo <= k <= hi
    ensures lo <= m <= hi && s[m] == t[k]
  {
    assert t[k] == t[lo..hi + 1][k - lo];
    assert t[k] in multiset(t[lo..hi + 1]);
    assert t[k] in s[lo..hi + 1];
    var n :| 0 <= n < hi + 1 - lo && s[lo..hi + 1][n] == t[k];
    m := lo + n;
  }

  /** Smaller entries before `i`, the others after it. */
  predicate Split(s: seq<u32>, lo: int, i: int, hi: int)
    requires 0 <= lo <= i <= hi < |s|
  {
    && (forall k :: lo <= k < i ==> s[k] < s[i])
    && (forall k :: i < k <= hi ==> s[i] <= s[k])
  }

  lemma SplitKept(s: seq<u32>, t: seq<u32>, lo: nat, i: nat, hi: nat, from: nat, to: int)
    requires lo <= i <= hi < |s| && Split(s, lo, i, hi)
    requires (from == lo && to == i - 1) || (from == i + 1 && to == hi)
    requires Rearranged(s, t, from, to)
    ensures Split(t, lo, i, hi)
  {
    EntryKept(s, t, from, to, i);
    forall k | lo <= k <= hi
      ensures (k < i ==> t[k] < t[i]) && (k > i ==> t[i] <= t[k])
    {
      if from <= k <= to {
        var m := EntryFrom(s, t, from, to, k);
      } else {
        EntryKept(s, t, from, to, k);
      }
    }
  }

  lemma SplitSorted(s: seq<u32>, lo: nat, i: nat, hi: nat)
    requires lo <= i <= hi < |s| && Split(s, lo, i, hi)
    requires SortedRange(s, lo, i - 1) && SortedRange(s, i + 1, hi)
    ensures SortedRange(s, lo, hi)
  {
    forall x, y | 0 <= x < |s| && 0 <= y < |s| && lo <= x <= y <= hi
      ensures s[x] <= s[y]
    {
      if x < i && y > i {
        assert s[x] < s[i] <= s[y];
      }
    }
  }

  lemma SortedKept(s: seq<u32>, t: seq<u32>, lo: nat, hi: int, from: nat, to: int)
    requires lo <= hi + 1 <= |s| && Rearranged(s, t, lo, hi) && (to < lo || from > hi)
    requires SortedRange(s, from, to)
    ensures SortedRange(t, from, to)
  {
    forall x, y | 0 <= x < |t| && 0 <= y < |t| && from <= x <= y <= to
      ensures t[x] <= t[y]
    {
      EntryKept(s, t, lo, hi, x);
      EntryKept(s, t, lo, hi, y);
    }
  }

  lemma SwapStep(s: seq<u32>, t: seq<u32>, i: nat, j: nat, lo: nat, hi: nat)
    requires lo <= i <= hi < |s| && lo <= j <= hi && Rearranged(s, t, lo, hi)
    ensures Rearranged(s, Swapped(t, i, j), lo, hi)
  {
    SwapRearranges(t, i, j, lo, hi);
    RearrangedTrans(s, t, Swapped(t, i, j), lo, hi);
  }

  /** The range up to `j` has been looked at: smaller entries than the pivot `s[hi]` before `i`, the others from `i` on. */
  ghost predicate Sifted(was: seq<u32>, s: seq<u32>, lo: int, i: int, j: int, hi: int) {
    && 0 <= lo <= i <= j <= hi < |s| && |was| == |s| && Rearranged(was, s, lo, hi)
    && (forall k :: lo <= k < i ==> s[k] < s[hi])
    && (forall k :: i <= k < j ==> s[hi] <= s[k])
  }

  lemma SiftSmaller(was: seq<u32>, s: seq<u32>, lo: int, i: int, j: int, hi: int)
    requires Sifted(was, s, lo, i, j, hi) && j < hi && s[j] < s[hi]
    ensures Sifted(was, Swapped(s, i, j), lo, i + 1, j + 1, hi) && Swapped(s, i, j)[hi] == s[hi]
  {
    SwapStep(was, s, i, j, lo, hi);
  }

  lemma SiftPivot(was: seq<u32>, s: seq<u32>, lo: int, i: int, hi: int)
    requires Sifted(was, s, lo, i, hi, hi)
    ensures Rearranged(was, Swapped(s, i, hi), lo, hi) && Split(Swapped(s, i, hi), lo, i, hi)
  {
    SwapStep(was, s, i, hi, lo, hi);
  }

  /** The loop of `qsort_u32` and the swap that puts the pivot in its place. */
  method Partition(a: array<u32>, lo: int, hi: int) returns (i: int)
    requires 0 <= lo < hi < a.Length
    modifies a
    ensures lo <= i <= hi
    ensures Rearranged(old(a[..]), a[..], lo, hi)
    ensures Split(a[..], lo, i, hi)
  {
    var p := a[hi];
    i := lo;
    ghost var was := a[..];
    for j := lo to hi
      invariant Sifted(was, a[..], lo, i, j, hi) && a[hi] == p
    {
      if a[j] < p {
        SiftSmaller(was, a[..], lo, i, j, hi);
        ghost var next := Swapped(a[..], i, j);
        a[i], a[j] := a[j], a[i];
        assert a[..] == next;
        i := i + 1;
      }
    }
    SiftPivot(was, a[..], lo, i, hi);
    ghost var next := Swapped(a[..], i, hi);
    a[i], a[hi] := a[hi], a[i];
    assert a[..] == next;
  }

  /**
    `qsort_u32`: sorted, a permutation, and nothing outside touched. Bounds that enclose more than one entry
    must lie in the array; any others, however far apart, change nothing.
   */
  method Sort(a: array<u32>, lo: int, hi: int)
    requires lo < hi ==> 0 <= lo && hi < a.Length
    modifies a
    ensures SortedRange(a[..], lo, hi)
    ensures 0 <= lo <= hi + 1 <= a.Length ==> Rearranged(old(a[..]), a[..], lo, hi)
    ensures lo >= hi ==> a[..] == old(a[..])
    decreases hi - lo
  {
    if lo >= hi {
      return;
    }
    ghost var s0 := a[..];
    var i := Partition(a, lo, hi);
    ghost var s1 := a[..];
    Sort(a, lo, i - 1);
    ghost var s2 := a[..];
    Sort(a, i + 1, hi);
    SortedSplit(s0, s1, s2, a[..], lo, i, hi);
  }

  lemma SortedSplit(s0: seq<u32>, s1: seq<u32>, s2: seq<u32>, s3: seq<u32>, lo: nat, i: nat, hi: nat)
    requires lo <= i <= hi < |s0|
    requires Rearranged(s0, s1, lo, hi) && Split(s1, lo, i, hi)
    requires Rearranged(s1, s2, lo, i - 1) && SortedRange(s2, lo, i - 1)
    requires Rearranged(s2, s3, i + 1, hi) && SortedRange(s3, i + 1, hi)
    ensures SortedRange(s3, lo, hi) && Rearranged(s0, s3, lo, hi)
  {
    SplitKept(s1, s2, lo, i, hi, lo, i - 1);
    SplitKept(s2, s3, lo, i, hi, i + 1, hi);
    SortedKept(s2, s3, i + 1, hi, lo, i - 1);
    SplitSorted(s3, lo, i, hi);
    Widen(s1, s2, lo, i - 1, lo, hi);
    Widen(s2, s3, i + 1, hi, lo, hi);
    RearrangedTrans(s0, s1, s2, lo, hi);
    RearrangedTrans(s0, s2, s3, lo, hi);
  }
}
