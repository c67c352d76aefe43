/**
  Order statistics: the k-th smallest entry of a sequence, by counting and by sorting.
 */
module OrderStatistics {

  /** How many entries are at most `v`. */
  function Count(s: seq<int>, v: int): (n: nat)
    ensures n <= |s|
  {
    if s == [] then 0 else Count(s[..|s| - 1], v) + if s[|s| - 1] <= v then 1 else 0
  }

  /** `x` is the k-th smallest entry: fewer than k lie below it, and k with it. */
  predicate IsKth(s: seq<int>, k: int, x: int) {
    Count(s, x - 1) < k <= Count(s, x)
  }

  predicate Sorted(s: seq<int>) {
    forall i, j :: 0 <= i < j < |s| ==> s[i] <= s[j]
  }

  lemma {:induction false} CountAppend(a: seq<int>, b: seq<int>, v: int)
    ensures Count(a + b, v) == Count(a, v) + Count(b, v)
  {
    if b == [] {
      assert a + b == a;
    } else {
      CountAppend(a, b[..|b| - 1], v);
      assert (a + b)[..|a + b| - 1] == a + b[..|b| - 1];
    }
  }

  lemma {:induction false} CountMonotone(s: seq<int>, v: int, w: int)
    requires v <= w
    ensures Count(s, v) <= Count(s, w)
  {
    if s != [] {
      CountMonotone(s[..|s| - 1], v, w);
    }
  }

  lemma CountOne(x: int, v: int)
    ensures Count([x], v) == if x <= v then 1 else 0
  {
    assert [x][..0] == [];
  }

  lemma DropOne(init: seq<int>, a: seq<int>, b: seq<int>, x: int)
    requires multiset(init + [x]) == multiset(a + [x] + b)
    ensures multiset(init) == multiset(a + b)
  {
    assert multiset(init) == multiset(init + [x]) - multiset{x};
    assert multiset(a + b) == multiset(a + [x] + b) - multiset{x};
  }

  lemma {:induction false} CountReordered(s: seq<int>, t: seq<int>, v: int)
    requires multiset(s) == multiset(t)
    ensures Count(s, v) == Count(t, v)
    decreases |s|
  {
    if s == [] {
      assert |t| == |multiset(t)| == |multiset(s)| == 0;
    } else {
      var init, x := s[..|s| - 1], s[|s| - 1];
      assert s == init + [x];
      assert x in multiset(t);
      var j :| 0 <= j < |t| && t[j] == x;
      var a, b := t[..j], t[j + 1..];
      assert t == a + [x] + b;
      DropOne(init, a, b, x);
      CountReordered(init, a + b, v);
      CountAppend(a, b, v);
      CountAppend(a + [x], b, v);
      CountAppend(a, [x], v);
      CountOne(x, v);
    }
  }

  /** In sorted order, k entries are at most `v` exactly when the k-th is. */
  lemma {:induction false} CountSorted(t: seq<int>, k: nat, v: int)
    requires Sorted(t) && 1 <= k <= |t|
    ensures Count(t, v) >= k <==> t[k - 1] <= v
  {
    var init := t[..|t| - 1];
    if k == |t| {
      if t[k - 1] <= v {
        CountAll(t, v);
      }
    } else {
      CountSorted(init, k, v);
    }
  }

  lemma {:induction false} CountAll(t: seq<int>, v: int)
    requires forall i :: 0 <= i < |t| ==> t[i] <= v
    ensures Count(t, v) == |t|
  {
    if t != [] {
      CountAll(t[..|t| - 1], v);
    }
  }

  lemma {:induction false} CountNone(t: seq<int>, v: int)
    requires forall i :: 0 <= i < |t| ==> t[i] > v
    ensures Count(t, v) == 0
  {
    if t != [] {
      CountNone(t[..|t| - 1], v);
    }
  }

  /** Counting and sorting name the same entry, whichever sorted permutation is taken. */
  lemma KthIsSorted(s: seq<int>, t: seq<int>, k: nat, x: int)
    requires multiset(s) == multiset(t) && Sorted(t) && 1 <= k <= |t|
    ensures IsKth(s, k, x) <==> x == t[k - 1]
  {
    CountReordered(s, t, x);
    CountReordered(s, t, x - 1);
    CountSorted(t, k, x);
    CountSorted(t, k, x - 1);
  }
}
