/**
  The latency benchmark: the firmware's running statistics, the host's recomputation of them, and
  percentiles read off a histogram.
 */
module Latency {
  import opened Words
  import opened OrderStatistics

  const HIST: nat := 4096

  // --- running statistics -------------------------------------------------------------------------

  function Total(s: seq<u32>): nat {
    if s == [] then 0 else Total(s[..|s| - 1]) + s[|s| - 1]
  }

  /** The least entry, or the greatest UInt32 when there is none. */
  predicate IsLeast(s: seq<u32>, m: u32) {
    (forall i :: 0 <= i < |s| ==> m <= s[i]) && (if s == [] then m == 0xFFFF_FFFF else m in s)
  }

  /** The greatest entry, or 0 when there is none. */
  predicate IsGreatest(s: seq<u32>, m: u32) {
    (forall i :: 0 <= i < |s| ==> s[i] <= m) && (if s == [] then m == 0 else m in s)
  }

  datatype Stats = Stats(min: u32, max: u32, sum: u32)

  predicate StatsOf(s: seq<u32>, st: Stats) {
    IsLeast(s, st.min) && IsGreatest(s, st.max) && st.sum == Trunc(Total(s))
  }

  lemma LeastStep(s: seq<u32>, m: u32, x: u32)
    requires IsLeast(s, m)
    ensures IsLeast(s + [x], if x < m then x else m)
  {
    var t := s + [x];
    assert t[|s|] == x;
    if s != [] {
      var i :| 0 <= i < |s| && s[i] == m;
      assert t[i] == m;
    }
  }

  lemma GreatestStep(s: seq<u32>, m: u32, x: u32)
    requires IsGreatest(s, m)
    ensures IsGreatest(s + [x], if x > m then x else m)
  {
    var t := s + [x];
    assert t[|s|] == x;
    if s != [] {
      var i :| 0 <= i < |s| && s[i] == m;
      assert t[i] == m;
    }
  }

  lemma TotalStep(s: seq<u32>, x: u32)
    ensures Trunc(Total(s + [x])) == Trunc(Trunc(Total(s)) + x)
  {
    assert (s + [x])[..|s|] == s;
  }

  /** The statistics determine each other: there is one answer. */
  lemma StatsUnique(s: seq<u32>, a: Stats, b: Stats)
    requires StatsOf(s, a) && StatsOf(s, b)
    ensures a == b
  {
    if s != [] {
      var i :| 0 <= i < |s| && s[i] == a.min;
      var j :| 0 <= j < |s| && s[j] == b.min;
      var k :| 0 <= k < |s| && s[k] == a.max;
      var l :| 0 <= l < |s| && s[l] == b.max;
    }
  }

  function Noted(st: Stats, n: u32): Stats {
    Stats(if n < st.min then n else st.min, if n > st.max then n else st.max, Trunc(st.sum + n))
  }

  function Running(s: seq<u32>): Stats {
    if s == [] then Stats(0xFFFF_FFFF, 0, 0) else Noted(Running(s[..|s| - 1]), s[|s| - 1])
  }

  lemma {:induction false} RunningMin(s: seq<u32>)
    ensures IsLeast(s, Running(s).min)
  {
    if s != [] {
      RunningMin(s[..|s| - 1]);
      LeastStep(s[..|s| - 1], Running(s[..|s| - 1]).min, s[|s| - 1]);
      assert s[..|s| - 1] + [s[|s| - 1]] == s;
    }
  }

  lemma {:induction false} RunningMax(s: seq<u32>)
    ensures IsGreatest(s, Running(s).max)
  {
    if s != [] {
      RunningMax(s[..|s| - 1]);
      GreatestStep(s[..|s| - 1], Running(s[..|s| - 1]).max, s[|s| - 1]);
      assert s[..|s| - 1] + [s[|s| - 1]] == s;
    }
  }

  lemma {:induction false} RunningSum(s: seq<u32>)
    ensures Running(s).sum == Trunc(Total(s))
  {
    if s != [] {
      RunningSum(s[..|s| - 1]);
      TotalStep(s[..|s| - 1], s[|s| - 1]);
      assert s[..|s| - 1] + [s[|s| - 1]] == s;
    }
  }

  /** Updating three words count by count gives the statistics of the whole run. */
  lemma RunningIsStats(s: seq<u32>)
    ensures StatsOf(s, Running(s))
  {
    RunningMin(s);
    RunningMax(s);
    RunningSum(s);
  }

  lemma RunningStep(s: seq<u32>, i: nat)
    requires i < |s|
    ensures Running(s[..i + 1]) == Noted(Running(s[..i]), s[i])
  {
    assert s[..i + 1][..i] == s[..i];
  }

  /** One more count in the running statistics. */
  method Note(st: Stats, n: u32) returns (r: Stats)
    ensures r == Noted(st, n)
  {
    var mn, mx := st.min, st.max;
    if n < mn {
      mn := n;
    }
    if n > mx {
      mx := n;
    }
    r := Stats(mn, mx, Trunc(st.sum + n));
  }

  const SPINS: nat := 1_000_000

  /** What follows a rising edge: polls in vain until the interrupt, then until the word, and the count. */
  datatype Reply = Reply(irqAfter: nat, wordAfter: nat, count: u32) {
    predicate InTime() { irqAfter <= 1_000_000 && wordAfter <= 1_000_000 }

    /** The code that `fail` reports. */
    function Code(): u32 {
      if irqAfter > SPINS then 1 else if wordAfter > SPINS then 2 else 0
    }
  }

  function Counts(replies: seq<Reply>): (s: seq<u32>)
    ensures |s| == |replies|
  {
    seq(|replies|, i requires 0 <= i < |replies| => replies[i].count)
  }

  predicate AllInTime(replies: seq<Reply>) {
    forall i :: 0 <= i < |replies| ==> replies[i].InTime()
  }

  /** Of the first reply that is late: 1 says that its interrupt was, 2 that only its word was. */
  ghost predicate FirstLate(replies: seq<Reply>, code: u32) {
    exists i :: 0 <= i < |replies| && AllInTime(replies[..i]) &&
      ((code == 1 && replies[i].irqAfter > 1_000_000)
       || (code == 2 && replies[i].irqAfter <= 1_000_000 && replies[i].wordAfter > 1_000_000))
  }

  /** The polling loops: up to a million polls in vain are allowed. */
  method Spin(after: nat) returns (ok: bool)
    ensures ok <==> after <= SPINS
  {
    var spins := 0;
    while spins < after
      invariant spins <= after && spins <= SPINS
    {
      spins := spins + 1;
      if spins > SPINS {
        return false;
      }
    }
    return true;
  }

  method Await(p: Reply) returns (code: u32)
    ensures code == p.Code() && (code == 0 <==> p.InTime())
  {
    var irq := Spin(p.irqAfter);
    if !irq {
      return 1;
    }
    var word := Spin(p.wordAfter);
    code := if word then 0 else 2;
  }

  /**
    The measurement loop of the firmware, on the replies of the interrupt and the stopwatch: `replies[r][i]` for
    interrupt `i` of run `r`. The samples of the last run are stored. It stops at the first late reply.
   */
  method Measure(replies: seq<seq<Reply>>, n: nat, samples: array<u32>)
    returns (code: u32, stats: seq<Stats>, total: u32, first: Option<u32>)
    requires n <= samples.Length
    requires forall r :: 0 <= r < |replies| ==> |replies[r]| == n
    modifies samples
    ensures code == 0 <==> forall r :: 0 <= r < |replies| ==> AllInTime(replies[r])
    ensures code != 0 ==> exists r :: 0 <= r < |replies| && r == |stats| && FirstLate(replies[r], code)
                                  && forall k :: 0 <= k < r ==> AllInTime(replies[k])
    ensures code == 0 ==> |stats| == |replies|
    ensures |stats| <= |replies| && forall r :: 0 <= r < |stats| ==> stats[r] == Running(Counts(replies[r]))
    ensures code == 0 ==> total == Trunc(|replies| * n)
    ensures code == 0 && replies != [] ==> samples[..n] == Counts(replies[|replies| - 1])
    ensures replies != [] && n > 0 && replies[0][0].InTime() ==> first == Some(replies[0][0].count)
  {
    code, stats, total, first := 0, [], 0, None;
    for r := 0 to |replies|
      invariant code == 0 && |stats| == r && forall k :: 0 <= k < r ==> stats[k] == Running(Counts(replies[k]))
      invariant forall k :: 0 <= k < r ==> AllInTime(replies[k])
      invariant total == Trunc(r * n)
      invariant r == |replies| > 0 ==> samples[..n] == Counts(replies[|replies| - 1])
      invariant r > 0 && n > 0 ==> first == Some(replies[0][0].count)
    {
      var st, head;
      code, st, total, head := MeasureRun(replies[r], r == |replies| - 1, samples, total);
      if r == 0 {
        first := head;
      }
      if code != 0 {
        return;
      }
      OneMoreRun(r, n);
      stats := stats + [st];
    }
  }

  lemma OneMoreRun(r: nat, n: nat)
    ensures Trunc(Trunc(r * n) + n) == Trunc((r + 1) * n)
  {
    assert (r + 1) * n == r * n + n;
  }

  lemma TruncNext(a: int, i: int)
    ensures Trunc(Trunc(a + i) + 1) == Trunc(a + (i + 1))
  {}

  /** One run. */
  method MeasureRun(replies: seq<Reply>, last: bool, samples: array<u32>, total0: u32)
    returns (code: u32, st: Stats, total: u32, first: Option<u32>)
    requires |replies| <= samples.Length
    modifies samples
    ensures code == 0 <==> AllInTime(replies)
    ensures code != 0 ==> FirstLate(replies, code)
    ensures code == 0 ==> st == Running(Counts(replies)) && total == Trunc(total0 + |replies|)
    ensures code == 0 && last ==> samples[..|replies|] == Counts(replies)
    ensures first == if replies != [] && replies[0].InTime() then Some(replies[0].count) else None
  {
    ghost var counts := Counts(replies);
    code, st, total, first := 0, Stats(0xFFFF_FFFF, 0, 0), total0, None;
    for i := 0 to |replies|
      invariant code == 0 && AllInTime(replies[..i])
      invariant st == Running(counts[..i])
      invariant total == Trunc(total0 + i)
      invariant last ==> forall k :: 0 <= k < i ==> samples[k] == counts[k]
      invariant first == if i > 0 then Some(replies[0].count) else None
      invariant i > 0 ==> replies[0].InTime()
    {
      TruncNext(total0, i);
      total := Trunc(total + 1);
      code := Await(replies[i]);
      if code != 0 {
        return;
      }
      var n := replies[i].count;
      st := Note(st, n);
      RunningStep(counts, i);
      if last {
        samples[i] := n;
      }
      if i == 0 {
        first := Some(n);
      }
      assert replies[..i + 1] == replies[..i] + [replies[i]];
    }
    assert counts[..|counts|] == counts && replies[..|replies|] == replies;
  }

  // --- the host -----------------------------------------------------------------------------------

  function Bin(s: int): int {
    if s < HIST then s else HIST - 1
  }

  function Bins(samples: seq<u32>): (b: seq<int>)
    ensures |b| == |samples|
  {
    seq(|samples|, i requires 0 <= i < |samples| => Bin(samples[i]))
  }

  /** The entries equal to `b`. */
  function Equal(s: seq<int>, b: int): int {
    Count(s, b) - Count(s, b - 1)
  }

  lemma BinsStep(s: seq<u32>, x: u32)
    ensures Bins(s + [x]) == Bins(s) + [Bin(x)]
  {}

  lemma EqualStep(s: seq<int>, x: int, b: int)
    ensures Equal(s + [x], b) == Equal(s, b) + if x == b then 1 else 0
  {
    assert (s + [x])[..|s|] == s;
  }

  lemma BinsRange(samples: seq<u32>)
    ensures Count(Bins(samples), -1) == 0
    ensures Count(Bins(samples), HIST - 1) == |samples|
  {
    CountNone(Bins(samples), -1);
    CountAll(Bins(samples), HIST - 1);
  }

  lemma EqualBound(s: seq<int>, b: int)
    ensures 0 <= Equal(s, b) <= |s|
  {
    CountMonotone(s, b - 1, b);
  }

  lemma HistogramStep(samples: seq<u32>, s: u32)
    ensures forall b :: Equal(Bins(samples + [s]), b) == Equal(Bins(samples), b) + if b == Bin(s) then 1 else 0
  {
    BinsStep(samples, s);
    forall b
      ensures Equal(Bins(samples + [s]), b) == Equal(Bins(samples), b) + if b == Bin(s) then 1 else 0
    {
      EqualStep(Bins(samples), Bin(s), b);
    }
  }

  ghost predicate IsHistogram(hist: array<u32>, samples: seq<u32>)
    reads hist
    requires hist.Length == HIST
  {
    forall b :: 0 <= b < HIST ==> hist[b] == Equal(Bins(samples), b)
  }

  /** One sample into its bin. */
  method Drop(hist: array<u32>, s: u32, ghost before: seq<u32>)
    requires hist.Length == HIST && IsHistogram(hist, before) && |before| < W32 - 1
    modifies hist
    ensures IsHistogram(hist, before + [s])
  {
    HistogramStep(before, s);
    EqualBound(Bins(before), Bin(s));
    var b := if s < HIST then s else HIST - 1;
    hist[b] := hist[b] + 1;
  }

  /** The host reads the samples back: statistics again, and the histogram. */
  method Tally(samples: seq<u32>, hist: array<u32>) returns (st: Stats)
    requires hist.Length == HIST && |samples| < W32
    requires forall b :: 0 <= b < HIST ==> hist[b] == 0
    modifies hist
    ensures st == Running(samples)
    ensures IsHistogram(hist, samples)
  {
    st := Stats(0xFFFF_FFFF, 0, 0);
    for i := 0 to |samples|
      invariant st == Running(samples[..i])
      invariant IsHistogram(hist, samples[..i])
    {
      st := Note(st, samples[i]);
      RunningStep(samples, i);
      Drop(hist, samples[i], samples[..i]);
      assert samples[..i + 1] == samples[..i] + [samples[i]];
    }
    assert samples[..|samples|] == samples;
  }

  /** `acc * unit >= n * share`: the rank of the percentile is reached. */
  function Rank(n: nat, share: nat, unit: nat): int
    requires unit > 0
  {
    (n * share + unit - 1) / unit
  }

  lemma RankReached(acc: int, n: nat, share: nat, unit: nat)
    requires unit > 0
    ensures acc * unit >= n * share <==> acc >= Rank(n, share, unit)
  {
    var k := Rank(n, share, unit);
    assert k * unit >= n * share > (k - 1) * unit;
    if acc >= k {
      MulMonotone(k, acc, unit);
    } else {
      MulMonotone(acc, k - 1, unit);
    }
  }

  lemma MulMonotone(a: int, b: int, c: nat)
    requires a <= b
    ensures a * c <= b * c
  {}

  lemma {:induction false} BinsCount(s: seq<u32>, v: int)
    requires v < HIST - 1
    ensures Count(Bins(s), v) == Count(s, v)
  {
    if s != [] {
      var init := s[..|s| - 1];
      BinsCount(init, v);
      assert Bins(s)[..|s| - 1] == Bins(init);
    }
  }

  /** Binning commutes with taking the k-th smallest. */
  lemma BinsKth(s: seq<u32>, k: nat, x: int)
    requires IsKth(s, k, x)
    ensures IsKth(Bins(s), k, Bin(x))
  {
    BinsRange(s);
    if x < HIST - 1 {
      BinsCount(s, x);
      BinsCount(s, x - 1);
    } else {
      BinsCount(s, HIST - 2);
      CountMonotone(s, HIST - 2, x - 1);
    }
  }

  lemma RanksInOrder(n: nat)
    requires n >= 1
    ensures 1 <= Rank(n, 50, 100) <= Rank(n, 99, 100) <= Rank(n, 999, 1000) <= n
  {}

  /** `acc * unit >= n * share`: has the count reached rank `k`? */
  method AtRank(acc: int, n: nat, share: nat, unit: nat, ghost k: int) returns (r: bool)
    requires unit > 0 && k == Rank(n, share, unit)
    ensures r <==> acc >= k
  {
    RankReached(acc, n, share, unit);
    r := acc * unit >= n * share;
  }

  /** The ranks of the three percentiles. */
  ghost predicate Ranks(n: nat, k50: int, k99: int, k999: int) {
    && k50 == Rank(n, 50, 100) && k99 == Rank(n, 99, 100) && k999 == Rank(n, 999, 1000)
    && 1 <= k50 <= k99 <= k999 <= n
  }

  method ReachRanks(acc: int, n: nat, ghost k50: int, ghost k99: int, ghost k999: int)
    returns (at50: bool, at99: bool, at999: bool)
    requires Ranks(n, k50, k99, k999)
    ensures (at50 <==> acc >= k50) && (at99 <==> acc >= k99) && (at999 <==> acc >= k999)
  {
    at50 := AtRank(acc, n, 50, 100, k50);
    at99 := AtRank(acc, n, 99, 100, k99);
    at999 := AtRank(acc, n, 999, 1000, k999);
  }

  /** The walk over the histogram, which stops as soon as the last percentile is known. */
  method Walk(hist: array<u32>, n: nat, ghost bins: seq<int>) returns (p50: u32, p99: u32, p999: u32)
    requires hist.Length == HIST && n >= 1
    requires forall b :: 0 <= b < HIST ==> hist[b] == Equal(bins, b)
    requires Count(bins, -1) == 0 && Count(bins, HIST - 1) == n
    ensures IsKth(bins, Rank(n, 50, 100), p50)
    ensures IsKth(bins, Rank(n, 99, 100), p99)
    ensures IsKth(bins, Rank(n, 999, 1000), p999)
  {
    RanksInOrder(n);
    p50, p99, p999 := WalkTo(hist, n, bins, Rank(n, 50, 100), Rank(n, 99, 100), Rank(n, 999, 1000));
  }

  method WalkTo(hist: array<u32>, n: nat, ghost bins: seq<int>, ghost k50: int, ghost k99: int, ghost k999: int)
    returns (p50: u32, p99: u32, p999: u32)
    requires hist.Length == HIST && Ranks(n, k50, k99, k999)
    requires forall b :: 0 <= b < HIST ==> hist[b] == Equal(bins, b)
    requires Count(bins, -1) == 0 && Count(bins, HIST - 1) == n
    ensures IsKth(bins, k50, p50) && IsKth(bins, k99, p99) && IsKth(bins, k999, p999)
  {
    p50, p99, p999 := 0, 0, 0;
    var acc, got50, got99 := 0, false, false;
    for b := 0 to HIST
      invariant acc == Count(bins, b - 1) < k999
      invariant got50 <==> acc >= k50
      invariant got99 <==> acc >= k99
      invariant got50 ==> IsKth(bins, k50, p50)
      invariant got99 ==> IsKth(bins, k99, p99)
    {
      acc := acc + hist[b];
      CountMonotone(bins, b - 1, b);
      var at50, at99, at999 := ReachRanks(acc, n, k50, k99, k999);
      if !got50 && at50 {
        p50 := b;
        got50 := true;
      }
      if !got99 && at99 {
        p99 := b;
        got99 := true;
      }
      if at999 {
        p999 := b;
        break;
      }
    }
  }

  /**
    The percentile the host reports: the first of the sorted samples with which `share` parts in `unit` of
    them are reached, or 4095 if that is larger.
   */
  predicate IsPercentile(sorted: seq<u32>, share: nat, unit: nat, p: u32) {
    exists i :: 0 <= i < |sorted| && i * unit < |sorted| * share <= (i + 1) * unit
                && p == if sorted[i] < 4095 then sorted[i] else 4095
  }

  lemma RankIs(n: nat, share: nat, unit: nat)
    requires unit > 0
    ensures (Rank(n, share, unit) - 1) * unit < n * share <= Rank(n, share, unit) * unit
  {}

  lemma PercentileIs(samples: seq<u32>, sorted: seq<u32>, share: nat, unit: nat, p: u32)
    requires unit > 0 && 1 <= Rank(|samples|, share, unit) <= |samples|
    requires multiset(sorted) == multiset(samples) && Sorted(sorted)
    requires IsKth(Bins(samples), Rank(|samples|, share, unit), p)
    ensures IsPercentile(sorted, share, unit, p)
  {
    var k := Rank(|samples|, share, unit);
    assert |sorted| == |multiset(sorted)| == |multiset(samples)| == |samples|;
    KthIsSorted(samples, sorted, k, sorted[k - 1]);
    BinsKth(samples, k, sorted[k - 1]);
    KthUnique(Bins(samples), k, p, Bin(sorted[k - 1]));
    RankIs(|samples|, share, unit);
  }

  lemma KthUnique(s: seq<int>, k: int, x: int, y: int)
    requires IsKth(s, k, x) && IsKth(s, k, y)
    ensures x == y
  {
    if x < y {
      CountMonotone(s, x, y - 1);
    } else if y < x {
      CountMonotone(s, y, x - 1);
    }
  }

  /**
    The host's evaluation of the last run: it accepts exactly the firmware's true statistics, and its
    percentiles are order statistics of the samples, clamped to the last bin.
   */
  method Evaluate(samples: seq<u32>, head: Stats, hist: array<u32>, ghost sorted: seq<u32>)
    returns (ok: bool, p50: u32, p99: u32, p999: u32)
    requires 1 <= |samples| < W32 && hist.Length == HIST
    requires forall b :: 0 <= b < HIST ==> hist[b] == 0
    requires multiset(sorted) == multiset(samples) && Sorted(sorted)
    modifies hist
    ensures ok <==> StatsOf(samples, head)
    ensures ok ==> IsPercentile(sorted, 50, 100, p50)
    ensures ok ==> IsPercentile(sorted, 99, 100, p99)
    ensures ok ==> IsPercentile(sorted, 999, 1000, p999)
  {
    var st := Tally(samples, hist);
    RunningIsStats(samples);
    if st != head {
      if StatsOf(samples, head) {
        StatsUnique(samples, st, head);
      }
      return false, 0, 0, 0;
    }
    ok := true;
    BinsRange(samples);
    RanksInOrder(|samples|);
    p50, p99, p999 := Walk(hist, |samples|, Bins(samples));
    PercentileIs(samples, sorted, 50, 100, p50);
    PercentileIs(samples, sorted, 99, 100, p99);
    PercentileIs(samples, sorted, 999, 1000, p999);
  }

  const W64: nat := 0x1_0000_0000_0000_0000

  type u64 = x: int | 0 <= x < 0x1_0000_0000_0000_0000

  /** The numerator of `avg_ns_x10`, without bound. */
  function TenthsTimesN(sum: nat, n: nat): nat {
    (2 * sum + 2 * n) * 8 * 10 + n / 2
  }

  /** `avg_ns_x10`, in UInt64 arithmetic. */
  function AvgNsX10(sum: u64, n: u64): int
    requires n > 0
  {
    TenthsTimesN(sum, n) % W64 / n
  }

  /** `r` is `80 * (2 * sum + 2 * n) / n` to the nearest integer. */
  predicate IsNearest(sum: nat, n: nat, r: int) {
    && 2 * (r * n - 80 * (2 * sum + 2 * n)) <= n
    && 2 * (80 * (2 * sum + 2 * n) - r * n) <= n
  }

  /** The mean in tenths of a nanosecond is rounded to nearest exactly when its numerator fits 64 bits. */
  lemma AvgExactly(sum: u64, n: u64)
    requires n > 0
    ensures IsNearest(sum, n, AvgNsX10(sum, n)) <==> TenthsTimesN(sum, n) < 0x1_0000_0000_0000_0000
  {
    var t := TenthsTimesN(sum, n);
    var u := t % W64;
    var r := AvgNsX10(sum, n);
    DivLeaves(u, n);
    if t < W64 {
      assert u == t;
    } else {
      WrapDrops(t);
    }
  }

  lemma DivLeaves(u: nat, n: nat)
    requires n > 0
    ensures 0 <= u - u / n * n < n
  {}

  lemma WrapDrops(t: nat)
    requires t >= W64
    ensures t % W64 <= t - W64
  {}
}
