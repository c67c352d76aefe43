/**
  Waiting on the free-running microsecond timer. The program reads its low 32 bits; `at` holds the true
  time of each reading, so that a schedule of readings is any non-decreasing sequence.
 */
module Time {
  import opened Words

  /** Time never runs backwards, and two readings in a row are at most `gap` apart. */
  predicate Polled(at: seq<nat>, gap: nat) {
    forall i :: 0 < i < |at| ==> at[i - 1] <= at[i] <= at[i - 1] + gap
  }

  predicate Reached(at: seq<nat>, from: nat, us: u32, k: nat)
    requires from < |at| && k < |at|
  {
    at[k] - at[from] >= us
  }

  /** The modular test of the loop. */
  predicate SeemsReached(at: seq<nat>, from: nat, us: u32, k: nat)
    requires from < |at| && k < |at|
  {
    Sub32(Trunc(at[k]), Trunc(at[from])) >= us
  }

  /** The first reading from `k` on at which the time since reading `from` is at least `us`. */
  function FirstReached(at: seq<nat>, from: nat, us: u32, k: nat): (r: Option<nat>)
    requires from < |at|
    ensures r.Some? ==> k <= r.value < |at| && Reached(at, from, us, r.value)
    ensures forall j :: k <= j < (if r.Some? then r.value else |at|) ==> !Reached(at, from, us, j)
    decreases |at| - k
  {
    if k >= |at| then None else if Reached(at, from, us, k) then Some(k) else FirstReached(at, from, us, k + 1)
  }

  /** The same for the test the program makes. */
  function FirstSeeming(at: seq<nat>, from: nat, us: u32, k: nat): (r: Option<nat>)
    requires from < |at|
    ensures r.Some? ==> k <= r.value < |at| && SeemsReached(at, from, us, r.value)
    decreases |at| - k
  {
    if k >= |at| then None else if SeemsReached(at, from, us, k) then Some(k) else FirstSeeming(at, from, us, k + 1)
  }

  lemma {:induction false} NonDecreasing(at: seq<nat>, gap: nat, i: nat, j: nat)
    requires Polled(at, gap) && i <= j < |at|
    ensures at[i] <= at[j]
    decreases j
  {
    if i < j {
      NonDecreasing(at, gap, i, j - 1);
    }
  }

  /** The wait never ends early, however the readings fall. */
  lemma NeverEarly(at: seq<nat>, gap: nat, from: nat, us: u32, k: nat)
    requires Polled(at, gap) && from <= k < |at| && SeemsReached(at, from, us, k)
    ensures Reached(at, from, us, k)
  {
    NonDecreasing(at, gap, from, k);
    Elapsed(at[from], at[k]);
  }

  /** And it ends at the first reading at which it should, when no gap is longer than 2^32 - us. */
  lemma {:induction false} EndsOnTime(at: seq<nat>, gap: nat, from: nat, us: u32, k: nat)
    requires Polled(at, gap) && gap <= W32 - us && from < k && from < |at|
    requires k < |at| ==> at[k - 1] - at[from] <= us
    requires k < |at| && k > from + 1 ==> at[k - 1] - at[from] < us
    ensures us > 0 ==> FirstSeeming(at, from, us, k) == FirstReached(at, from, us, k)
    decreases |at| - k
  {
    if us > 0 && k < |at| {
      NonDecreasing(at, gap, from, k);
      NonDecreasing(at, gap, from, k - 1);
      Elapsed(at[from], at[k]);
      if !Reached(at, from, us, k) {
        EndsOnTime(at, gap, from, us, k + 1);
      }
    }
  }

  /** A longer gap can hide the end of the wait: the bound is exact. */
  lemma GapExactly(us: u32, gap: nat)
    requires us > 0
    ensures gap <= W32 - us <==>
      forall at: seq<nat> :: |at| > 0 && Polled(at, gap) ==> FirstSeeming(at, 0, us, 1) == FirstReached(at, 0, us, 1)
  {
    if gap <= W32 - us {
      forall at: seq<nat> | |at| > 0 && Polled(at, gap)
        ensures FirstSeeming(at, 0, us, 1) == FirstReached(at, 0, us, 1)
      {
        EndsOnTime(at, gap, 0, us, 1);
      }
    } else {
      MissedTurn(us, gap);
    }
  }

  lemma MissedTurn(us: u32, gap: nat)
    requires us > 0 && gap > W32 - us
    ensures exists at: seq<nat> ::
      |at| > 0 && Polled(at, gap) && FirstSeeming(at, 0, us, 1) != FirstReached(at, 0, us, 1)
  {
    var at: seq<nat> := if us - 1 <= gap then [0, us - 1, W32] else Climb(us - 1) + [W32];
    if us - 1 > gap {
      ClimbIs(us - 1);
    }
    var last := |at| - 1;
    assert at[last] == W32 && at[0] == 0;
    assert Reached(at, 0, us, last) && !SeemsReached(at, 0, us, last);
    assert forall j :: 1 <= j < last ==> !Reached(at, 0, us, j);
    assert FirstReached(at, 0, us, 1) == Some(last);
    assert Polled(at, gap);
  }

  /** A reading every microsecond. */
  function Climb(n: nat): (s: seq<nat>) {
    seq(n + 1, i requires 0 <= i <= n => i)
  }

  lemma ClimbIs(n: nat)
    ensures |Climb(n)| == n + 1 && forall i :: 0 <= i <= n ==> Climb(n)[i] == i
  {}

  // --- the program --------------------------------------------------------------------------------

  /** The timer, and the readings the program will get. */
  class Timer {
    const at: seq<nat>
    var next: nat

    constructor (at: seq<nat>)
      ensures this.at == at && next == 0
    {
      this.at := at;
      next := 0;
    }

    /** `time_us`. */
    method TimeUs() returns (t: u32)
      requires next < |at|
      modifies this
      ensures t == Trunc(at[old(next)]) && next == old(next) + 1
    {
      t := Trunc(at[next]);
      next := next + 1;
    }

    /** `sleep_us`, as far as the readings go. */
    method SleepUs(us: u32) returns (done: bool)
      requires next < |at|
      modifies this
      ensures done <==> FirstSeeming(at, old(next), us, old(next) + 1).Some?
      ensures done ==> next == FirstSeeming(at, old(next), us, old(next) + 1).value + 1
      ensures !done ==> next == |at|
    {
      ghost var from := next;
      var start := TimeUs();
      while next < |at|
        invariant from < next <= |at|
        invariant FirstSeeming(at, from, us, next) == FirstSeeming(at, from, us, from + 1)
      {
        var t := TimeUs();
        if Sub32(t, start) >= us {
          return true;
        }
      }
      return false;
    }

    /** With short enough gaps the wait ends at the first reading at least `us` after its start. */
    method SleepExactly(us: u32, ghost gap: nat) returns (done: bool)
      requires next < |at| && Polled(at, gap) && gap <= W32 - us
      modifies this
      ensures done <==> FirstReached(at, old(next), us, old(next) + 1).Some?
      ensures done ==> next == FirstReached(at, old(next), us, old(next) + 1).value + 1
    {
      ghost var from := next;
      done := SleepUs(us);
      if us > 0 {
        EndsOnTime(at, gap, from, us, from + 1);
      } else {
        NoWait(at, gap, from);
      }
    }
  }

  lemma NoWait(at: seq<nat>, gap: nat, from: nat)
    requires Polled(at, gap) && from < |at|
    ensures FirstSeeming(at, from, 0, from + 1) == FirstReached(at, from, 0, from + 1)
  {
    if from + 1 < |at| {
      NonDecreasing(at, gap, from, from + 1);
      assert Reached(at, from, 0, from + 1);
    }
  }

  /** `sleep_ms` multiplies in UInt32: it asks for the right time up to 4294967 ms and for less beyond. */
  lemma SleepMsExactly(ms: u32)
    ensures Trunc(ms * 1000) == ms * 1000 <==> ms <= 4_294_967
    ensures ms > 4_294_967 ==> Trunc(ms * 1000) < ms * 1000
  {
    if ms <= 4_294_967 {
      assert ms * 1000 < W32;
    } else {
      assert Trunc(ms * 1000) < W32 <= ms * 1000;
    }
  }
}
