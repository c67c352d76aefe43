/**
  Shift registers with feedback, whatever their words are: what the CRC of the boot block and its
  mirror image have in common. Nothing here depends on the width or on the polynomial.
 */
module ShiftRegister {

  /**
    `top` is the bit that leaves next, `feed` shifts with or without the feedback tap, `xor` adds a word
    in, and `double` is the plain shift of a word that is being fed in.
   */
  datatype Ops<!T> = Ops(top: T -> bool, feed: (T, bool) -> T, xor: (T, T) -> T, double: T -> T)

  function Shift<T>(o: Ops<T>, c: T): T {
    o.feed(c, o.top(c))
  }

  function Shifts<T>(o: Ops<T>, c: T, n: nat): T {
    if n == 0 then c else Shift(o, Shifts(o, c, n - 1))
  }

  /** One message bit: there is a tap if it differs from the bit that leaves. */
  function AddBit<T>(o: Ops<T>, c: T, bit: bool): T {
    o.feed(c, o.top(c) != bit)
  }

  function AddBits<T>(o: Ops<T>, c: T, bits: seq<bool>): T
    decreases |bits|
  {
    if bits == [] then c else AddBits(o, AddBit(o, c, bits[0]), bits[1..])
  }

  /** The first `n` bits that leave a word. */
  function TopBits<T>(o: Ops<T>, w: T, n: nat): (bits: seq<bool>)
    ensures |bits| == n
    decreases n
  {
    if n == 0 then [] else [o.top(w)] + TopBits(o, o.double(w), n - 1)
  }

  function Doubled<T>(o: Ops<T>, w: T, n: nat): T
    decreases n
  {
    if n == 0 then w else Doubled(o, o.double(w), n - 1)
  }

  ghost predicate Linear<T(!new)>(o: Ops<T>) {
    && (forall c, w :: o.top(o.xor(c, w)) == (o.top(c) != o.top(w)))
    && (forall c, w, tap :: o.feed(o.xor(c, w), tap) == o.xor(o.feed(c, tap), o.double(w)))
  }

  lemma {:induction false} ShiftsFirst<T>(o: Ops<T>, c: T, n: nat)
    ensures Shifts(o, c, n + 1) == Shifts(o, Shift(o, c), n)
  {
    if n > 0 {
      ShiftsFirst(o, c, n - 1);
    }
  }

  /** A word that is xored in whole enters bit by bit; the bits that have not entered yet stay on top. */
  lemma {:induction false} ShiftsAreBits<T(!new)>(o: Ops<T>, c: T, w: T, n: nat)
    requires Linear(o)
    ensures Shifts(o, o.xor(c, w), n) == o.xor(AddBits(o, c, TopBits(o, w, n)), Doubled(o, w, n))
    decreases n
  {
    if n > 0 {
      ShiftsFirst(o, o.xor(c, w), n - 1);
      assert Shift(o, o.xor(c, w)) == o.xor(AddBit(o, c, o.top(w)), o.double(w));
      ShiftsAreBits(o, AddBit(o, c, o.top(w)), o.double(w), n - 1);
      assert TopBits(o, w, n)[1..] == TopBits(o, o.double(w), n - 1);
    }
  }

  /** A word with `n` clear bits on top is only shifted along. */
  lemma {:induction false} QuietShifts<T(!new)>(o: Ops<T>, c: T, w: T, n: nat)
    requires Linear(o)
    requires forall k: nat :: k < n ==> !o.top(Doubled(o, w, k))
    ensures Shifts(o, o.xor(c, w), n) == o.xor(Shifts(o, c, n), Doubled(o, w, n))
    decreases n
  {
    if n > 0 {
      ShiftsFirst(o, o.xor(c, w), n - 1);
      ShiftsFirst(o, c, n - 1);
      assert !o.top(Doubled(o, w, 0));
      assert (o.top(c) != o.top(w)) == o.top(c);
      forall k: nat | k < n - 1
        ensures !o.top(Doubled(o, o.double(w), k))
      {
        assert !o.top(Doubled(o, w, k + 1));
      }
      QuietShifts(o, Shift(o, c), o.double(w), n - 1);
    }
  }

  lemma {:induction false} AddBitsAppend<T>(o: Ops<T>, c: T, a: seq<bool>, b: seq<bool>)
    ensures AddBits(o, c, a + b) == AddBits(o, AddBits(o, c, a), b)
    decreases |a|
  {
    if a == [] {
      assert a + b == b;
    } else {
      AddBitsAppend(o, AddBit(o, c, a[0]), a[1..], b);
      assert (a + b)[1..] == a[1..] + b;
    }
  }

  // --- burst errors -------------------------------------------------------------------------------

  /**
    `apart(k, a, b)` says that two registers differ in one of `k` places. A bit that differs sets them
    apart in one place, each further step in one more up to `width`, and no step makes them equal.
   */
  ghost predicate Separates<T(!new)>(o: Ops<T>, apart: (nat, T, T) -> bool, width: nat) {
    && (forall c, x :: apart(1, AddBit(o, c, x), AddBit(o, c, !x)))
    && (forall k: nat, a, b, x, y :: k < width && apart(k, a, b) ==> apart(k + 1, AddBit(o, a, x), AddBit(o, b, y)))
    && (forall k: nat, a, b :: apart(k, a, b) ==> a != b)
    && (forall a, b, x :: a != b ==> AddBit(o, a, x) != AddBit(o, b, x))
  }

  lemma {:induction false} TailKeepsApart<T(!new)>(o: Ops<T>, apart: (nat, T, T) -> bool, width: nat,
                                                   a: T, b: T, tail: seq<bool>)
    requires Separates(o, apart, width) && a != b
    ensures AddBits(o, a, tail) != AddBits(o, b, tail)
    decreases |tail|
  {
    if tail != [] {
      TailKeepsApart(o, apart, width, AddBit(o, a, tail[0]), AddBit(o, b, tail[0]), tail[1..]);
    }
  }

  lemma {:induction false} ShiftsKeepApart<T(!new)>(o: Ops<T>, apart: (nat, T, T) -> bool, width: nat, a: T, b: T, n: nat)
    requires Separates(o, apart, width) && a != b
    ensures Shifts(o, a, n) != Shifts(o, b, n)
  {
    if n > 0 {
      ShiftsKeepApart(o, apart, width, a, b, n - 1);
      assert AddBit(o, Shifts(o, a, n - 1), false) != AddBit(o, Shifts(o, b, n - 1), false);
      PlainShift(o, Shifts(o, a, n - 1));
      PlainShift(o, Shifts(o, b, n - 1));
    }
  }

  lemma PlainShift<T>(o: Ops<T>, c: T)
    ensures Shift(o, c) == AddBit(o, c, false)
  {
    assert (o.top(c) != false) == o.top(c);
  }

  /** Registers that are `k` places apart survive `width - k` further bits, equal or not. */
  lemma {:induction false} BurstKeepsApart<T(!new)>(o: Ops<T>, apart: (nat, T, T) -> bool, width: nat, k: nat,
                                                    a: T, b: T, x: seq<bool>, y: seq<bool>)
    requires Separates(o, apart, width) && apart(k, a, b)
    requires |x| == |y| && k + |x| <= width
    ensures AddBits(o, a, x) != AddBits(o, b, y)
    decreases |x|
  {
    if x != [] {
      BurstKeepsApart(o, apart, width, k + 1, AddBit(o, a, x[0]), AddBit(o, b, y[0]), x[1..], y[1..]);
    }
  }

  /** `tail(n, a, b)` holds of any two registers that come from one by `n` bits each, up to `width`. */
  ghost predicate Tails<T(!new)>(o: Ops<T>, tail: (nat, T, T) -> bool, width: nat) {
    && (forall c :: tail(0, c, c))
    && (forall n: nat, a, b, x, y :: n < width && tail(n, a, b) ==> tail(n + 1, AddBit(o, a, x), AddBit(o, b, y)))
  }

  lemma {:induction false} TailsAfter<T(!new)>(o: Ops<T>, tail: (nat, T, T) -> bool, width: nat, n: nat,
                                               a: T, b: T, x: seq<bool>, y: seq<bool>)
    requires Tails(o, tail, width) && tail(n, a, b)
    requires |x| == |y| && n + |x| <= width
    ensures tail(n + |x|, AddBits(o, a, x), AddBits(o, b, y))
    decreases |x|
  {
    if x != [] {
      TailsAfter(o, tail, width, n + 1, AddBit(o, a, x[0]), AddBit(o, b, y[0]), x[1..], y[1..]);
    }
  }

  /** Two different bursts of at most `width` bits leave different registers. */
  lemma {:induction false} BurstShows<T(!new)>(o: Ops<T>, apart: (nat, T, T) -> bool, width: nat,
                                               c: T, x: seq<bool>, y: seq<bool>)
    requires Separates(o, apart, width)
    requires |x| == |y| <= width && x != y
    ensures AddBits(o, c, x) != AddBits(o, c, y)
    decreases |x|
  {
    if x[0] == y[0] {
      assert x[1..] != y[1..] by {
        assert x == [x[0]] + x[1..] && y == [y[0]] + y[1..];
      }
      BurstShows(o, apart, width, AddBit(o, c, x[0]), x[1..], y[1..]);
    } else {
      assert y[0] == !x[0];
      BurstKeepsApart(o, apart, width, 1, AddBit(o, c, x[0]), AddBit(o, c, y[0]), x[1..], y[1..]);
    }
  }

  /** Messages that differ, and only inside `width` consecutive bits, leave different registers. */
  lemma BurstDetected<T(!new)>(o: Ops<T>, apart: (nat, T, T) -> bool, width: nat,
                               c: T, x: seq<bool>, y: seq<bool>, from: nat)
    requires Separates(o, apart, width)
    requires |x| == |y| && x != y
    requires forall i :: 0 <= i < |x| && !(from <= i < from + width) ==> x[i] == y[i]
    ensures AddBits(o, c, x) != AddBits(o, c, y)
  {
    var lo := if from <= |x| then from else |x|;
    var hi := if from + width <= |x| then from + width else |x|;
    InThree(x, lo, hi);
    InThree(y, lo, hi);
    assert x[..lo] == y[..lo] && x[hi..] == y[hi..];
    var start := AddBits(o, c, x[..lo]);
    AddInThree(o, c, x, lo, hi);
    AddInThree(o, c, y, lo, hi);
    BurstShows(o, apart, width, start, x[lo..hi], y[lo..hi]);
    TailKeepsApart(o, apart, width, AddBits(o, start, x[lo..hi]), AddBits(o, start, y[lo..hi]), x[hi..]);
  }

  lemma InThree(x: seq<bool>, lo: nat, hi: nat)
    requires lo <= hi <= |x|
    ensures x == x[..lo] + (x[lo..hi] + x[hi..])
  {}

  lemma AddInThree<T>(o: Ops<T>, c: T, x: seq<bool>, lo: nat, hi: nat)
    requires lo <= hi <= |x|
    ensures AddBits(o, c, x) == AddBits(o, AddBits(o, AddBits(o, c, x[..lo]), x[lo..hi]), x[hi..])
  {
    InThree(x, lo, hi);
    AddBitsAppend(o, c, x[..lo], x[lo..hi] + x[hi..]);
    AddBitsAppend(o, AddBits(o, c, x[..lo]), x[lo..hi], x[hi..]);
  }

  // --- mirror images ------------------------------------------------------------------------------

  /** `mirror` carries each operation of `o` to the same operation of `p`. */
  ghost predicate Mirrors<T(!new), U(!new)>(o: Ops<T>, p: Ops<U>, mirror: T -> U) {
    && (forall c :: p.top(mirror(c)) == o.top(c))
    && (forall c, tap :: p.feed(mirror(c), tap) == mirror(o.feed(c, tap)))
    && (forall c, w :: p.xor(mirror(c), mirror(w)) == mirror(o.xor(c, w)))
    && (forall w :: p.double(mirror(w)) == mirror(o.double(w)))
  }

  lemma {:induction false} ShiftsMirror<T(!new), U(!new)>(o: Ops<T>, p: Ops<U>, mirror: T -> U, c: T, n: nat)
    requires Mirrors(o, p, mirror)
    ensures Shifts(p, mirror(c), n) == mirror(Shifts(o, c, n))
  {
    if n > 0 {
      ShiftsMirror(o, p, mirror, c, n - 1);
    }
  }
}
