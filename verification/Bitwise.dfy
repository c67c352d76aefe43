/**
  `|` and `&` on the bits of natural numbers, and when they are a sum and a remainder.
 */
module Bitwise {
  import opened Words

  function OrBit(p: nat, q: nat): (b: nat)
    ensures b < 2
  {
    if p == 1 || q == 1 then 1 else 0
  }

  function AndBit(p: nat, q: nat): (b: nat)
    ensures b < 2
  {
    if p == 1 && q == 1 then 1 else 0
  }

  function Or(a: nat, b: nat): nat
    decreases a + b
  {
    if a == 0 && b == 0 then 0
    else OrBit(a % 2, b % 2) + 2 * Or(a / 2, b / 2)
  }

  function And(a: nat, b: nat): nat
    decreases a + b
  {
    if a == 0 && b == 0 then 0
    else AndBit(a % 2, b % 2) + 2 * And(a / 2, b / 2)
  }

  lemma {:induction false} OrZero(a: nat)
    ensures Or(a, 0) == a && Or(0, a) == a && And(a, 0) == 0
  {
    if a > 0 {
      OrZero(a / 2);
    }
  }

  lemma OrSteps(a: nat, b: nat)
    ensures Or(a, b) == OrBit(a % 2, b % 2) + 2 * Or(a / 2, b / 2)
  {}

  lemma AndSteps(a: nat, b: nat)
    ensures And(a, b) == AndBit(a % 2, b % 2) + 2 * And(a / 2, b / 2)
  {}

  lemma Twice(x: nat, p: nat)
    ensures x * (2 * p) == 2 * (x * p)
  {}

  /** The `k` low bits of `b` below the bits of `a`. */
  function Joined(a: nat, b: nat, k: nat): nat {
    if k == 0 then a else b % 2 + 2 * Joined(a, b / 2, k - 1)
  }

  lemma {:induction false} JoinedIs(a: nat, b: nat, k: nat)
    requires b < Pow2(k)
    ensures Joined(a, b, k) == a * Pow2(k) + b
  {
    if k > 0 {
      JoinedIs(a, b / 2, k - 1);
      Twice(a, Pow2(k - 1));
    }
  }

  lemma JoinedHalves(a: nat, b: nat, k: nat)
    requires k > 0
    ensures Joined(a, b, k) % 2 == b % 2 && Joined(a, b, k) / 2 == Joined(a, b / 2, k - 1)
  {}

  /** A number is its lowest bit and its half. */
  lemma BitAndHalf(n: nat, bit: nat, half: nat)
    requires n == bit + 2 * half && bit < 2
    ensures n % 2 == bit && n / 2 == half
  {}

  /** High bits and low bits join separately. */
  lemma {:induction false} OrJoined(a: nat, b: nat, c: nat, d: nat, k: nat)
    ensures Or(Joined(a, b, k), Joined(c, d, k)) == Joined(Or(a, c), Or(b, d), k)
    decreases k
  {
    if k > 0 {
      OrJoined(a, b / 2, c, d / 2, k - 1);
      JoinedHalves(a, b, k);
      JoinedHalves(c, d, k);
      OrSteps(Joined(a, b, k), Joined(c, d, k));
      OrSteps(b, d);
      BitAndHalf(Or(b, d), OrBit(b % 2, d % 2), Or(b / 2, d / 2));
    }
  }

  lemma {:induction false} AndJoined(a: nat, b: nat, c: nat, d: nat, k: nat)
    ensures And(Joined(a, b, k), Joined(c, d, k)) == Joined(And(a, c), And(b, d), k)
    decreases k
  {
    if k > 0 {
      AndJoined(a, b / 2, c, d / 2, k - 1);
      JoinedHalves(a, b, k);
      JoinedHalves(c, d, k);
      AndSteps(Joined(a, b, k), Joined(c, d, k));
      AndSteps(b, d);
      BitAndHalf(And(b, d), AndBit(b % 2, d % 2), And(b / 2, d / 2));
    }
  }

  /** Joining a high field with a low one is a sum, in either order. */
  lemma JoinIsSum(high: nat, low: nat, k: nat)
    requires low < Pow2(k)
    ensures Or(high * Pow2(k), low) == high * Pow2(k) + low
    ensures Or(low, high * Pow2(k)) == high * Pow2(k) + low
  {
    OrJoined(high, 0, 0, low, k);
    OrJoined(0, low, high, 0, k);
    OrZero(high);
    OrZero(low);
    JoinedIs(high, 0, k);
    JoinedIs(0, low, k);
    JoinedIs(high, low, k);
  }

  lemma OrAbove(high: nat, low: nat, field: nat, k: nat)
    requires low < Pow2(k)
    ensures Or(high * Pow2(k) + low, field * Pow2(k)) == Or(high, field) * Pow2(k) + low
  {
    OrJoined(high, low, field, 0, k);
    OrZero(low);
    JoinedIs(high, low, k);
    JoinedIs(field, 0, k);
    JoinedIs(Or(high, field), low, k);
  }

  /** So is joining a field with bits below it and bits above it that it does not overlap. */
  lemma JoinBetween(above: nat, low: nat, field: nat, k: nat)
    requires low < Pow2(k) && Or(above, field) == above + field
    ensures Or(above * Pow2(k) + low, field * Pow2(k)) == (above + field) * Pow2(k) + low
  {
    OrAbove(above, low, field, k);
  }

  /** Masking with `(1 << k) - 1` is the remainder by a power of two. */
  lemma {:induction false} MaskIsRemainder(v: nat, k: nat)
    ensures And(v, Pow2(k) - 1) == LowBits(v, k)
    decreases k
  {
    if k == 0 {
      OrZero(v);
    } else {
      MaskIsRemainder(v / 2, k - 1);
      MaskStep(v, Pow2(k - 1), Pow2(k));
    }
  }

  lemma AndOdd(v: nat, m: nat)
    ensures And(v, 2 * m + 1) == v % 2 + 2 * And(v / 2, m)
  {
    AndSteps(v, 2 * m + 1);
    assert (2 * m + 1) / 2 == m;
  }

  lemma MaskStep(v: nat, p: nat, m: nat)
    requires p >= 1 && m == 2 * p && And(v / 2, p - 1) == v / 2 % p
    ensures And(v, m - 1) == v % m
  {
    AndOdd(v, p - 1);
    HalfMod(v, p, m);
  }

  lemma HalfMod(v: nat, p: nat, m: nat)
    requires p >= 1 && m == 2 * p
    ensures v % m == v % 2 + 2 * (v / 2 % p)
  {
    var q, r := v / 2 / p, v / 2 % p;
    DivParts(v / 2, p);
    Twice(q, p);
    DivMod(v, m, q, v % 2 + 2 * r);
  }

  /** An Int of the source: 64 bits, in two's complement. */
  function Word64(v: int): nat {
    LowBits(v, 64)
  }

  /** Masking an Int of any sign. */
  lemma MaskOfInt(v: int, k: nat)
    requires k <= 64
    ensures And(Word64(v), Pow2(k) - 1) == LowBits(v, k)
  {
    MaskIsRemainder(Word64(v), k);
    PowSplit(k, 64 - k);
    RemainderOfRemainder(v, Pow2(k), Pow2(64 - k));
  }

  lemma RemainderOfRemainder(v: int, p: nat, m: nat)
    requires p >= 1 && m >= 1 && p * m >= 1
    ensures v % (p * m) % p == v % p
  {
    var q, r := v / (p * m), v % (p * m);
    var a, b := r / p, r % p;
    assert v == q * (p * m) + r && r == a * p + b;
    assert q * (p * m) == (q * m) * p;
    assert (q * m) * p + a * p == (q * m + a) * p;
    DivMod(v, p, q * m + a, b);
  }

  lemma {:induction false} PowSplit(a: nat, b: nat)
    ensures Pow2(a + b) == Pow2(a) * Pow2(b)
  {
    if a > 0 {
      PowSplit(a - 1, b);
      Twice(Pow2(b), Pow2(a - 1));
    }
  }

  /** Clearing the low `k` bits of a word of `k + m` bits. */
  lemma ClearLow(w: nat, k: nat, m: nat)
    requires w < Pow2(k + m)
    ensures And(w, LowBits(0 - Pow2(k), k + m)) == w - LowBits(w, k)
  {
    var p, n := Pow2(k), Pow2(m);
    PowSplit(k, m);
    HighMask(p, n);
    DivParts(w, p);
    AndJoined(w / p, w % p, n - 1, 0, k);
    MaskIsRemainder(w / p, m);
    QuotientBelow(w, p, n);
    OrZero(w % p);
    JoinedIs(w / p, w % p, k);
    JoinedIs(w / p, 0, k);
    JoinedIs(n - 1, 0, k);
  }

  lemma DivParts(w: nat, p: nat)
    requires p >= 1
    ensures w == w / p * p + w % p && w / p >= 0
  {}

  /** `~(p - 1)` in a word of `p * n` values. */
  lemma HighMask(p: nat, n: nat)
    requires p >= 1 && n >= 1
    ensures p * n >= 1 && (0 - p) % (p * n) == (n - 1) * p + 0
  {
    assert (n - 1) * p == n * p - p;
    assert p * n >= p by { MulAtLeast(n, p); }
    DivMod(0 - p, p * n, -1, (n - 1) * p);
  }

  lemma QuotientBelow(w: nat, p: nat, m: nat)
    requires p >= 1 && m >= 1 && w < p * m
    ensures w / p % m == w / p
  {
    var q, r := w / p, w % p;
    assert w == q * p + r && q >= 0;
    if q >= m {
      MulAtLeast(q - m + 1, p);
      MulSub(q + 1, m, p);
    }
  }
}
