/**
  Machine words as bounded integers, and the bit-field arithmetic shared by the models.

  The source masks with `v & ((1 << k) - 1)` and joins disjoint fields with `|`. On integers these
  are a Euclidean remainder by a power of two and a sum, which `Bitwise` proves.
 */
module Words {

  const W32: nat := 0x1_0000_0000

  type u32 = x: int | 0 <= x < 0x1_0000_0000
  type u16 = x: int | 0 <= x < 0x1_0000
  type u8 = x: int | 0 <= x < 0x100

  datatype Option<+T> = None | Some(value: T)

  function Pow2(n: nat): (p: nat)
    ensures p >= 1
  {
    if n == 0 then 1 else 2 * Pow2(n - 1)
  }

  lemma Pow2Of32()
    ensures Pow2(32) == W32
  {
    assert Pow2(8) == 256;
    assert Pow2(16) == 256 * 256;
    assert Pow2(24) == 256 * 65536;
  }

  /** `v & ((1 << k) - 1)` on a two's-complement integer of any sign. */
  function LowBits(v: int, k: nat): (r: nat)
    ensures r < Pow2(k)
  {
    v % Pow2(k)
  }

  /** `v >> k`. */
  function Shr(v: nat, k: nat): nat {
    DivNonNegative(v, Pow2(k));
    v / Pow2(k)
  }

  lemma DivNonNegative(v: nat, d: nat)
    requires d >= 1
    ensures v / d >= 0
  {}

  /** `v << k`, before any truncation. */
  function Shl(v: nat, k: nat): nat {
    v * Pow2(k)
  }

  function Trunc(v: int): u32 {
    v % W32
  }

  /** `a - b` on UInt32. */
  function Sub32(a: int, b: int): u32 {
    Trunc(a - b)
  }

  /** The modular difference is the true one up to whole turns of the counter. */
  lemma Elapsed(a: nat, b: nat)
    requires a <= b
    ensures Sub32(Trunc(b), Trunc(a)) <= b - a
    ensures b - a < W32 ==> Sub32(Trunc(b), Trunc(a)) == b - a
  {
    var ka, kb := a / W32, b / W32;
    assert a == ka * W32 + Trunc(a) && b == kb * W32 + Trunc(b);
    assert ka <= kb;
  }

  function Min(a: nat, b: nat): nat {
    if a <= b then a else b
  }

  /** Bit k of a word. */
  predicate Bit(v: nat, k: nat) {
    Shr(v, k) % 2 == 1
  }

  /** The word whose bit k is `bits[k]`. */
  function FromBits(bits: seq<bool>): (v: nat)
    ensures v < Pow2(|bits|)
  {
    if bits == [] then 0 else (if bits[0] then 1 else 0) + 2 * FromBits(bits[1..])
  }

  lemma MulAtLeast(k: int, d: int)
    requires k >= 1 && d >= 0
    ensures k * d >= d
  {}

  lemma MulSub(a: int, b: int, d: int)
    ensures (a - b) * d == a * d - b * d
  {}

  /** Quotient and remainder are unique. */
  lemma DivModUnique(a: int, b: int, d: int, q: int, r: int)
    requires 0 <= r < d && 0 <= b < d && a * d + b == q * d + r
    ensures a == q && b == r
  {
    MulSub(a, q, d);
    MulSub(q, a, d);
    if a > q { MulAtLeast(a - q, d); }
    if q > a { MulAtLeast(q - a, d); }
  }

  lemma DivMod(f: int, d: int, q: int, r: int)
    requires 0 <= r < d && f == q * d + r
    ensures f / d == q && f % d == r
  {
    DivModUnique(f / d, f % d, d, q, r);
  }

  lemma SmallMod(v: int, d: int)
    requires 0 <= v < d
    ensures v % d == v
  {}

  // --- runs -----------------------------------------------------------------------------------

  /** The state after `n` steps that begin at time `from`. */
  function Iterate<S, E>(step: (S, E) -> S, s: S, env: nat -> E, from: nat, n: nat): S {
    if n == 0 then s else step(Iterate(step, s, env, from, n - 1), env(from + n - 1))
  }

  lemma {:induction false} IterateSplit<S, E>(step: (S, E) -> S, s: S, env: nat -> E, from: nat, m: nat, n: nat)
    ensures Iterate(step, s, env, from, m + n) == Iterate(step, Iterate(step, s, env, from, m), env, from + m, n)
  {
    if n > 0 {
      IterateSplit(step, s, env, from, m, n - 1);
    }
  }

  /** The state at time `to` of a run that begins at time `from`. */
  function Until<S, E>(step: (S, E) -> S, s: S, env: nat -> E, from: nat, to: nat): S
    requires from <= to
  {
    Iterate(step, s, env, from, to - from)
  }

  lemma UntilThen<S, E>(step: (S, E) -> S, s: S, env: nat -> E, from: nat, mid: nat, to: nat)
    requires from <= mid <= to
    ensures Until(step, s, env, from, to) == Until(step, Until(step, s, env, from, mid), env, mid, to)
  {
    IterateSplit(step, s, env, from, mid - from, to - mid);
  }
}
