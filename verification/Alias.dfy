/**
  Atomic register aliases (section 2.1.2 of the RP2040 Datasheet): a write to a register's address plus
  0x1000, 0x2000 or 0x3000 xors, sets or clears the bits of the value in hardware.
 */
module Alias {
  datatype Kind = Plain | Toggle | Set | Clear

  /** One store, decoded: what it does to which register. */
  datatype Op = Op(kind: Kind, reg: int, mask: bv32) {
    /** The bits it may change. */
    function Touched(): bv32 { if kind == Plain then 0xFFFF_FFFF else mask }
  }

  function Decode(addr: int, value: bv32): Op {
    match addr / 0x1000 % 4
    case 0 => Op(Plain, addr, value)
    case 1 => Op(Toggle, addr - 0x1000, value)
    case 2 => Op(Set, addr - 0x2000, value)
    case _ => Op(Clear, addr - 0x3000, value)
  }

  /** The address of a register itself: not one of its aliases. */
  predicate Direct(addr: int) {
    addr / 0x1000 % 4 == 0
  }

  lemma AliasesDecode(addr: int, mask: bv32)
    requires Direct(addr)
    ensures Decode(addr, mask) == Op(Plain, addr, mask)
    ensures Decode(addr + 0x1000, mask) == Op(Toggle, addr, mask)
    ensures Decode(addr + 0x2000, mask) == Op(Set, addr, mask)
    ensures Decode(addr + 0x3000, mask) == Op(Clear, addr, mask)
  {}

  function Result(kind: Kind, v: bv32, m: bv32): bv32 {
    match kind
    case Plain => m
    case Toggle => Xor(v, m)
    case Set => Or(v, m)
    case Clear => AndNot(v, m)
  }

  function Or(v: bv32, m: bv32): bv32 { v | m }

  function AndNot(v: bv32, m: bv32): bv32 { v & !m }

  function Xor(v: bv32, m: bv32): bv32 { v ^ m }

  // --- bits by number -----------------------------------------------------------------------------

  predicate Odd(w: bv32) { w & 1 == 1 }

  function Half(w: bv32): bv32 { w >> 1 }

  /** Bit `p` of a word, as a number. */
  function Digit(w: bv32, p: nat): nat {
    if p == 0 then (if Odd(w) then 1 else 0) else Digit(Half(w), p - 1)
  }

  /** Bit `p` of a word is set. */
  predicate At(w: bv32, p: nat) {
    Digit(w, p) == 1
  }

  /** What each operation does to a bit. */
  predicate BitResult(kind: Kind, was: bool, given: bool, now: bool) {
    match kind
    case Plain => now == given
    case Toggle => now == (was != given)
    case Set => now == (was || given)
    case Clear => now == (was && !given)
  }

  function And(v: bv32, m: bv32): bv32 { v & m }

  lemma Next(w: bv32, half: bv32, p: nat)
    requires p > 0 && half == Half(w)
    ensures At(w, p) == At(half, p - 1)
  {}

  lemma OddAnd(v: bv32, m: bv32)
    ensures Odd(And(v, m)) == (Odd(v) && Odd(m))
  {}

  lemma HalfAnd(v: bv32, m: bv32)
    ensures Half(And(v, m)) == And(Half(v), Half(m))
  {}

  lemma {:induction false} AndAt(v: bv32, m: bv32, p: nat)
    ensures At(And(v, m), p) == (At(v, p) && At(m, p))
    decreases p
  {
    if p == 0 {
      OddAnd(v, m);
    } else {
      HalfAnd(v, m);
      Next(And(v, m), And(Half(v), Half(m)), p);
      Next(v, Half(v), p);
      Next(m, Half(m), p);
      AndAt(Half(v), Half(m), p - 1);
    }
  }

  lemma OddOr(v: bv32, m: bv32)
    ensures Odd(Or(v, m)) == (Odd(v) || Odd(m))
  {}

  lemma HalfOr(v: bv32, m: bv32)
    ensures Half(Or(v, m)) == Or(Half(v), Half(m))
  {}

  lemma {:induction false} OrAt(v: bv32, m: bv32, p: nat)
    ensures At(Or(v, m), p) == (At(v, p) || At(m, p))
    decreases p
  {
    if p == 0 {
      OddOr(v, m);
    } else {
      HalfOr(v, m);
      Next(Or(v, m), Or(Half(v), Half(m)), p);
      Next(v, Half(v), p);
      Next(m, Half(m), p);
      OrAt(Half(v), Half(m), p - 1);
    }
  }

  lemma OddAndNot(v: bv32, m: bv32)
    ensures Odd(AndNot(v, m)) == (Odd(v) && !Odd(m))
  {}

  lemma HalfAndNot(v: bv32, m: bv32)
    ensures Half(AndNot(v, m)) == AndNot(Half(v), Half(m))
  {}

  lemma {:induction false} AndNotAt(v: bv32, m: bv32, p: nat)
    ensures At(AndNot(v, m), p) == (At(v, p) && !At(m, p))
    decreases p
  {
    if p == 0 {
      OddAndNot(v, m);
    } else {
      HalfAndNot(v, m);
      Next(AndNot(v, m), AndNot(Half(v), Half(m)), p);
      Next(v, Half(v), p);
      Next(m, Half(m), p);
      AndNotAt(Half(v), Half(m), p - 1);
    }
  }

  lemma XorIs(v: bv32, m: bv32)
    ensures Xor(v, m) == AndNot(Or(v, m), And(v, m))
  {}

  lemma XorAt(v: bv32, m: bv32, p: nat)
    ensures At(Xor(v, m), p) == (At(v, p) != At(m, p))
  {
    XorIs(v, m);
    EitherAt(Xor(v, m), v, m, p);
  }

  lemma EitherAt(x: bv32, v: bv32, m: bv32, p: nat)
    requires x == AndNot(Or(v, m), And(v, m))
    ensures At(x, p) == (At(v, p) != At(m, p))
  {
    OrAt(v, m, p);
    AndAt(v, m, p);
    ButNot(x, Or(v, m), And(v, m), p, At(v, p), At(m, p));
  }

  lemma ButNot(x: bv32, y: bv32, z: bv32, p: nat, a: bool, b: bool)
    requires x == AndNot(y, z) && At(y, p) == (a || b) && At(z, p) == (a && b)
    ensures At(x, p) == (a != b)
  {
    AndNotAt(y, z, p);
  }

  lemma ResultAt(kind: Kind, v: bv32, m: bv32, p: nat)
    ensures BitResult(kind, At(v, p), At(m, p), At(Result(kind, v, m), p))
  {
    match kind
    case Plain =>
    case Toggle => XorAt(v, m, p);
    case Set => OrAt(v, m, p);
    case Clear => AndNotAt(v, m, p);
  }

  function Double(v: bv32): bv32 { v << 1 }

  lemma HalfDouble(v: bv32)
    ensures Half(Double(v)) == And(v, 0x7FFF_FFFF) && !Odd(Double(v))
  {}

  /** The low `n` bits are set. */
  predicate Ones(w: bv32, n: nat) {
    n == 0 || (Odd(w) && Ones(Half(w), n - 1))
  }

  lemma Ones7()
    ensures Ones(0x7F, 7)
  {}

  lemma Ones15()
    ensures Ones(0x7FFF, 15)
  {
    Ones7();
  }

  lemma Ones23()
    ensures Ones(0x7F_FFFF, 23)
  {
    Ones15();
  }

  lemma Ones31()
    ensures Ones(0x7FFF_FFFF, 31)
  {
    Ones23();
  }

  lemma {:induction false} OnesAt(w: bv32, n: nat, p: nat)
    requires Ones(w, n) && p < n
    ensures At(w, p)
  {
    if p > 0 {
      OnesAt(Half(w), n - 1, p - 1);
    }
  }

  lemma DoubleAt(v: bv32, p: nat)
    requires p < 32
    ensures At(Double(v), p) == (p > 0 && At(v, p - 1))
  {
    HalfDouble(v);
    if p > 0 {
      Next(Double(v), And(v, 0x7FFF_FFFF), p);
      AndAt(v, 0x7FFF_FFFF, p - 1);
      Ones31();
      OnesAt(0x7FFF_FFFF, 31, p - 1);
    }
  }

  /** `v << n` */
  function Up(v: bv32, n: nat): bv32 {
    if n == 0 then v else Double(Up(v, n - 1))
  }

  lemma {:induction false} UpAt(v: bv32, n: nat, p: nat)
    requires p < 32
    ensures At(Up(v, n), p) == (p >= n && At(v, p - n))
  {
    if n > 0 {
      DoubleAt(Up(v, n - 1), p);
      if p > 0 {
        UpAt(v, n - 1, p - 1);
      }
    }
  }

  lemma {:induction false} ZeroAt(p: nat)
    ensures !At(0, p)
  {
    if p > 0 {
      Next(0, 0, p);
      ZeroAt(p - 1);
    }
  }

  lemma OneAt(n: nat, p: nat)
    requires p < 32
    ensures At(Up(1, n), p) <==> p == n
  {
    UpAt(1, n, p);
    if p > n {
      Next(1, 0, p - n);
      ZeroAt(p - n - 1);
    }
  }

  type Registers = map<int, bv32>

  function Get(regs: Registers, reg: int): bv32 {
    if reg in regs then regs[reg] else 0
  }

  function Exec(regs: Registers, op: Op): Registers {
    regs[op.reg := Result(op.kind, Get(regs, op.reg), op.mask)]
  }

  function RunAll(regs: Registers, ops: seq<Op>): Registers {
    if ops == [] then regs else Exec(RunAll(regs, ops[..|ops| - 1]), ops[|ops| - 1])
  }

  /** Only the register at `addr` has changed, each of its 32 bits as a store of this kind says. */
  ghost predicate Stored(before: Registers, after: Registers, kind: Kind, addr: int, mask: bv32) {
    && (forall p: nat :: p < 32 ==> BitResult(kind, At(Get(before, addr), p), At(mask, p), At(Get(after, addr), p)))
    && forall other :: other != addr ==> Get(after, other) == Get(before, other)
  }

  lemma ExecStored(regs: Registers, op: Op)
    ensures Stored(regs, Exec(regs, op), op.kind, op.reg, op.mask)
  {
    forall p: nat | p < 32
      ensures BitResult(op.kind, At(Get(regs, op.reg), p), At(op.mask, p), At(Get(Exec(regs, op), op.reg), p))
    {
      ResultAt(op.kind, Get(regs, op.reg), op.mask, p);
    }
  }

  /** The address space as stores see it. */
  class Bus {
    var regs: Registers

    constructor ()
      ensures regs == map[]
    {
      regs := map[];
    }

    /** `write32`: the hardware decodes the address. */
    method Write32(addr: int, value: bv32)
      modifies this
      ensures regs == Exec(old(regs), Decode(addr, value))
    {
      regs := Exec(regs, Decode(addr, value));
    }

    /** `write32_set` */
    method SetBits(addr: int, mask: bv32)
      requires Direct(addr)
      modifies this
      ensures regs == Exec(old(regs), Op(Set, addr, mask)) && Stored(old(regs), regs, Set, addr, mask)
    {
      AliasesDecode(addr, mask);
      ExecStored(regs, Op(Set, addr, mask));
      Write32(addr + 0x2000, mask);
    }

    /** `write32_clr` */
    method ClearBits(addr: int, mask: bv32)
      requires Direct(addr)
      modifies this
      ensures regs == Exec(old(regs), Op(Clear, addr, mask)) && Stored(old(regs), regs, Clear, addr, mask)
    {
      AliasesDecode(addr, mask);
      ExecStored(regs, Op(Clear, addr, mask));
      Write32(addr + 0x3000, mask);
    }

    /** `write32_xor` */
    method ToggleBits(addr: int, mask: bv32)
      requires Direct(addr)
      modifies this
      ensures regs == Exec(old(regs), Op(Toggle, addr, mask)) && Stored(old(regs), regs, Toggle, addr, mask)
    {
      AliasesDecode(addr, mask);
      ExecStored(regs, Op(Toggle, addr, mask));
      Write32(addr + 0x1000, mask);
    }
  }

  predicate Apart(a: bv32, b: bv32) {
    a & b == 0
  }

  /** The words agree on the bits of `keep`. */
  predicate Agree(v: bv32, u: bv32, keep: bv32) {
    v & keep == u & keep
  }

  lemma ResultKeeps(op: Op, v: bv32, keep: bv32)
    requires Apart(op.Touched(), keep)
    ensures Agree(Result(op.kind, v, op.mask), v, keep)
  {
    match op.kind
    case Plain => PlainKeeps(v, op.mask, keep);
    case Toggle => XorKeeps(v, op.mask, keep);
    case Set => OrKeeps(v, op.mask, keep);
    case Clear => ClearKeeps(v, op.mask, keep);
  }

  lemma PlainKeeps(v: bv32, m: bv32, keep: bv32)
    requires Apart(0xFFFF_FFFF, keep)
    ensures Agree(m, v, keep)
  {}

  lemma XorKeeps(v: bv32, m: bv32, keep: bv32)
    requires Apart(m, keep)
    ensures Agree(Result(Toggle, v, m), v, keep)
  {}

  lemma OrKeeps(v: bv32, m: bv32, keep: bv32)
    requires Apart(m, keep)
    ensures Agree(Result(Set, v, m), v, keep)
  {}

  lemma ClearKeeps(v: bv32, m: bv32, keep: bv32)
    requires Apart(m, keep)
    ensures Agree(Result(Clear, v, m), v, keep)
  {}

  lemma ResultAgrees(kind: Kind, v: bv32, u: bv32, m: bv32, keep: bv32)
    requires Agree(v, u, keep)
    ensures Agree(Result(kind, v, m), Result(kind, u, m), keep)
  {
    match kind
    case Plain =>
    case Toggle => XorAgrees(v, u, m, keep);
    case Set => OrAgrees(v, u, m, keep);
    case Clear => AndAgrees(v, u, m, keep);
  }

  lemma XorAgrees(v: bv32, u: bv32, m: bv32, keep: bv32)
    requires Agree(v, u, keep)
    ensures Agree(Result(Toggle, v, m), Result(Toggle, u, m), keep)
  {}

  lemma OrAgrees(v: bv32, u: bv32, m: bv32, keep: bv32)
    requires Agree(v, u, keep)
    ensures Agree(Result(Set, v, m), Result(Set, u, m), keep)
  {}

  lemma AndAgrees(v: bv32, u: bv32, m: bv32, keep: bv32)
    requires Agree(v, u, keep)
    ensures Agree(Result(Clear, v, m), Result(Clear, u, m), keep)
  {}

  lemma AgreeTrans(a: bv32, b: bv32, c: bv32, keep: bv32)
    requires Agree(a, b, keep) && Agree(b, c, keep)
    ensures Agree(a, c, keep)
  {}

  /** `c` is the stores of `a` and of `b`, each in its own order. */
  predicate IsMerge(c: seq<Op>, a: seq<Op>, b: seq<Op>) {
    if c == [] then a == [] && b == []
    else
      var last, rest := c[|c| - 1], c[..|c| - 1];
      || (a != [] && last == a[|a| - 1] && IsMerge(rest, a[..|a| - 1], b))
      || (b != [] && last == b[|b| - 1] && IsMerge(rest, a, b[..|b| - 1]))
  }

  predicate LeavesAlone(ops: seq<Op>, reg: int, keep: bv32) {
    forall i :: 0 <= i < |ops| && ops[i].reg == reg ==> Apart(ops[i].Touched(), keep)
  }

  lemma ExecKeeps(regs: Registers, op: Op, reg: int, keep: bv32)
    requires op.reg == reg ==> Apart(op.Touched(), keep)
    ensures Agree(Get(Exec(regs, op), reg), Get(regs, reg), keep)
  {
    if op.reg == reg {
      ResultKeeps(op, Get(regs, reg), keep);
    }
  }

  lemma ExecAgrees(r: Registers, s: Registers, op: Op, reg: int, keep: bv32)
    requires Agree(Get(r, reg), Get(s, reg), keep)
    ensures Agree(Get(Exec(r, op), reg), Get(Exec(s, op), reg), keep)
  {
    if op.reg == reg {
      ResultAgrees(op.kind, Get(r, reg), Get(s, reg), op.mask, keep);
    }
  }

  /** Bits that `b` leaves alone end as if `a` had run alone, in every interleaving. */
  lemma {:induction false} MergeKeeps(regs: Registers, c: seq<Op>, a: seq<Op>, b: seq<Op>, reg: int, keep: bv32)
    requires IsMerge(c, a, b) && LeavesAlone(b, reg, keep)
    ensures Agree(Get(RunAll(regs, c), reg), Get(RunAll(regs, a), reg), keep)
  {
    if c != [] {
      var last, rest := c[|c| - 1], c[..|c| - 1];
      if a != [] && last == a[|a| - 1] && IsMerge(rest, a[..|a| - 1], b) {
        MergeKeeps(regs, rest, a[..|a| - 1], b, reg, keep);
        ExecAgrees(RunAll(regs, rest), RunAll(regs, a[..|a| - 1]), last, reg, keep);
      } else {
        MergeKeeps(regs, rest, a, b[..|b| - 1], reg, keep);
        ExecKeeps(RunAll(regs, rest), last, reg, keep);
        AgreeTrans(Get(Exec(RunAll(regs, rest), last), reg), Get(RunAll(regs, rest), reg), Get(RunAll(regs, a), reg), keep);
      }
    }
  }

  lemma {:induction false} MergeSwaps(c: seq<Op>, a: seq<Op>, b: seq<Op>)
    requires IsMerge(c, a, b)
    ensures IsMerge(c, b, a)
  {
    if c != [] {
      var last, rest := c[|c| - 1], c[..|c| - 1];
      if a != [] && last == a[|a| - 1] && IsMerge(rest, a[..|a| - 1], b) {
        MergeSwaps(rest, a[..|a| - 1], b);
      } else {
        MergeSwaps(rest, a, b[..|b| - 1]);
      }
    }
  }

  /** No bit is touched by both. */
  predicate Separate(a: seq<Op>, b: seq<Op>) {
    forall i, j :: 0 <= i < |a| && 0 <= j < |b| && a[i].reg == b[j].reg ==> Apart(a[i].Touched(), b[j].Touched())
  }

  lemma ApartSwaps(a: bv32, b: bv32)
    ensures Apart(a, b) == Apart(b, a)
  {}

  lemma SeparateSwaps(a: seq<Op>, b: seq<Op>)
    requires Separate(a, b)
    ensures Separate(b, a)
  {
    forall i, j | 0 <= i < |b| && 0 <= j < |a| && b[i].reg == a[j].reg
      ensures Apart(b[i].Touched(), a[j].Touched())
    {
      assert Apart(a[j].Touched(), b[i].Touched());
      ApartSwaps(a[j].Touched(), b[i].Touched());
    }
  }

  /** Two cores on separate bits: in every interleaving each finds its own bits as if it had run alone. */
  lemma AsIfAlone(regs: Registers, c: seq<Op>, a: seq<Op>, b: seq<Op>)
    requires IsMerge(c, a, b) && Separate(a, b)
    ensures forall i :: 0 <= i < |a| ==>
      Agree(Get(RunAll(regs, c), a[i].reg), Get(RunAll(regs, a), a[i].reg), a[i].Touched())
    ensures forall i :: 0 <= i < |b| ==>
      Agree(Get(RunAll(regs, c), b[i].reg), Get(RunAll(regs, b), b[i].reg), b[i].Touched())
  {
    SeparateSwaps(a, b);
    MergeSwaps(c, a, b);
    forall i | 0 <= i < |a|
      ensures Agree(Get(RunAll(regs, c), a[i].reg), Get(RunAll(regs, a), a[i].reg), a[i].Touched())
    {
      assert forall j :: 0 <= j < |b| && b[j].reg == a[i].reg ==> Apart(b[j].Touched(), a[i].Touched());
      MergeKeeps(regs, c, a, b, a[i].reg, a[i].Touched());
    }
    forall i | 0 <= i < |b|
      ensures Agree(Get(RunAll(regs, c), b[i].reg), Get(RunAll(regs, b), b[i].reg), b[i].Touched())
    {
      assert forall j :: 0 <= j < |a| && a[j].reg == b[i].reg ==> Apart(a[j].Touched(), b[i].Touched());
      MergeKeeps(regs, c, b, a, b[i].reg, b[i].Touched());
    }
  }

  lemma ExecGet(regs: Registers, op: Op)
    ensures Get(Exec(regs, op), op.reg) == Result(op.kind, Get(regs, op.reg), op.mask)
  {}

  lemma OneThenOne(regs: Registers, x: Op, y: Op)
    ensures IsMerge([x, y], [x], [y])
    ensures RunAll(regs, [x]) == Exec(regs, x) && RunAll(regs, [x, y]) == Exec(Exec(regs, x), y)
  {
    assert [x][..0] == [] && [y][..0] == [] && [x, y][..1] == [x];
    assert IsMerge([x], [x], []);
  }

  lemma Lost(v: bv32, mine: bv32, other: bv32)
    requires mine != 0 && Apart(mine, other) && Apart(v, mine)
    ensures !Agree(v | other, v | mine, mine)
  {}

  /**
    Without the aliases it is not so: a core that has read `v` from a register, and stores it back with a bit
    of its own set, undoes what the other core set in between.
   */
  lemma ReadModifyWriteLoses(regs: Registers, reg: int, mine: bv32, other: bv32)
    requires mine != 0 && Apart(mine, other) && Apart(Get(regs, reg), mine)
    ensures
      var x, y := Op(Set, reg, mine), Op(Plain, reg, Get(regs, reg) | other);
      && IsMerge([x, y], [x], [y])
      && !Agree(Get(RunAll(regs, [x, y]), reg), Get(RunAll(regs, [x]), reg), mine)
  {
    var v := Get(regs, reg);
    var back := v | other;
    var x, y := Op(Set, reg, mine), Op(Plain, reg, back);
    OneThenOne(regs, x, y);
    ExecGet(regs, x);
    ExecGet(Exec(regs, x), y);
    StoredBack(v, Get(Exec(regs, x), reg), mine, back);
    Lost(v, mine, other);
  }

  lemma StoredBack(v: bv32, w: bv32, mine: bv32, back: bv32)
    ensures Result(Plain, w, back) == back && Result(Set, v, mine) == v | mine
  {}
}
