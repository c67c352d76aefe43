/**
  Pin interrupt routing and pad control through the aliases: pins never share bits, so two cores can
  configure their pins at the same time. Addresses are those of the RP2040.
 */
module Gpio {
  import opened Alias

  const IO_BANK0_BASE: int := 0x4001_4000
  const PADS_BANK0_BASE: int := 0x4001_C000

  const SLEWFAST: bv32 := 0x01
  const SCHMITT: bv32 := 0x02
  const PDE: bv32 := 0x04
  const PUE: bv32 := 0x08
  const DRIVE_MASK: bv32 := 0x30
  const IE: bv32 := 0x40
  const OD: bv32 := 0x80

  type PinNumber = n: int | 0 <= n < 30

  function Pad(n: PinNumber): int { PADS_BANK0_BASE + (4 + 4 * n) }

  function Inte(n: PinNumber): int { IO_BANK0_BASE + 0x100 + 4 * (n / 8) }

  /** Where a register's event fields start. */
  predicate Place(s: bv32) { s <= 28 && s & 3 == 0 }

  /** `_event_shift`: `4 * (N % 8)`. */
  function EventShift(n: PinNumber): (s: bv32)
    ensures Place(s)
  {
    match n % 8
    case 0 => 0 case 1 => 4 case 2 => 8 case 3 => 12
    case 4 => 16 case 5 => 20 case 6 => 24 case _ => 28
  }

  function EventBits(mask: bv32, s: bv32): bv32
    requires Place(s)
  {
    (mask & 0xF) << s
  }

  /** What a program asks of a pin. */
  datatype Call =
    | IrqEnable(mask: bv32) | IrqDisable(mask: bv32)
    | PullUp | PullDown | PullNone | BusKeep
    | SetDrive(strength: bv32)
    | Schmitt(on: bool) | SlewFast(on: bool) | InputEnable(on: bool) | OutputDisable(on: bool)

  function Switch(on: bool): Kind { if on then Set else Clear }

  /** The stores a call makes, decoded. */
  function Stores(n: PinNumber, call: Call): seq<Op> {
    match call
    case IrqEnable(mask) => [Op(Set, Inte(n), EventBits(mask, EventShift(n)))]
    case IrqDisable(mask) => [Op(Clear, Inte(n), EventBits(mask, EventShift(n)))]
    case PullUp => [Op(Set, Pad(n), PUE), Op(Clear, Pad(n), PDE)]
    case PullDown => [Op(Set, Pad(n), PDE), Op(Clear, Pad(n), PUE)]
    case PullNone => [Op(Clear, Pad(n), PUE | PDE)]
    case BusKeep => [Op(Set, Pad(n), PUE | PDE)]
    case SetDrive(strength) => [Op(Clear, Pad(n), DRIVE_MASK), Op(Set, Pad(n), (strength << 4) & DRIVE_MASK)]
    case Schmitt(on) => [Op(Switch(on), Pad(n), SCHMITT)]
    case SlewFast(on) => [Op(Switch(on), Pad(n), SLEWFAST)]
    case InputEnable(on) => [Op(Switch(on), Pad(n), IE)]
    case OutputDisable(on) => [Op(Switch(on), Pad(n), OD)]
  }

  // --- addressing ---------------------------------------------------------------------------------

  /** No two pins have a pad register or an event field in common. */
  lemma PinsAreApart(n: PinNumber, k: PinNumber)
    ensures Pad(n) == Pad(k) <==> n == k
    ensures Inte(n) == Inte(k) && EventShift(n) == EventShift(k) <==> n == k
    ensures Pad(n) != Inte(k)
    ensures Direct(Pad(n)) && Direct(Inte(n))
  {
    assert n == 8 * (n / 8) + n % 8 && k == 8 * (k / 8) + k % 8;
    ShiftIsPlace(n, k);
  }

  lemma ShiftIsPlace(n: PinNumber, k: PinNumber)
    ensures EventShift(n) == EventShift(k) <==> n % 8 == k % 8
  {}

  lemma EventsApart(a: bv32, s: bv32, b: bv32, t: bv32)
    requires Place(s) && Place(t) && s != t
    ensures Alias.Apart(EventBits(a, s), EventBits(b, t))
  {}

  /** Calls on different pins touch no bit in common. */
  lemma PinsSeparate(n: PinNumber, c: Call, k: PinNumber, d: Call)
    requires n != k
    ensures Separate(Stores(n, c), Stores(k, d))
  {
    var a, b := Stores(n, c), Stores(k, d);
    forall i, j | 0 <= i < |a| && 0 <= j < |b| && a[i].reg == b[j].reg
      ensures Alias.Apart(a[i].Touched(), b[j].Touched())
    {
      StoresApart(n, c, k, d, i, j);
    }
  }

  lemma StoresApart(n: PinNumber, c: Call, k: PinNumber, d: Call, i: nat, j: nat)
    requires n != k && i < |Stores(n, c)| && j < |Stores(k, d)| && Stores(n, c)[i].reg == Stores(k, d)[j].reg
    ensures Alias.Apart(Stores(n, c)[i].Touched(), Stores(k, d)[j].Touched())
  {
    PinsAreApart(n, k);
    PinsAreApart(k, n);
    StoreIs(n, c, i);
    StoreIs(k, d, j);
    EventsApart(c.mask, EventShift(n), d.mask, EventShift(k));
  }

  /** A store goes to the pad of the pin, or it is the one store about its events. */
  lemma StoreIs(n: PinNumber, c: Call, i: nat)
    requires i < |Stores(n, c)|
    ensures var op := Stores(n, c)[i];
            || op.reg == Pad(n)
            || (op.reg == Inte(n) && (c.IrqEnable? || c.IrqDisable?)
                && op.Touched() == EventBits(c.mask, EventShift(n)))
  {}

  /** The bits a call is about, within the pad register or the pin's event field. */
  function Bits(call: Call): bv32 {
    match call
    case IrqEnable(mask) => mask & 0xF
    case IrqDisable(mask) => mask & 0xF
    case SetDrive(_) => DRIVE_MASK
    case Schmitt(_) => SCHMITT
    case SlewFast(_) => SLEWFAST
    case InputEnable(_) => IE
    case OutputDisable(_) => OD
    case _ => PUE | PDE
  }

  predicate AboutEvents(call: Call) { call.IrqEnable? || call.IrqDisable? }

  lemma SamePlaceApart(a: bv32, b: bv32, s: bv32)
    requires Place(s) && (a & 0xF) & (b & 0xF) == 0
    ensures Alias.Apart(EventBits(a, s), EventBits(b, s))
  {}

  lemma PadBits(n: PinNumber, c: Call, i: int)
    requires !AboutEvents(c) && 0 <= i < |Stores(n, c)|
    ensures Stores(n, c)[i].reg == Pad(n) && Stores(n, c)[i].Touched() & !Bits(c) == 0
  {}

  lemma ApartBits(a: bv32, b: bv32, p: bv32, q: bv32)
    requires a & !p == 0 && b & !q == 0 && p & q == 0
    ensures Alias.Apart(a, b)
  {}

  lemma SamePadSeparate(n: PinNumber, c: Call, d: Call)
    requires !AboutEvents(c) && !AboutEvents(d) && Bits(c) & Bits(d) == 0
    ensures Separate(Stores(n, c), Stores(n, d))
  {
    var a, b := Stores(n, c), Stores(n, d);
    forall i, j | 0 <= i < |a| && 0 <= j < |b| && a[i].reg == b[j].reg
      ensures Alias.Apart(a[i].Touched(), b[j].Touched())
    {
      PadBits(n, c, i);
      PadBits(n, d, j);
      ApartBits(a[i].Touched(), b[j].Touched(), Bits(c), Bits(d));
    }
  }

  lemma SameEventsSeparate(n: PinNumber, c: Call, d: Call)
    requires AboutEvents(c) && AboutEvents(d) && Bits(c) & Bits(d) == 0
    ensures Separate(Stores(n, c), Stores(n, d))
  {
    SamePlaceApart(c.mask, d.mask, EventShift(n));
  }

  lemma OtherRegister(n: PinNumber, c: Call, d: Call)
    requires AboutEvents(c) && !AboutEvents(d)
    ensures Separate(Stores(n, c), Stores(n, d)) && Separate(Stores(n, d), Stores(n, c))
  {
    PinsAreApart(n, n);
  }

  /** Calls on one pin are separate too when they are about different bits. */
  lemma SamePinSeparate(n: PinNumber, c: Call, d: Call)
    requires AboutEvents(c) == AboutEvents(d) ==> Bits(c) & Bits(d) == 0
    ensures Separate(Stores(n, c), Stores(n, d))
  {
    if AboutEvents(c) != AboutEvents(d) {
      if AboutEvents(c) {
        OtherRegister(n, c, d);
      } else {
        OtherRegister(n, d, c);
      }
    } else if AboutEvents(c) {
      SameEventsSeparate(n, c, d);
    } else {
      SamePadSeparate(n, c, d);
    }
  }

  // --- two cores ----------------------------------------------------------------------------------

  datatype Request = Request(pin: PinNumber, call: Call)

  function AllStores(requests: seq<Request>): seq<Op> {
    if requests == [] then []
    else
      var last := requests[|requests| - 1];
      AllStores(requests[..|requests| - 1]) + Stores(last.pin, last.call)
  }

  predicate Disjoint(r: Request, q: Request) {
    r.pin == q.pin && AboutEvents(r.call) == AboutEvents(q.call) ==> Bits(r.call) & Bits(q.call) == 0
  }

  lemma RequestsSeparate(r: Request, q: Request)
    requires Disjoint(r, q)
    ensures Separate(Stores(r.pin, r.call), Stores(q.pin, q.call))
  {
    if r.pin == q.pin {
      SamePinSeparate(r.pin, r.call, q.call);
    } else {
      PinsSeparate(r.pin, r.call, q.pin, q.call);
    }
  }

  lemma SeparateAppend(a: seq<Op>, b: seq<Op>, x: seq<Op>)
    requires Separate(a, x) && Separate(b, x)
    ensures Separate(a + b, x)
  {}

  lemma {:induction false} OneAgainstAll(r: Request, b: seq<Request>)
    requires forall j :: 0 <= j < |b| ==> Disjoint(b[j], r)
    ensures Separate(AllStores(b), Stores(r.pin, r.call))
  {
    if b != [] {
      var init, last := b[..|b| - 1], b[|b| - 1];
      OneAgainstAll(r, init);
      RequestsSeparate(last, r);
      SeparateAppend(AllStores(init), Stores(last.pin, last.call), Stores(r.pin, r.call));
    }
  }

  lemma {:induction false} AllSeparate(a: seq<Request>, b: seq<Request>)
    requires forall i, j :: 0 <= i < |a| && 0 <= j < |b| ==> Disjoint(b[j], a[i])
    ensures Separate(AllStores(a), AllStores(b))
  {
    if a != [] {
      var init, last := a[..|a| - 1], a[|a| - 1];
      AllSeparate(init, b);
      OneAgainstAll(last, b);
      SeparateSwaps(AllStores(b), Stores(last.pin, last.call));
      SeparateAppend(AllStores(init), Stores(last.pin, last.call), AllStores(b));
    }
  }

  /**
    Two cores that configure different pins, or different bits of a pin: however their stores interleave,
    every bit either of them stores ends as if it had run alone.
   */
  lemma TwoCores(regs: Registers, c: seq<Op>, a: seq<Request>, b: seq<Request>)
    requires forall i, j :: 0 <= i < |a| && 0 <= j < |b| ==> Disjoint(b[j], a[i])
    requires IsMerge(c, AllStores(a), AllStores(b))
    ensures forall op :: op in AllStores(a) ==>
      Agree(Get(RunAll(regs, c), op.reg), Get(RunAll(regs, AllStores(a)), op.reg), op.Touched())
    ensures forall op :: op in AllStores(b) ==>
      Agree(Get(RunAll(regs, c), op.reg), Get(RunAll(regs, AllStores(b)), op.reg), op.Touched())
  {
    AllSeparate(a, b);
    AsIfAlone(regs, c, AllStores(a), AllStores(b));
  }

  // --- what a call does ---------------------------------------------------------------------------

  /** A register after one store, or two, to it. */
  lemma OneStore(regs: Registers, reg: int, x: Kind, m: bv32)
    ensures Stored(regs, RunAll(regs, [Op(x, reg, m)]), x, reg, m)
  {
    RunOne(regs, Op(x, reg, m));
    ExecStored(regs, Op(x, reg, m));
  }

  lemma TwoStores(regs: Registers, reg: int, x: Kind, m: bv32, y: Kind, k: bv32) returns (between: Registers)
    ensures Stored(regs, between, x, reg, m)
    ensures Stored(between, RunAll(regs, [Op(x, reg, m), Op(y, reg, k)]), y, reg, k)
  {
    RunTwo(regs, Op(x, reg, m), Op(y, reg, k));
    between := Exec(regs, Op(x, reg, m));
    ExecStored(regs, Op(x, reg, m));
    ExecStored(between, Op(y, reg, k));
  }

  /** No bit has changed but some of the `n` bits from `lo` on of the register at `addr`. */
  ghost predicate OnlyBits(before: Registers, after: Registers, addr: int, lo: nat, n: nat) {
    && (forall p: nat :: p < 32 && !(lo <= p < lo + n) ==> At(Get(after, addr), p) == At(Get(before, addr), p))
    && forall other :: other != addr ==> Get(after, other) == Get(before, other)
  }

  /** The mask has just this bit. */
  ghost predicate Only(mask: bv32, at: nat) {
    forall p: nat :: p < 32 ==> (At(mask, p) <==> p == at)
  }

  /** The mask has just these two. */
  ghost predicate OnlyTwo(mask: bv32, at: nat, to: nat) {
    forall p: nat :: p < 32 ==> (At(mask, p) <==> p == at || p == to)
  }

  lemma OneOnly(mask: bv32, at: nat)
    requires mask == Up(1, at)
    ensures Only(mask, at)
  {
    forall p: nat | p < 32
      ensures At(mask, p) <==> p == at
    {
      OneAt(at, p);
    }
  }

  lemma TwoOnly(mask: bv32, x: bv32, y: bv32, at: nat, to: nat)
    requires Only(x, at) && Only(y, to) && mask == Or(x, y)
    ensures OnlyTwo(mask, at, to)
  {
    forall p: nat | p < 32
      ensures At(mask, p) <==> p == at || p == to
    {
      OrAt(x, y, p);
    }
  }

  /** Slew rate is bit 0 of a pad, Schmitt trigger 1, pull-down 2, pull-up 3, input enable 6, output disable 7. */
  lemma PadMasks()
    ensures Only(SLEWFAST, 0) && Only(SCHMITT, 1) && Only(PDE, 2) && Only(PUE, 3) && Only(IE, 6) && Only(OD, 7)
  {
    UpOnes();
    OneOnly(SLEWFAST, 0);
    OneOnly(SCHMITT, 1);
    OneOnly(PDE, 2);
    OneOnly(PUE, 3);
    OneOnly(IE, 6);
    OneOnly(OD, 7);
  }

  lemma UpOnes()
    ensures Up(1, 0) == 0x01 && Up(1, 1) == 0x02 && Up(1, 2) == 0x04 && Up(1, 3) == 0x08
    ensures Up(1, 4) == 0x10 && Up(1, 5) == 0x20 && Up(1, 6) == 0x40 && Up(1, 7) == 0x80
  {}

  lemma WideMasks()
    ensures OnlyTwo(PUE | PDE, 3, 2) && OnlyTwo(DRIVE_MASK, 4, 5)
  {
    PadMasks();
    TwoOnly(PUE | PDE, PUE, PDE, 3, 2);
    UpOnes();
    OneOnly(0x10, 4);
    OneOnly(0x20, 5);
    TwoOnly(DRIVE_MASK, 0x10, 0x20, 4, 5);
  }

  lemma UpNext(v: bv32, n: nat)
    ensures Up(v, n + 1) == Double(Up(v, n))
  {}

  lemma FourDoubles(x: bv32)
    ensures Double(Double(Double(Double(x)))) == Shifted(x)
  {}

  function Shifted(x: bv32): bv32 { x << 4 }

  lemma UpFour(v: bv32, n: nat)
    ensures Up(v, n + 4) == Shifted(Up(v, n))
  {
    UpNext(v, n);
    UpNext(v, n + 1);
    UpNext(v, n + 2);
    UpNext(v, n + 3);
    FourDoubles(Up(v, n));
  }

  /** The low two bits of the strength come to bits 5:4. */
  lemma StrengthAt(strength: bv32, p: nat)
    requires p < 32
    ensures At((strength << 4) & DRIVE_MASK, p) <==> (p == 4 && At(strength, 0)) || (p == 5 && At(strength, 1))
  {
    Up4(strength);
    WideMasks();
    AndAt(Up(strength, 4), DRIVE_MASK, p);
    UpAt(strength, 4, p);
    assert (strength << 4) & DRIVE_MASK == And(Up(strength, 4), DRIVE_MASK);
  }

  lemma NibbleAt(p: nat)
    ensures At(0xF, p) <==> p < 4
  {
    if p < 4 {
      OnesAt(0xF, 4, p);
    } else {
      Next(0xF, 0x7, p);
      Next(0x7, 0x3, p - 1);
      Next(0x3, 0x1, p - 2);
      Next(0x1, 0, p - 3);
      ZeroAt(p - 4);
    }
  }

  // four places at a time

  lemma Up0(v: bv32)
    ensures Up(v, 0) == v << 0
  {}

  lemma Up4(v: bv32)
    ensures Up(v, 4) == v << 4
  {
    Up0(v);
    UpFour(v, 0);
    ShiftTwice4(v);
  }

  lemma Up8(v: bv32)
    ensures Up(v, 8) == v << 8
  {
    Up4(v);
    UpFour(v, 4);
    ShiftTwice8(v);
  }

  lemma Up12(v: bv32)
    ensures Up(v, 12) == v << 12
  {
    Up8(v);
    UpFour(v, 8);
    ShiftTwice12(v);
  }

  lemma Up16(v: bv32)
    ensures Up(v, 16) == v << 16
  {
    Up12(v);
    UpFour(v, 12);
    ShiftTwice16(v);
  }

  lemma Up20(v: bv32)
    ensures Up(v, 20) == v << 20
  {
    Up16(v);
    UpFour(v, 16);
    ShiftTwice20(v);
  }

  lemma Up24(v: bv32)
    ensures Up(v, 24) == v << 24
  {
    Up20(v);
    UpFour(v, 20);
    ShiftTwice24(v);
  }

  lemma Up28(v: bv32)
    ensures Up(v, 28) == v << 28
  {
    Up24(v);
    UpFour(v, 24);
    ShiftTwice28(v);
  }

  lemma ShiftTwice4(v: bv32)
    ensures Shifted(v << 0) == v << 4
  {}

  lemma ShiftTwice8(v: bv32)
    ensures Shifted(v << 4) == v << 8
  {}

  lemma ShiftTwice12(v: bv32)
    ensures Shifted(v << 8) == v << 12
  {}

  lemma ShiftTwice16(v: bv32)
    ensures Shifted(v << 12) == v << 16
  {}

  lemma ShiftTwice20(v: bv32)
    ensures Shifted(v << 16) == v << 20
  {}

  lemma ShiftTwice24(v: bv32)
    ensures Shifted(v << 20) == v << 24
  {}

  lemma ShiftTwice28(v: bv32)
    ensures Shifted(v << 24) == v << 28
  {}

  lemma EventBitsUp(n: PinNumber, mask: bv32)
    ensures EventBits(mask, EventShift(n)) == Up(And(mask, 0xF), 4 * (n % 8))
  {
    var v := And(mask, 0xF);
    match n % 8
    case 0 => Up0(v);
    case 1 => Up4(v);
    case 2 => Up8(v);
    case 3 => Up12(v);
    case 4 => Up16(v);
    case 5 => Up20(v);
    case 6 => Up24(v);
    case _ => Up28(v);
  }

  /** The event bits of pin `n` are bits 4 * (n % 8) to 4 * (n % 8) + 3 of a word. */
  lemma EventsAt(n: PinNumber, mask: bv32, p: nat)
    requires p < 32
    ensures var lo := 4 * (n % 8);
            At(EventBits(mask, EventShift(n)), p) <==> lo <= p < lo + 4 && At(mask, p - lo)
  {
    var lo := 4 * (n % 8);
    EventBitsUp(n, mask);
    UpAt(And(mask, 0xF), lo, p);
    if p >= lo {
      AndAt(mask, 0xF, p - lo);
      NibbleAt(p - lo);
    }
  }

  /** The pull calls leave bits 3 and 2 of the pad, pull-up and pull-down, as their names say. */
  lemma PullCalls(regs: Registers, n: PinNumber)
    ensures PullLeft(regs, RunAll(regs, Stores(n, PullUp)), n, true, false)
    ensures PullLeft(regs, RunAll(regs, Stores(n, PullDown)), n, false, true)
    ensures PullLeft(regs, RunAll(regs, Stores(n, PullNone)), n, false, false)
    ensures PullLeft(regs, RunAll(regs, Stores(n, BusKeep)), n, true, true)
  {
    PullOne(regs, n, PUE, PDE, true);
    PullOne(regs, n, PDE, PUE, false);
    PullBoth(regs, n);
  }

  ghost predicate PullLeft(before: Registers, after: Registers, n: PinNumber, up: bool, down: bool) {
    var pad := 0x4001_C004 + 4 * n;
    && OnlyBits(before, after, pad, 2, 2)
    && At(Get(after, pad), 3) == up && At(Get(after, pad), 2) == down
  }

  lemma PullOne(regs: Registers, n: PinNumber, on: bv32, off: bv32, up: bool)
    requires if up then on == PUE && off == PDE else on == PDE && off == PUE
    ensures PullLeft(regs, RunAll(regs, [Op(Set, Pad(n), on), Op(Clear, Pad(n), off)]), n, up, !up)
  {
    var between := TwoStores(regs, Pad(n), Set, on, Clear, off);
    PadMasks();
  }

  lemma PullBoth(regs: Registers, n: PinNumber)
    ensures PullLeft(regs, RunAll(regs, [Op(Clear, Pad(n), PUE | PDE)]), n, false, false)
    ensures PullLeft(regs, RunAll(regs, [Op(Set, Pad(n), PUE | PDE)]), n, true, true)
  {
    OneStore(regs, Pad(n), Clear, PUE | PDE);
    OneStore(regs, Pad(n), Set, PUE | PDE);
    WideMasks();
  }

  /** `set_drive` leaves the low two bits of the strength in bits 5:4 of the pad. */
  lemma DriveCall(regs: Registers, n: PinNumber, strength: bv32)
    ensures var after, pad := RunAll(regs, Stores(n, SetDrive(strength))), 0x4001_C004 + 4 * n;
            && OnlyBits(regs, after, pad, 4, 2)
            && At(Get(after, pad), 4) == At(strength, 0) && At(Get(after, pad), 5) == At(strength, 1)
  {
    var between := TwoStores(regs, Pad(n), Clear, DRIVE_MASK, Set, (strength << 4) & DRIVE_MASK);
    WideMasks();
    var field := (strength << 4) & DRIVE_MASK;
    forall p: nat | p < 32
      ensures At(field, p) <==> (p == 4 && At(strength, 0)) || (p == 5 && At(strength, 1))
    {
      StrengthAt(strength, p);
    }
  }

  /** Bit `p` of the pad of pin `n` is `on` now, and nothing else has changed. */
  ghost predicate Switched(before: Registers, after: Registers, n: PinNumber, p: nat, on: bool) {
    var pad := 0x4001_C004 + 4 * n;
    OnlyBits(before, after, pad, p, 1) && At(Get(after, pad), p) == on
  }

  /** The switching calls: slew rate is bit 0 of the pad, Schmitt trigger 1, input enable 6, output disable 7. */
  lemma SwitchCall(regs: Registers, n: PinNumber, on: bool)
    ensures Switched(regs, RunAll(regs, Stores(n, SlewFast(on))), n, 0, on)
    ensures Switched(regs, RunAll(regs, Stores(n, Schmitt(on))), n, 1, on)
    ensures Switched(regs, RunAll(regs, Stores(n, InputEnable(on))), n, 6, on)
    ensures Switched(regs, RunAll(regs, Stores(n, OutputDisable(on))), n, 7, on)
  {
    SlewCall(regs, n, on);
    SchmittCall(regs, n, on);
    InputCall(regs, n, on);
    OutputCall(regs, n, on);
  }

  lemma SlewCall(regs: Registers, n: PinNumber, on: bool)
    ensures Switched(regs, RunAll(regs, Stores(n, SlewFast(on))), n, 0, on)
  {
    PadMasks();
    SwitchOne(regs, n, SLEWFAST, 0, on);
  }

  lemma SchmittCall(regs: Registers, n: PinNumber, on: bool)
    ensures Switched(regs, RunAll(regs, Stores(n, Schmitt(on))), n, 1, on)
  {
    PadMasks();
    SwitchOne(regs, n, SCHMITT, 1, on);
  }

  lemma InputCall(regs: Registers, n: PinNumber, on: bool)
    ensures Switched(regs, RunAll(regs, Stores(n, InputEnable(on))), n, 6, on)
  {
    PadMasks();
    SwitchOne(regs, n, IE, 6, on);
  }

  lemma OutputCall(regs: Registers, n: PinNumber, on: bool)
    ensures Switched(regs, RunAll(regs, Stores(n, OutputDisable(on))), n, 7, on)
  {
    PadMasks();
    SwitchOne(regs, n, OD, 7, on);
  }

  lemma SwitchOne(regs: Registers, n: PinNumber, mask: bv32, at: nat, on: bool)
    requires at < 32 && Only(mask, at)
    ensures Switched(regs, RunAll(regs, [Op(Switch(on), Pad(n), mask)]), n, at, on)
  {
    OneStore(regs, Pad(n), Switch(on), mask);
  }

  /**
    Enabling adds to the four bits of INTE0 to INTE3 that route the events of this pin, disabling takes away,
    and no other bit of any register changes.
   */
  lemma EventCall(regs: Registers, n: PinNumber, mask: bv32)
    ensures var addr, lo := 0x4001_4100 + 4 * (n / 8), 4 * (n % 8);
            && FieldStored(regs, RunAll(regs, Stores(n, IrqEnable(mask))), Set, addr, lo, mask)
            && FieldStored(regs, RunAll(regs, Stores(n, IrqDisable(mask))), Clear, addr, lo, mask)
  {
    EventsOn(regs, n, mask);
    EventsOff(regs, n, mask);
  }

  lemma EventsOn(regs: Registers, n: PinNumber, mask: bv32)
    ensures FieldStored(regs, RunAll(regs, Stores(n, IrqEnable(mask))), Set, 0x4001_4100 + 4 * (n / 8), 4 * (n % 8), mask)
  {
    OneStore(regs, Inte(n), Set, EventBits(mask, EventShift(n)));
    FieldOf(regs, RunAll(regs, Stores(n, IrqEnable(mask))), Set, n, mask);
  }

  lemma EventsOff(regs: Registers, n: PinNumber, mask: bv32)
    ensures FieldStored(regs, RunAll(regs, Stores(n, IrqDisable(mask))), Clear, 0x4001_4100 + 4 * (n / 8), 4 * (n % 8), mask)
  {
    OneStore(regs, Inte(n), Clear, EventBits(mask, EventShift(n)));
    FieldOf(regs, RunAll(regs, Stores(n, IrqDisable(mask))), Clear, n, mask);
  }

  /** The four bits from `lo` on are what the store makes of them with the low four bits of `mask`. */
  ghost predicate FieldStored(before: Registers, after: Registers, kind: Kind, addr: int, lo: nat, mask: bv32) {
    && OnlyBits(before, after, addr, lo, 4)
    && forall e: nat :: e < 4 ==>
         BitResult(kind, At(Get(before, addr), lo + e), At(mask, e), At(Get(after, addr), lo + e))
  }

  lemma FieldOf(before: Registers, after: Registers, kind: Kind, n: PinNumber, mask: bv32)
    requires kind == Set || kind == Clear
    requires Stored(before, after, kind, Inte(n), EventBits(mask, EventShift(n)))
    ensures FieldStored(before, after, kind, 0x4001_4100 + 4 * (n / 8), 4 * (n % 8), mask)
  {
    forall p: nat | p < 32
      ensures var lo := 4 * (n % 8);
              At(EventBits(mask, EventShift(n)), p) <==> lo <= p < lo + 4 && At(mask, p - lo)
    {
      EventsAt(n, mask, p);
    }
    FieldFrom(before, after, kind, Inte(n), EventBits(mask, EventShift(n)), 4 * (n % 8), mask);
  }

  lemma FieldFrom(before: Registers, after: Registers, kind: Kind, addr: int, bits: bv32, lo: nat, mask: bv32)
    requires (kind == Set || kind == Clear) && lo + 4 <= 32 && Stored(before, after, kind, addr, bits)
    requires forall p: nat :: p < 32 ==> (At(bits, p) <==> lo <= p < lo + 4 && At(mask, p - lo))
    ensures FieldStored(before, after, kind, addr, lo, mask)
  {
    FieldOnly(before, after, kind, addr, bits, lo);
    forall e: nat | e < 4
      ensures BitResult(kind, At(Get(before, addr), lo + e), At(mask, e), At(Get(after, addr), lo + e))
    {
      FieldBit(bits, lo, mask, e);
    }
  }

  lemma FieldBit(bits: bv32, lo: nat, mask: bv32, e: nat)
    requires e < 4 && lo + 4 <= 32
    requires forall p: nat :: p < 32 ==> (At(bits, p) <==> lo <= p < lo + 4 && At(mask, p - lo))
    ensures At(bits, lo + e) <==> At(mask, e)
  {
    assert lo + e - lo == e;
  }

  lemma FieldOnly(before: Registers, after: Registers, kind: Kind, addr: int, bits: bv32, lo: nat)
    requires (kind == Set || kind == Clear) && Stored(before, after, kind, addr, bits)
    requires forall p: nat :: p < 32 && At(bits, p) ==> lo <= p < lo + 4
    ensures OnlyBits(before, after, addr, lo, 4)
  {}

  // --- the pin object -----------------------------------------------------------------------------

  class Pin {
    const n: PinNumber
    const bus: Bus

    constructor (n: PinNumber, bus: Bus)
      ensures this.n == n && this.bus == bus
    {
      this.n, this.bus := n, bus;
    }

    /** One method per call in the source; each is the stores that `Stores` lists, in that order. */
    method Perform(call: Call)
      modifies bus
      ensures bus.regs == RunAll(old(bus.regs), Stores(n, call))
    {
      PinsAreApart(n, n);
      StoresRun(bus.regs, n, call);
      match call {
        case IrqEnable(mask) =>
          bus.SetBits(Inte(n), EventBits(mask, EventShift(n)));
        case IrqDisable(mask) =>
          bus.ClearBits(Inte(n), EventBits(mask, EventShift(n)));
        case PullUp =>
          bus.SetBits(Pad(n), PUE);
          bus.ClearBits(Pad(n), PDE);
        case PullDown =>
          bus.SetBits(Pad(n), PDE);
          bus.ClearBits(Pad(n), PUE);
        case PullNone =>
          bus.ClearBits(Pad(n), PUE | PDE);
        case BusKeep =>
          bus.SetBits(Pad(n), PUE | PDE);
        case SetDrive(strength) =>
          bus.ClearBits(Pad(n), DRIVE_MASK);
          bus.SetBits(Pad(n), (strength << 4) & DRIVE_MASK);
        case Schmitt(on) =>
          Flip(SCHMITT, on);
        case SlewFast(on) =>
          Flip(SLEWFAST, on);
        case InputEnable(on) =>
          Flip(IE, on);
        case OutputDisable(on) =>
          Flip(OD, on);
      }
    }

    method Flip(bit: bv32, on: bool)
      modifies bus
      ensures bus.regs == Exec(old(bus.regs), Op(Switch(on), Pad(n), bit))
    {
      PinsAreApart(n, n);
      if on {
        bus.SetBits(Pad(n), bit);
      } else {
        bus.ClearBits(Pad(n), bit);
      }
    }
  }

  lemma StoresRun(regs: Registers, n: PinNumber, call: Call)
    ensures
      var ops := Stores(n, call);
      RunAll(regs, ops) == if |ops| == 1 then Exec(regs, ops[0]) else Exec(Exec(regs, ops[0]), ops[1])
  {
    var ops := Stores(n, call);
    if |ops| == 2 {
      RunTwo(regs, ops[0], ops[1]);
    } else {
      RunOne(regs, ops[0]);
    }
  }

  lemma RunOne(regs: Registers, x: Op)
    ensures RunAll(regs, [x]) == Exec(regs, x)
  {
    assert [x][..0] == [];
  }

  lemma RunTwo(regs: Registers, x: Op, y: Op)
    ensures RunAll(regs, [x, y]) == Exec(Exec(regs, x), y)
  {
    RunOne(regs, x);
    assert [x, y][..1] == [x];
  }
}
