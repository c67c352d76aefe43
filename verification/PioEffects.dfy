/**
  What one cycle of an assembled program does, in plain numbers: every pin by its place, every
  register by its value, the FIFOs by their words, and where control goes.
 */
module PioEffects {
  import opened Words
  import opened PioMachine
  import opened PioSource
  import opened PioMeaning

  // --- pins -----------------------------------------------------------------------------------

  predicate Within(base: Pc, count: nat, i: Pc) {
    (i - base) % 32 < count
  }

  /** The levels (or, with `dirs`, the directions) that a statement writes by side-set. */
  function SidePins(pins: PinMap, mode: SideMode, st: Stmt, dirs: bool): set<Pc> {
    if mode.pindirs == dirs && (st.side >= 0 || !mode.optional)
    then set i: Pc | Within(pins.sideBase, mode.count, i)
    else {}
  }

  /** Pin `base + k`, counted around 32, shows bit k of `value`, but for the pins in `except`. */
  ghost predicate Shows(levels: Levels, base: Pc, count: nat, value: nat, except: set<Pc>) {
    forall k: nat :: k < count && k < 32 && (base + k) % 32 !in except
                     ==> levels[(base + k) % 32] == (value / Pow2(k) % 2 == 1)
  }

  /** The pins outside `count` pins from `base` are as they were, but for those in `except`. */
  ghost predicate Leaves(before: Levels, after: Levels, base: Pc, count: nat, except: set<Pc>) {
    forall i: Pc :: i !in except && !Within(base, count, i) ==> after[i] == before[i]
  }

  ghost predicate Writes(before: Levels, after: Levels, base: Pc, count: nat, value: nat, except: set<Pc>) {
    Shows(after, base, count, value, except) && Leaves(before, after, base, count, except)
  }

  /** The bits a shift instruction moves: 1 to 32, and 32 is written as 0. */
  function Moved(count: int): (n: nat)
    ensures 1 <= n <= 32
  {
    (count - 1) % 32 + 1
  }

  /** The pins after a statement that took `s` to `r`. Side-set wins where it meets the statement. */
  ghost predicate PinsDone(pins: PinMap, mode: SideMode, st: Stmt, s: State, r: State) {
    var levels := SidePins(pins, mode, st, false);
    var dirs := SidePins(pins, mode, st, true);
    && (st.side >= 0 || !mode.optional ==>
          Shows(if mode.pindirs then r.dirs else r.pins, pins.sideBase, mode.count,
                if st.side < 0 then 0 else st.side, {}))
    && (match st.op
        case SetPins(v) => Writes(s.pins, r.pins, pins.setBase, pins.setCount, v % 32, levels)
        case OutPins(c) => Writes(s.pins, r.pins, pins.outBase, pins.outCount, s.osr % Pow2(Moved(c)), levels)
        case MovPinsX => Writes(s.pins, r.pins, pins.outBase, pins.outCount, s.x, levels)
        case _ => Leaves(s.pins, r.pins, 0, 0, levels))
    && (match st.op
        case SetPindirs(v) => Writes(s.dirs, r.dirs, pins.setBase, pins.setCount, v % 32, dirs)
        case _ => Leaves(s.dirs, r.dirs, 0, 0, dirs))
  }

  lemma PlaceOf(base: Pc, k: Pc)
    ensures ((base + k) % 32 - base) % 32 == k
  {}

  lemma DriveWrites(before: Levels, base: Pc, count: nat, value: nat)
    ensures Writes(before, Drive(before, base, count, value), base, count, value, {})
  {
    var after := Drive(before, base, count, value);
    forall k: nat | k < count && k < 32
      ensures after[(base + k) % 32] == (value / Pow2(k) % 2 == 1)
    {
      PlaceOf(base, k);
      var i := (base + k) % 32;
      assert after[i] == Bit(value, (i - base) % 32);
    }
  }

  /** The low bits of a remainder by a power of two are those of the number. */
  lemma {:induction false} LowBit(v: nat, c: nat, j: nat)
    requires j < c
    ensures v % Pow2(c) / Pow2(j) % 2 == v / Pow2(j) % 2
  {
    Halves(v, Pow2(c - 1));
    if j > 0 {
      LowBit(v / 2, c - 1, j - 1);
      Quarter(v, Pow2(j - 1));
      Quarter(v % Pow2(c), Pow2(j - 1));
    }
  }

  lemma Halves(v: nat, m: nat)
    requires m >= 1
    ensures v % (2 * m) / 2 == v / 2 % m && v % (2 * m) % 2 == v % 2
  {
    var q, r := v / (2 * m), v % (2 * m);
    assert v == 2 * (q * m) + r;
    DivMod(v / 2, m, q, r / 2);
  }

  lemma Quarter(v: nat, m: nat)
    requires m >= 1
    ensures v / (2 * m) == v / 2 / m
  {
    var q, r := v / 2 / m, v / 2 % m;
    assert v == 2 * (q * m + r) + v % 2;
    DivMod(v, 2 * m, q, 2 * r + v % 2);
  }

  /** Side-set over levels that were written before: its pins show its value, the others are kept. */
  lemma SideWrites(before: Levels, base: Pc, count: nat, side: int)
    ensures var v := if side >= 0 then LowBits(side, count) else 0;
            Writes(before, Drive(before, base, count, v), base, count, if side < 0 then 0 else side, {})
  {
    var v := if side >= 0 then LowBits(side, count) else 0;
    var after := Drive(before, base, count, v);
    DriveWrites(before, base, count, v);
    if side >= 0 {
      forall k: nat | k < count && k < 32
        ensures after[(base + k) % 32] == (side / Pow2(k) % 2 == 1)
      {
        LowBit(side, count, k);
      }
    }
  }

  /** Side-set after the statement's own effect on the same pins. */
  lemma SideWins(before: Levels, mid: Levels, after: Levels, base: Pc, count: nat, value: nat,
                 sideBase: Pc, sideCount: nat, side: nat, sided: set<Pc>)
    requires Writes(before, mid, base, count, value, {})
    requires Writes(mid, after, sideBase, sideCount, side, {})
    requires sided == set i: Pc | Within(sideBase, sideCount, i)
    ensures Writes(before, after, base, count, value, sided)
  {
    forall k: nat | k < count && k < 32 && (base + k) % 32 !in sided
      ensures after[(base + k) % 32] == (value / Pow2(k) % 2 == 1)
    {
      assert after[(base + k) % 32] == mid[(base + k) % 32];
    }
  }

  /** Whatever a statement has done to the pins and directions, `ApplySide` adds its side-set. */
  lemma SidePinsDone(pins: PinMap, mode: SideMode, st: Stmt, s: State, mid: State,
                     base: Pc, count: nat, value: nat, dirBase: Pc, dirCount: nat, dirValue: nat)
    requires Writes(s.pins, mid.pins, base, count, value, {})
    requires Writes(s.dirs, mid.dirs, dirBase, dirCount, dirValue, {})
    ensures var r := ApplySide(pins, mode, st.side, mid);
            && (st.side >= 0 || !mode.optional ==>
                  Shows(if mode.pindirs then r.dirs else r.pins, pins.sideBase, mode.count,
                        if st.side < 0 then 0 else st.side, {}))
            && Writes(s.pins, r.pins, base, count, value, SidePins(pins, mode, st, false))
            && Writes(s.dirs, r.dirs, dirBase, dirCount, dirValue, SidePins(pins, mode, st, true))
  {
    var r := ApplySide(pins, mode, st.side, mid);
    if mode.count > 0 && (st.side >= 0 || !mode.optional) {
      var side := if st.side < 0 then 0 else st.side;
      if mode.pindirs {
        SideWrites(mid.dirs, pins.sideBase, mode.count, st.side);
        SideWins(s.dirs, mid.dirs, r.dirs, dirBase, dirCount, dirValue, pins.sideBase, mode.count, side,
                 SidePins(pins, mode, st, true));
      } else {
        SideWrites(mid.pins, pins.sideBase, mode.count, st.side);
        SideWins(s.pins, mid.pins, r.pins, base, count, value, pins.sideBase, mode.count, side,
                 SidePins(pins, mode, st, false));
      }
    }
  }

  /** The pins a statement writes by itself: first pin, count and value. */
  function OwnPins(pins: PinMap, op: Op, s: State): (Pc, nat, nat) {
    match op
    case SetPins(v) => (pins.setBase, pins.setCount, v % 32)
    case OutPins(c) => (pins.outBase, pins.outCount, s.osr % Pow2(Moved(c)))
    case MovPinsX => (pins.outBase, pins.outCount, s.x)
    case _ => (0, 0, 0)
  }

  function OwnDirs(pins: PinMap, op: Op): (Pc, nat, nat) {
    if op.SetPindirs? then (pins.setBase, pins.setCount, op.value % 32) else (0, 0, 0)
  }

  /** The state after the statement's own effect. */
  function After(o: Outcome, s: State): State {
    if o.Stall? then s else o.s
  }

  lemma OutIsLow(s: State, n: nat)
    requires 1 <= n <= 32
    ensures OutData(s, n) == s.osr % Pow2(n)
  {
    RemainderAtMost(s.osr, Pow2(n));
  }

  lemma RemainderAtMost(v: nat, d: nat)
    requires d >= 1
    ensures v % d <= v
  {
    if v < d { SmallMod(v, d); }
  }

  lemma OwnDrives(pins: PinMap, labels: Labels, op: Op, s: State, e: Env)
    requires op.IsJump() ==> -8 <= op.target
    ensures var mid := After(Effect(pins, labels, op, s, e), s);
            var (base, count, value) := OwnPins(pins, op, s);
            var (dirBase, dirCount, dirValue) := OwnDirs(pins, op);
            && mid.pins == Drive(s.pins, base, count, value)
            && mid.dirs == Drive(s.dirs, dirBase, dirCount, dirValue)
  {
    Undriven(s.pins);
    Undriven(s.dirs);
    if op.OutPins? {
      SameCount(op.count);
      OutIsLow(s, Moved(op.count));
    }
  }

  lemma Undriven(levels: Levels)
    ensures Drive(levels, 0, 0, 0) == levels
  {}

  lemma OwnWrites(pins: PinMap, labels: Labels, op: Op, s: State, e: Env)
    requires op.IsJump() ==> -8 <= op.target
    ensures var mid := After(Effect(pins, labels, op, s, e), s);
            var (base, count, value) := OwnPins(pins, op, s);
            var (dirBase, dirCount, dirValue) := OwnDirs(pins, op);
            && Writes(s.pins, mid.pins, base, count, value, {})
            && Writes(s.dirs, mid.dirs, dirBase, dirCount, dirValue, {})
  {
    var (base, count, value) := OwnPins(pins, op, s);
    var (dirBase, dirCount, dirValue) := OwnDirs(pins, op);
    OwnDrives(pins, labels, op, s, e);
    DriveWrites(s.pins, base, count, value);
    DriveWrites(s.dirs, dirBase, dirCount, dirValue);
  }

  lemma PinsAfter(pins: PinMap, p: Program, s: State, e: Env)
    requires p.Valid() && s.pc < |p.stmts|
    ensures PinsDone(pins, p.mode, p.stmts[s.pc], s, Perform(pins, p, s, e))
  {
    var st := p.stmts[s.pc];
    var o := Effect(pins, p.labels, st.op, s, e);
    OwnWrites(pins, p.labels, st.op, s, e);
    var (base, count, value) := OwnPins(pins, st.op, s);
    var (dirBase, dirCount, dirValue) := OwnDirs(pins, st.op);
    var mid := MidOf(p, st, s, o);
    SidePinsDone(pins, p.mode, st, s, mid, base, count, value, dirBase, dirCount, dirValue);
  }

  /** The state that side-set is applied to. */
  function MidOf(p: Program, st: Stmt, s: State, o: Outcome): (mid: State)
    requires p.Valid() && s.pc < |p.stmts|
    ensures mid.pins == After(o, s).pins && mid.dirs == After(o, s).dirs
    ensures forall pins :: FinishStmt(pins, p, st, s, o) == ApplySide(pins, p.mode, st.side, mid)
  {
    match o
    case Stall => s
    case Next(s1, target) =>
      s1.(pc := if target.Some? then target.value else if s.pc == |p.stmts| - 1 then 0 else s.pc + 1,
          delay := DelayOf(p.mode, st.delay))
  }

  // --- registers ------------------------------------------------------------------------------

  /** A statement that waits does nothing but its side-set. */
  predicate Waits(op: Op, s: State, e: Env) {
    match op
    case WaitGpio(polarity, gpio) => e.gpio[gpio % 32] != (polarity % 2 == 1)
    case PushBlock => |s.rx| >= 4
    case PullBlock => s.tx == []
    case _ => false
  }

  ghost predicate XDone(pins: PinMap, op: Op, s: State, e: Env, x: u32) {
    match op
    case SetX(v) => x == v % 32
    case JmpXDec(_) => x == if s.x == 0 then 4294967295 else s.x - 1
    case OutX(c) => x == s.osr % Pow2(Moved(c))
    case MovXPins => forall k: nat :: k < 32 ==> (x / Pow2(k) % 2 == 1) == e.gpio[(pins.inBase + k) % 32]
    case MovXNotNull => x == 4294967295
    case _ => x == s.x
  }

  ghost predicate YDone(op: Op, s: State, y: u32) {
    match op
    case SetY(v) => y == v % 32
    case JmpYDec(_) => y == if s.y == 0 then 4294967295 else s.y - 1
    case _ => y == s.y
  }

  /** A shift register's count of moved bits stays at 32. */
  function Counted(count: nat, n: nat): nat {
    if count + n > 32 then 32 else count + n
  }

  /** The n low bits of `x` above the bits of `isr` that stay. */
  function Entered(isr: nat, x: nat, n: nat): int
    requires n <= 32
  {
    isr / Pow2(n) + x % Pow2(n) * Pow2(32 - n)
  }

  ghost predicate IsrDone(op: Op, s: State, e: Env, isr: u32, isrCount: nat) {
    match op
    case InX(c) =>
      var n := Moved(c);
      isr == Entered(s.isr, s.x, n) && isrCount == Counted(s.isrCount, n)
    case PushBlock => if Waits(op, s, e) then isr == s.isr && isrCount == s.isrCount else isr == 0 && isrCount == 0
    case _ => isr == s.isr && isrCount == s.isrCount
  }

  ghost predicate OsrDone(op: Op, s: State, osr: u32, osrCount: nat) {
    if op.OutPins? || op.OutX? then
      var n := Moved(op.count);
      osr == s.osr / Pow2(n) && osrCount == Counted(s.osrCount, n)
    else if (op.PullBlock? || op.PullNoblock?) && s.tx != [] then osr == s.tx[0] && osrCount == 0
    else if op.PullNoblock? then osr == s.x && osrCount == 0
    else osr == s.osr && osrCount == s.osrCount
  }

  ghost predicate FifosDone(op: Op, s: State, e: Env, r: State) {
    && r.rx == (if op.PushBlock? && !Waits(op, s, e) then s.rx + [s.isr] else s.rx)
    && r.pushed == (if op.PushBlock? && !Waits(op, s, e) then s.pushed + [s.isr] else s.pushed)
    && r.tx == (if (op.PullBlock? || op.PullNoblock?) && s.tx != [] then s.tx[1..] else s.tx)
  }

  ghost predicate RegistersDone(pins: PinMap, op: Op, s: State, e: Env, r: State) {
    && XDone(pins, op, s, e, r.x)
    && YDone(op, s, r.y)
    && IsrDone(op, s, e, r.isr, r.isrCount)
    && OsrDone(op, s, r.osr, r.osrCount)
    && FifosDone(op, s, e, r)
  }

  lemma {:induction false} BitOfBits(bits: seq<bool>, k: nat)
    requires k < |bits|
    ensures (FromBits(bits) / Pow2(k) % 2 == 1) == bits[k]
  {
    if k > 0 {
      BitOfBits(bits[1..], k - 1);
      Quarter(FromBits(bits), Pow2(k - 1));
    }
  }

  lemma SampleBits(gpio: Levels, base: Pc)
    ensures forall k: nat :: k < 32 ==> (Sample(gpio, base) / Pow2(k) % 2 == 1) == gpio[(base + k) % 32]
  {
    var bits: seq<bool> := seq(32, i requires 0 <= i < 32 => gpio[(base + i) % 32]);
    forall k: nat | k < 32
      ensures (Sample(gpio, base) / Pow2(k) % 2 == 1) == gpio[(base + k) % 32]
    {
      BitOfBits(bits, k);
    }
  }

  lemma {:induction false} Pow2Sum(m: nat, n: nat)
    ensures Pow2(m + n) == Pow2(m) * Pow2(n)
  {
    if m > 0 {
      Pow2Sum(m - 1, n);
      assert Pow2(m - 1) * Pow2(n) * 2 == Pow2(m) * Pow2(n);
    }
  }

  /** A word shifted in leaves 32 bits. */
  lemma ShiftedInFits(isr: u32, x: u32, n: nat)
    requires 1 <= n <= 32
    ensures 0 <= Entered(isr, x, n) < W32
  {
    Pow2Sum(n, 32 - n);
    Pow2Of32();
    JoinFits(isr, x, Pow2(n), Pow2(32 - n), W32);
  }

  lemma JoinFits(v: nat, w: nat, m: nat, l: nat, all: nat)
    requires m >= 1 && l >= 1 && v < all && all == m * l
    ensures 0 <= v / m + w % m * l < all
  {
    DivNonNegative(v, m);
    QuotientBelow(v, m, l);
    MulMono(w % m, m - 1, l);
    MulSub(m, 1, l);
  }

  lemma MulMono(a: nat, b: nat, d: nat)
    requires a <= b
    ensures a * d <= b * d
  {}

  lemma QuotientBelow(v: nat, m: nat, l: nat)
    requires m >= 1 && v < l * m
    ensures v / m < l
  {
    if l <= v / m {
      MulMono(l, v / m, m);
    }
  }

  lemma SameCount(c: int)
    ensures ShiftCount(c) == Moved(c)
  {}

  lemma InIsNumber(s: State, n: nat)
    requires 1 <= n <= 32
    ensures ShiftIn(s, s.x, n).isr == Entered(s.isr, s.x, n)
  {
    ShiftedInFits(s.isr, s.x, n);
    Truncated(s, n);
    Remains(ShiftIn(s, s.x, n).isr, Entered(s.isr, s.x, n));
  }

  lemma Remains(t: int, v: int)
    requires 0 <= v < W32 && t == v % W32
    ensures t == v
  {}

  lemma Truncated(s: State, n: nat)
    requires 1 <= n <= 32
    ensures ShiftIn(s, s.x, n).isr == Entered(s.isr, s.x, n) % W32
  {}

  lemma OutIsNumber(s: State, n: nat)
    requires 1 <= n <= 32
    ensures ShiftOut(s, n).osr == s.osr / Pow2(n)
  {
    QuotientAtMost(s.osr, Pow2(n));
  }

  lemma QuotientAtMost(v: nat, d: nat)
    requires d >= 1
    ensures 0 <= v / d <= v
  {
    DivNonNegative(v, d);
    MulMono(1, d, v / d);
  }

  lemma XAfter(pins: PinMap, labels: Labels, op: Op, s: State, e: Env)
    requires op.IsJump() ==> -8 <= op.target
    ensures XDone(pins, op, s, e, After(Effect(pins, labels, op, s, e), s).x)
  {
    if op.MovXPins? {
      XSampled(pins, labels, op, s, e);
    } else if op.OutX? {
      XOut(pins, labels, op, s, e);
    } else {
      XOther(pins, labels, op, s, e);
    }
  }

  lemma XSampled(pins: PinMap, labels: Labels, op: Op, s: State, e: Env)
    requires op.MovXPins?
    ensures XDone(pins, op, s, e, After(Effect(pins, labels, op, s, e), s).x)
  {
    SampleBits(e.gpio, pins.inBase);
  }

  lemma XOther(pins: PinMap, labels: Labels, op: Op, s: State, e: Env)
    requires op.IsJump() ==> -8 <= op.target
    requires !op.MovXPins? && !op.OutX?
    ensures XDone(pins, op, s, e, After(Effect(pins, labels, op, s, e), s).x)
  {}

  lemma XOut(pins: PinMap, labels: Labels, op: Op, s: State, e: Env)
    requires op.OutX?
    ensures XDone(pins, op, s, e, After(Effect(pins, labels, op, s, e), s).x)
  {
    SameCount(op.count);
    OutIsLow(s, Moved(op.count));
  }

  lemma YAfter(pins: PinMap, labels: Labels, op: Op, s: State, e: Env)
    requires op.IsJump() ==> -8 <= op.target
    ensures YDone(op, s, After(Effect(pins, labels, op, s, e), s).y)
  {}

  lemma IsrAfter(pins: PinMap, labels: Labels, op: Op, s: State, e: Env)
    requires op.IsJump() ==> -8 <= op.target
    ensures var r := After(Effect(pins, labels, op, s, e), s);
            IsrDone(op, s, e, r.isr, r.isrCount)
  {
    if op.InX? {
      SameCount(op.count);
      InIsNumber(s, Moved(op.count));
    }
  }

  lemma OsrAfter(pins: PinMap, labels: Labels, op: Op, s: State, e: Env)
    requires op.IsJump() ==> -8 <= op.target
    ensures var r := After(Effect(pins, labels, op, s, e), s);
            OsrDone(op, s, r.osr, r.osrCount)
  {
    if op.OutX? || op.OutPins? {
      SameCount(op.count);
      OutIsNumber(s, Moved(op.count));
    }
  }

  lemma FifosAfter(pins: PinMap, labels: Labels, op: Op, s: State, e: Env)
    requires op.IsJump() ==> -8 <= op.target
    ensures FifosDone(op, s, e, After(Effect(pins, labels, op, s, e), s))
  {}

  lemma EffectRegisters(pins: PinMap, labels: Labels, op: Op, s: State, e: Env)
    requires op.IsJump() ==> -8 <= op.target
    ensures RegistersDone(pins, op, s, e, After(Effect(pins, labels, op, s, e), s))
  {
    XAfter(pins, labels, op, s, e);
    YAfter(pins, labels, op, s, e);
    IsrAfter(pins, labels, op, s, e);
    OsrAfter(pins, labels, op, s, e);
    FifosAfter(pins, labels, op, s, e);
  }

  /** Two states that differ in pins, directions and control at most. */
  predicate SameRegisters(r: State, t: State) {
    r == t.(pins := r.pins, dirs := r.dirs, pc := r.pc, delay := r.delay)
  }

  lemma RegistersOnly(pins: PinMap, op: Op, s: State, e: Env, r: State, t: State)
    requires RegistersDone(pins, op, s, e, r) && SameRegisters(r, t)
    ensures RegistersDone(pins, op, s, e, t)
  {}

  lemma PerformKeeps(pins: PinMap, p: Program, s: State, e: Env)
    requires p.Valid() && s.pc < |p.stmts|
    ensures SameRegisters(After(Effect(pins, p.labels, p.stmts[s.pc].op, s, e), s), Perform(pins, p, s, e))
  {
    var st := p.stmts[s.pc];
    SideKeeps(pins, p.mode, st.side, MidOf(p, st, s, Effect(pins, p.labels, st.op, s, e)));
  }

  lemma RegistersAfter(pins: PinMap, p: Program, s: State, e: Env)
    requires p.Valid() && s.pc < |p.stmts|
    ensures RegistersDone(pins, p.stmts[s.pc].op, s, e, Perform(pins, p, s, e))
  {
    var op := p.stmts[s.pc].op;
    EffectRegisters(pins, p.labels, op, s, e);
    PerformKeeps(pins, p, s, e);
    RegistersOnly(pins, op, s, e, After(Effect(pins, p.labels, op, s, e), s), Perform(pins, p, s, e));
  }

  /** Side-set writes levels and directions only. */
  lemma SideKeeps(pins: PinMap, mode: SideMode, side: int, s: State)
    ensures ApplySide(pins, mode, side, s)
            == s.(pins := ApplySide(pins, mode, side, s).pins, dirs := ApplySide(pins, mode, side, s).dirs)
  {}

  // --- control --------------------------------------------------------------------------------

  predicate Taken(pins: PinMap, op: Op, s: State, e: Env) {
    match op
    case JmpAlways(_) => true
    case JmpNotX(_) => s.x == 0
    case JmpXDec(_) => s.x > 0
    case JmpNotY(_) => s.y == 0
    case JmpYDec(_) => s.y > 0
    case JmpPin(_) => e.gpio[pins.jmpPin]
    case _ => false
  }

  /** A waiting statement is issued again; otherwise the jump, the next statement or the first one. */
  ghost predicate ControlDone(pins: PinMap, p: Program, s: State, e: Env, r: State)
    requires p.Valid() && s.pc < |p.stmts|
  {
    var st := p.stmts[s.pc];
    if Waits(st.op, s, e) then r.pc == s.pc && r.delay == s.delay
    else
      && r.delay == st.delay % Pow2(5 - p.mode.count - if p.mode.optional then 1 else 0)
      && r.pc == if !Taken(pins, st.op, s, e) then (s.pc + 1) % |p.stmts|
                 else if st.op.target >= 0 then st.op.target
                 else p.labels[-1 - st.op.target]
  }

  lemma NextStatement(pc: nat, n: nat)
    requires pc < n
    ensures (pc + 1) % n == if pc == n - 1 then 0 else pc + 1
  {}

  lemma EffectControl(pins: PinMap, labels: Labels, op: Op, s: State, e: Env)
    requires op.IsJump() ==> -8 <= op.target
    ensures var o := Effect(pins, labels, op, s, e);
            && o.Stall? == Waits(op, s, e)
            && (o.Next? ==> o.target == if Taken(pins, op, s, e) then Some(Address(labels, op.target)) else None)
  {}

  lemma JumpsTo(p: Program, target: int)
    requires p.Valid() && p.InProgram(target)
    ensures Address(p.labels, target) == if target >= 0 then target else p.labels[-1 - target]
  {}

  lemma ControlAfter(pins: PinMap, p: Program, s: State, e: Env)
    requires p.Valid() && s.pc < |p.stmts|
    ensures ControlDone(pins, p, s, e, Perform(pins, p, s, e))
  {
    var st := p.stmts[s.pc];
    var o := Effect(pins, p.labels, st.op, s, e);
    NextStatement(s.pc, |p.stmts|);
    EffectControl(pins, p.labels, st.op, s, e);
    if st.op.IsJump() { JumpsTo(p, st.op.target); }
    SideKeeps(pins, p.mode, st.side, MidOf(p, st, s, o));
  }

  // --- cycles ---------------------------------------------------------------------------------

  /** The FIFOs after the core's accesses of one cycle: four words fit the one it writes. */
  function AfterCore(s: State, e: Env): State {
    s.(rx := if e.pop && |s.rx| > 0 then s.rx[1..] else s.rx,
       tx := if e.push.Some? && |s.tx| < 4 then s.tx + [e.push.value] else s.tx)
  }

  /** One cycle took `s` to `r`: a delay cycle, or the whole effect of the statement at `pc`. */
  ghost predicate CycleDone(pins: PinMap, p: Program, s: State, e: Env, r: State)
    requires p.Valid() && s.pc < |p.stmts|
  {
    var h := AfterCore(s, e);
    if s.delay > 0 then r == h.(delay := s.delay - 1)
    else
      && PinsDone(pins, p.mode, p.stmts[s.pc], h, r)
      && RegistersDone(pins, p.stmts[s.pc].op, h, e, r)
      && ControlDone(pins, p, h, e, r)
  }

  lemma CycleDoes(pins: PinMap, p: Program, s: State, e: Env)
    requires p.Valid() && s.pc < |p.stmts|
    ensures CycleDone(pins, p, s, e, SourceCycle(pins, p, s, e))
  {
    var h := AfterCore(s, e);
    assert Host(s, e) == h;
    if s.delay == 0 {
      PinsAfter(pins, p, h, e);
      RegistersAfter(pins, p, h, e);
      ControlAfter(pins, p, h, e);
    }
  }

  /** A cycle of the machine on the assembled words does what the statement at `pc` says. */
  lemma MachineDoes(p: Program, pins: PinMap, mem: Memory, s: State, e: Env)
    requires p.Valid() && s.pc < |p.stmts|
    requires Assemble(p) <= mem
    ensures CycleDone(pins, p, s, e, Cycle(ConfigFor(p, pins), mem, s, e))
  {
    SameCycle(p, pins, mem, s, e);
    CycleDoes(pins, p, s, e);
  }

  /** And no run ever leaves the program, so this holds of its every cycle. */
  lemma EveryCycleDoes(p: Program, pins: PinMap, mem: Memory, s: State, env: nat -> Env, from: nat, n: nat)
    requires p.Valid() && s.pc < |p.stmts|
    requires Assemble(p) <= mem
    ensures Run(ConfigFor(p, pins), mem, s, env, from, n).pc < |p.stmts|
    ensures CycleDone(pins, p, Run(ConfigFor(p, pins), mem, s, env, from, n), env(from + n),
                      Run(ConfigFor(p, pins), mem, s, env, from, n + 1))
  {
    var now := Run(ConfigFor(p, pins), mem, s, env, from, n);
    MeaningPreserved(p, pins, mem, s, env, from, n);
    RunStep(ConfigFor(p, pins), mem, s, env, from, n + 1);
    MachineDoes(p, pins, mem, now, env(from + n));
  }
}
