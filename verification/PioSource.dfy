/**
  The language of `Asm` calls: what a program means before it is assembled, and what a two-pass
  assembler that knew every label address in advance would emit for it.
 */
module PioSource {
  import opened Words
  import opened PioMachine

  /** One emitting call. A jump target is a `label()` address, or a negative `future()` handle. */
  datatype Op =
    | SetPins(value: int) | SetPindirs(value: int) | SetX(value: int) | SetY(value: int)
    | JmpAlways(target: int) | JmpNotX(target: int) | JmpXDec(target: int)
    | JmpNotY(target: int) | JmpYDec(target: int) | JmpPin(target: int)
    | WaitGpio(polarity: int, gpio: int)
    | InX(count: int) | PushBlock
    | OutPins(count: int) | OutX(count: int) | PullBlock | PullNoblock
    | MovPinsX | MovXPins | MovXNotNull | Nop
  {
    predicate IsJump() {
      JmpAlways? || JmpNotX? || JmpXDec? || JmpNotY? || JmpYDec? || JmpPin?
    }
  }

  datatype Stmt = Stmt(op: Op, delay: int, side: int)

  /** The argument of `side_set`: `Width` bits of the delay field are reserved. */
  datatype SideMode = SideMode(count: nat, optional: bool, pindirs: bool) {
    function Width(): nat { count + if optional then 1 else 0 }
  }

  type Labels = s: seq<int> | |s| == 8 witness [0, 0, 0, 0, 0, 0, 0, 0]

  datatype Program = Program(stmts: seq<Stmt>, labels: Labels, mode: SideMode) {
    /** At most 32 instructions, a legal side-set mode, and every jump lands inside the program. */
    predicate Valid() {
      && 1 <= |stmts| <= 32
      && mode.Width() <= 5
      && forall i :: 0 <= i < |stmts| && stmts[i].op.IsJump() ==> InProgram(stmts[i].op.target)
    }

    predicate InProgram(target: int) {
      -8 <= target && 0 <= Resolve(labels, target) < |stmts|
    }
  }

  function Resolve(labels: Labels, target: int): int
    requires -8 <= target
  {
    if target < 0 then labels[-target - 1] else target
  }

  // --- meaning of the source ------------------------------------------------------------------

  function DelayOf(mode: SideMode, delay: int): nat
    requires mode.Width() <= 5
  {
    LowBits(delay, 5 - mode.Width())
  }

  /** The pins a statement drives beside its own effect; a mandatory side-set left out drives 0. */
  function SideOf(mode: SideMode, side: int): Option<nat> {
    if mode.count == 0 then None
    else if side >= 0 then Some(LowBits(side, mode.count))
    else if mode.optional then None
    else Some(0)
  }

  function ApplySide(pins: PinMap, mode: SideMode, side: int, s: State): State {
    match SideOf(mode, side)
    case None => s
    case Some(v) =>
      if mode.pindirs then s.(dirs := Drive(s.dirs, pins.sideBase, mode.count, v))
      else s.(pins := Drive(s.pins, pins.sideBase, mode.count, v))
  }

  function ShiftCount(count: int): nat {
    if count % 32 == 0 then 32 else count % 32
  }

  function Address(labels: Labels, target: int): Pc
    requires -8 <= target
  {
    Resolve(labels, target) % 32
  }

  function Effect(pins: PinMap, labels: Labels, op: Op, s: State, e: Env): Outcome
    requires op.IsJump() ==> -8 <= op.target
  {
    match op
    case SetPins(v) => Continue(s.(pins := Drive(s.pins, pins.setBase, pins.setCount, v % 32)))
    case SetPindirs(v) => Continue(s.(dirs := Drive(s.dirs, pins.setBase, pins.setCount, v % 32)))
    case SetX(v) => Continue(s.(x := v % 32))
    case SetY(v) => Continue(s.(y := v % 32))
    case JmpAlways(t) => Branch(s, true, Address(labels, t))
    case JmpNotX(t) => Branch(s, s.x == 0, Address(labels, t))
    case JmpXDec(t) => Branch(s.(x := Dec(s.x)), s.x != 0, Address(labels, t))
    case JmpNotY(t) => Branch(s, s.y == 0, Address(labels, t))
    case JmpYDec(t) => Branch(s.(y := Dec(s.y)), s.y != 0, Address(labels, t))
    case JmpPin(t) => Branch(s, e.gpio[pins.jmpPin], Address(labels, t))
    case WaitGpio(polarity, gpio) =>
      if e.gpio[gpio % 32] == (polarity % 2 == 1) then Continue(s) else Stall
    case InX(count) => Continue(ShiftIn(s, s.x, ShiftCount(count)))
    case PushBlock => if |s.rx| < FIFO_DEPTH then Continue(PushIsr(s)) else Stall
    case OutPins(count) =>
      var n := ShiftCount(count);
      var s1 := ShiftOut(s, n);
      Continue(s1.(pins := Drive(s.pins, pins.outBase, pins.outCount, OutData(s, n))))
    case OutX(count) =>
      var n := ShiftCount(count);
      Continue(ShiftOut(s, n).(x := OutData(s, n)))
    case PullBlock => if s.tx != [] then Continue(PullWord(s)) else Stall
    case PullNoblock =>
      if s.tx != [] then Continue(PullWord(s)) else Continue(s.(osr := s.x, osrCount := 0))
    case MovPinsX => Continue(s.(pins := Drive(s.pins, pins.outBase, pins.outCount, s.x)))
    case MovXPins => Continue(s.(x := Sample(e.gpio, pins.inBase)))
    case MovXNotNull => Continue(s.(x := W32 - 1))
    case Nop => Continue(s)
  }

  /** Where control goes and which side pins move; the program starts over after its last statement. */
  function FinishStmt(pins: PinMap, p: Program, st: Stmt, s: State, o: Outcome): State
    requires p.Valid() && s.pc < |p.stmts|
  {
    match o
    case Stall => ApplySide(pins, p.mode, st.side, s)
    case Next(s1, target) =>
      var pc := if target.Some? then target.value
                else if s.pc == |p.stmts| - 1 then 0
                else s.pc + 1;
      ApplySide(pins, p.mode, st.side, s1.(pc := pc, delay := DelayOf(p.mode, st.delay)))
  }

  /** Perform statement `s.pc`. */
  function Perform(pins: PinMap, p: Program, s: State, e: Env): (r: State)
    requires p.Valid() && s.pc < |p.stmts|
    ensures r.pc < |p.stmts|
  {
    var st := p.stmts[s.pc];
    FinishStmt(pins, p, st, s, Effect(pins, p.labels, st.op, s, e))
  }

  /** One cycle of the labelled program. */
  function SourceCycle(pins: PinMap, p: Program, s0: State, e: Env): (r: State)
    requires p.Valid() && s0.pc < |p.stmts|
    ensures r.pc < |p.stmts|
  {
    var s := Host(s0, e);
    if s.delay > 0 then s.(delay := s.delay - 1) else Perform(pins, p, s, e)
  }

  function SourceRun(pins: PinMap, p: Program, s: State, env: nat -> Env, from: nat, n: nat): (r: State)
    requires p.Valid() && s.pc < |p.stmts|
    ensures r.pc < |p.stmts|
  {
    if n == 0 then s
    else SourceCycle(pins, p, SourceRun(pins, p, s, env, from, n - 1), env(from + n - 1))
  }

  // --- the two-pass assembler -----------------------------------------------------------------

  /** The word of `op` with bits 12:8 clear, given the address a jump goes to. */
  function OpBits(op: Op, address: int): u16 {
    match op
    case SetPins(v) => 0xE000 + v % 32
    case SetPindirs(v) => 0xE080 + v % 32
    case SetX(v) => 0xE020 + v % 32
    case SetY(v) => 0xE040 + v % 32
    case JmpAlways(_) => 0x0000 + address % 32
    case JmpNotX(_) => 0x0020 + address % 32
    case JmpXDec(_) => 0x0040 + address % 32
    case JmpNotY(_) => 0x0060 + address % 32
    case JmpYDec(_) => 0x0080 + address % 32
    case JmpPin(_) => 0x00C0 + address % 32
    case WaitGpio(polarity, gpio) => 0x2000 + polarity % 2 * 128 + gpio % 32
    case InX(count) => 0x4020 + count % 32
    case PushBlock => 0x8020
    case OutPins(count) => 0x6000 + count % 32
    case OutX(count) => 0x6020 + count % 32
    case PullBlock => 0x80A0
    case PullNoblock => 0x8080
    case MovPinsX => 0xA001
    case MovXPins => 0xA020
    case MovXNotNull => 0xA02B
    case Nop => 0xA042
  }

  function SideBits(mode: SideMode, side: int): nat
    requires mode.Width() <= 5
  {
    if mode.count == 0 || side < 0 then 0
    else if mode.optional then 16 + Shl(LowBits(side, mode.count), 4 - mode.count)
    else Shl(LowBits(side, mode.count), 5 - mode.count)
  }

  /** Bits 12:8 of a statement. */
  function Field(mode: SideMode, delay: int, side: int): (f: nat)
    requires mode.Width() <= 5
    ensures f < 32
  {
    FieldBound(mode, delay, side);
    DelayOf(mode, delay) + SideBits(mode, side)
  }

  lemma FieldBound(mode: SideMode, delay: int, side: int)
    requires mode.Width() <= 5
    ensures DelayOf(mode, delay) + SideBits(mode, side) < 32
  {
    Pow2Small();
    match mode.count
    case 0 => case 1 => case 2 => case 3 => case 4 => case 5 =>
  }

  lemma Pow2Small()
    ensures Pow2(0) == 1 && Pow2(1) == 2 && Pow2(2) == 4 && Pow2(3) == 8 && Pow2(4) == 16 && Pow2(5) == 32
  {}

  function Encode(mode: SideMode, st: Stmt, address: int): u16
    requires mode.Width() <= 5
  {
    OpBits(st.op, address) + Field(mode, st.delay, st.side) * 256
  }

  /** The address field of a statement's word: 0 unless it is a jump. */
  function AddressOf(labels: Labels, op: Op): int
    requires op.IsJump() ==> -8 <= op.target
  {
    if op.IsJump() then Resolve(labels, op.target) else 0
  }

  /** The whole program, assembled with every label known. */
  function Assemble(p: Program): (code: seq<u16>)
    requires p.Valid()
    ensures |code| == |p.stmts|
  {
    seq(|p.stmts|, i requires 0 <= i < |p.stmts| =>
          Encode(p.mode, p.stmts[i], AddressOf(p.labels, p.stmts[i].op)))
  }
}
