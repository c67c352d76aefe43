/**
  One PIO state machine, cycle by cycle, over 16-bit instruction words: section 3.4 and section 3.5.1
  of the RP2040 Datasheet. SHIFTCTRL keeps its reset value (both shifts to the right, no autopush,
  no autopull, thresholds of 32), because nothing in `src/pico/pio.mojo` writes it.
 */
module PioMachine {
  import opened Words

  type Pc = n: nat | n < 32
  type Levels = s: seq<bool> | |s| == 32 witness seq(32, _ => false)

  type Memory = s: seq<u16> | |s| == 32 witness seq(32, _ => 0)

  /** The pin groups an instruction can reach, as PINCTRL and EXECCTRL name them. */
  datatype PinMap = PinMap(inBase: Pc, outBase: Pc, outCount: nat, setBase: Pc, setCount: nat,
                           sideBase: Pc, jmpPin: Pc)

  /** `sideCount` is PINCTRL.SIDESET_COUNT: it includes the enable bit when `sideEn` is set. */
  datatype Config = Config(wrapBottom: Pc, wrapTop: Pc, sideEn: bool, sidePindir: bool,
                           sideCount: nat, pins: PinMap) {
    /** The reserved counts 6 and 7 are read as 5. */
    function Width(): nat { Min(5, sideCount) }
  }

  /** `pushed` is history: every word that ever entered the RX FIFO. */
  datatype State = State(pc: Pc, x: u32, y: u32, isr: u32, isrCount: nat, osr: u32, osrCount: nat,
                         pins: Levels, dirs: Levels, tx: seq<u32>, rx: seq<u32>, delay: nat, pushed: seq<u32>)

  /** What reaches the state machine in one cycle: pad levels and the core's FIFO accesses. */
  datatype Env = Env(gpio: Levels, pop: bool, push: Option<u32>)

  datatype Outcome = Stall | Next(s: State, target: Option<Pc>)

  const FIFO_DEPTH: nat := 4

  // --- instruction words ----------------------------------------------------------------------

  datatype Instr =
    | Jmp(cond: nat, addr: Pc)
    | Wait(polarity: bool, gpio: Pc)
    | In(source: nat, count: nat)
    | Out(dest: nat, count: nat)
    | Push(ifFull: bool, block: bool)
    | Pull(ifEmpty: bool, block: bool)
    | Mov(dest: nat, invert: bool, source: nat)
    | Other
    | Set(dest: nat, data: Pc)

  function Decode(w: u16): Instr {
    Select(w / 8192, w / 32 % 8, w % 32)
  }

  /**
    The instruction with opcode bits 15:13, operand bits 7:5 and low bits 4:0. Words with a reserved bit
    or field that is not clear are `Other`, and so are IRQ, WAIT on anything but an absolute GPIO, MOV with
    bit reversal, and the STATUS source.
   */
  function Select(opcode: nat, operand: nat, low: Pc): Instr {
    if opcode == 0 then Jmp(operand, low)
    else if opcode == 1 then
      if operand % 4 == 0 then Wait(operand == 4, low) else Other
    else if opcode == 2 then
      if operand == 4 || operand == 5 then Other else In(operand, low)
    else if opcode == 3 then Out(operand, low)
    else if opcode == 4 then
      if low != 0 then Other
      else if operand < 4 then Push(operand / 2 == 1, operand % 2 == 1)
      else Pull(operand / 2 == 3, operand % 2 == 1)
    else if opcode == 5 then
      if low / 8 >= 2 || low % 8 == 4 || low % 8 == 5 then Other else Mov(operand, low / 8 == 1, low % 8)
    else if opcode == 6 then Other
    else Set(operand, low)
  }

  /** Bits 12:8: the low `5 - sideCount` bits are the delay. */
  function DecodeDelay(cfg: Config, w: u16): nat
  {
    LowBits(w / 256 % 32, 5 - cfg.Width())
  }

  /** Bits 12:8: the high `sideCount` bits are side-set, led by an enable bit when `sideEn` is set. */
  function DecodeSide(cfg: Config, w: u16): Option<nat>
  {
    var bits := Shr(w / 256 % 32, 5 - cfg.Width());
    if cfg.Width() == 0 then None
    else if !cfg.sideEn then Some(bits)
    else if Shr(bits, cfg.Width() - 1) == 1 then Some(LowBits(bits, cfg.Width() - 1))
    else None
  }

  // --- data path ------------------------------------------------------------------------------

  /** Replace `count` pins from `base` up, wrapping at 32, by the low bits of `value`. */
  function Drive(levels: Levels, base: Pc, count: nat, value: nat): Levels {
    seq(32, i requires 0 <= i < 32 =>
          var k := (i - base) % 32;
          if k < count then Bit(value, k) else levels[i])
  }

  /** The 32 pad inputs as a word, rotated so that `base` is bit 0. */
  function Sample(gpio: Levels, base: Pc): u32 {
    Pow2Of32();
    FromBits(seq(32, i requires 0 <= i < 32 => gpio[(base + i) % 32]))
  }

  /** A 5-bit count field, where 0 stands for 32. */
  function Count(field: nat): nat {
    if field == 0 then 32 else field
  }

  /** Shift `n` low bits of `data` into the ISR from the left. */
  function ShiftIn(s: State, data: u32, n: nat): State
    requires 1 <= n <= 32
  {
    s.(isr := Trunc(Shr(s.isr, n) + Shl(LowBits(data, n), 32 - n)), isrCount := Min(32, s.isrCount + n))
  }

  /** The `n` low bits of the OSR, which the shift removes. */
  function OutData(s: State, n: nat): u32
    requires 1 <= n <= 32
  {
    Trunc(LowBits(s.osr, n))
  }

  function ShiftOut(s: State, n: nat): State
    requires 1 <= n <= 32
  {
    s.(osr := Trunc(Shr(s.osr, n)), osrCount := Min(32, s.osrCount + n))
  }

  function PushIsr(s: State): State {
    s.(rx := s.rx + [s.isr], pushed := s.pushed + [s.isr], isr := 0, isrCount := 0)
  }

  function PullWord(s: State): State
    requires s.tx != []
  {
    s.(osr := s.tx[0], tx := s.tx[1..], osrCount := 0)
  }

  /** The core's side of the FIFOs: pop the RX FIFO if it holds a word, push the TX FIFO if it has room. */
  function Host(s: State, e: Env): State {
    var s1 := if e.pop && s.rx != [] then s.(rx := s.rx[1..]) else s;
    if e.push.Some? && |s1.tx| < FIFO_DEPTH then s1.(tx := s1.tx + [e.push.value]) else s1
  }

  // --- execution ------------------------------------------------------------------------------

  function Dec(v: u32): u32 { Trunc(v - 1) }

  function Continue(s: State): Outcome { Next(s, None) }

  function Branch(s: State, taken: bool, addr: Pc): Outcome {
    Next(s, if taken then Some(addr) else None)
  }

  function Source(cfg: Config, s: State, e: Env, source: nat): u32 {
    match source
    case 0 => Sample(e.gpio, cfg.pins.inBase)
    case 1 => s.x
    case 2 => s.y
    case 6 => s.isr
    case 7 => s.osr
    case _ => 0
  }

  /** Words the model does not interpret stall for good; the assembler emits none of them. */
  function Execute(cfg: Config, i: Instr, s: State, e: Env): Outcome
    requires i.In? || i.Out? ==> i.count < 32
  {
    match i
    case Jmp(cond, addr) =>
      (match cond
       case 0 => Branch(s, true, addr)
       case 1 => Branch(s, s.x == 0, addr)
       case 2 => Branch(s.(x := Dec(s.x)), s.x != 0, addr)
       case 3 => Branch(s, s.y == 0, addr)
       case 4 => Branch(s.(y := Dec(s.y)), s.y != 0, addr)
       case 5 => Branch(s, s.x != s.y, addr)
       case 6 => Branch(s, e.gpio[cfg.pins.jmpPin], addr)
       case _ => Branch(s, s.osrCount < 32, addr))
    case Wait(polarity, gpio) => if e.gpio[gpio] == polarity then Continue(s) else Stall
    case In(source, count) => Continue(ShiftIn(s, Source(cfg, s, e, source), Count(count)))
    case Out(dest, count) =>
      var data := OutData(s, Count(count));
      var s1 := ShiftOut(s, Count(count));
      (match dest
       case 0 => Continue(s1.(pins := Drive(s1.pins, cfg.pins.outBase, cfg.pins.outCount, data)))
       case 1 => Continue(s1.(x := data))
       case 2 => Continue(s1.(y := data))
       case 3 => Continue(s1)
       case 4 => Continue(s1.(dirs := Drive(s1.dirs, cfg.pins.outBase, cfg.pins.outCount, data)))
       case 5 => Branch(s1, true, data % 32)
       case 6 => Continue(s1.(isr := data, isrCount := Count(count)))
       case _ => Stall)
    case Push(ifFull, block) =>
      if ifFull && s.isrCount < 32 then Continue(s)
      else if |s.rx| < FIFO_DEPTH then Continue(PushIsr(s))
      else if block then Stall
      else Continue(s.(isr := 0, isrCount := 0))
    case Pull(ifEmpty, block) =>
      if ifEmpty && s.osrCount < 32 then Continue(s)
      else if s.tx != [] then Continue(PullWord(s))
      else if block then Stall
      else Continue(s.(osr := s.x, osrCount := 0))
    case Mov(dest, invert, source) =>
      var v := Source(cfg, s, e, source);
      var data: u32 := if invert then W32 - 1 - v else v;
      (match dest
       case 0 => Continue(s.(pins := Drive(s.pins, cfg.pins.outBase, cfg.pins.outCount, data)))
       case 1 => Continue(s.(x := data))
       case 2 => Continue(s.(y := data))
       case 5 => Branch(s, true, data % 32)
       case 6 => Continue(s.(isr := data, isrCount := 0))
       case 7 => Continue(s.(osr := data, osrCount := 0))
       case _ => Stall)
    case Other => Stall
    case Set(dest, data) =>
      match dest
      case 0 => Continue(s.(pins := Drive(s.pins, cfg.pins.setBase, cfg.pins.setCount, data)))
      case 1 => Continue(s.(x := data))
      case 2 => Continue(s.(y := data))
      case 4 => Continue(s.(dirs := Drive(s.dirs, cfg.pins.setBase, cfg.pins.setCount, data)))
      case _ => Stall
  }

  /** Side-set drives its pins in the issuing cycle, stalled or not, and wins over OUT and SET. */
  function SideSet(cfg: Config, s: State, side: Option<nat>): State
  {
    if side.None? then s
    else
      var count := if cfg.sideEn && cfg.Width() > 0 then cfg.Width() - 1 else cfg.Width();
      if cfg.sidePindir then s.(dirs := Drive(s.dirs, cfg.pins.sideBase, count, side.value))
      else s.(pins := Drive(s.pins, cfg.pins.sideBase, count, side.value))
  }

  /** What an issue leaves behind: side-set, and unless it stalls the next `pc` and the delay. */
  function Finish(cfg: Config, s: State, o: Outcome, delay: nat, side: Option<nat>): State
  {
    match o
    case Stall => SideSet(cfg, s, side)
    case Next(s1, target) =>
      var pc := if target.Some? then target.value
                else if s.pc == cfg.wrapTop then cfg.wrapBottom
                else (s.pc + 1) % 32;
      SideSet(cfg, s1.(pc := pc, delay := delay), side)
  }

  /** Issue the instruction word `w`, which was fetched from `s.pc`. */
  function Issue(cfg: Config, w: u16, s: State, e: Env): State
  {
    Finish(cfg, s, Execute(cfg, Decode(w), s, e), DecodeDelay(cfg, w), DecodeSide(cfg, w))
  }

  /** One clock cycle: a delay cycle, or an issue. */
  function Cycle(cfg: Config, mem: Memory, s0: State, e: Env): State
  {
    var s := Host(s0, e);
    if s.delay > 0 then s.(delay := s.delay - 1) else Issue(cfg, mem[s.pc], s, e)
  }

  function Machine(cfg: Config, mem: Memory): (State, Env) -> State {
    (s: State, e: Env) => Cycle(cfg, mem, s, e)
  }

  /** The state after `n` cycles that began at time `from`. */
  function Run(cfg: Config, mem: Memory, s: State, env: nat -> Env, from: nat, n: nat): State {
    Iterate(Machine(cfg, mem), s, env, from, n)
  }
}
