/**
  Assembly preserves meaning: the emitted words, run on the PIO machine, and the labelled source
  program go through the same states, cycle by cycle, whatever the pads and the core do.
 */
module PioMeaning {
  import opened Words
  import opened PioMachine
  import opened PioSource

  /** The configuration that `StateMachine.load` sets up for a program. */
  function ConfigFor(p: Program, pins: PinMap): Config
    requires p.Valid()
  {
    Config(0, |p.stmts| - 1, p.mode.optional, p.mode.pindirs, p.mode.Width(), pins)
  }

  /** The machine instruction that an operation stands for. */
  function Lower(op: Op, address: int): Instr {
    match op
    case SetPins(v) => Set(0, v % 32)
    case SetPindirs(v) => Set(4, v % 32)
    case SetX(v) => Set(1, v % 32)
    case SetY(v) => Set(2, v % 32)
    case JmpAlways(_) => Jmp(0, address % 32)
    case JmpNotX(_) => Jmp(1, address % 32)
    case JmpXDec(_) => Jmp(2, address % 32)
    case JmpNotY(_) => Jmp(3, address % 32)
    case JmpYDec(_) => Jmp(4, address % 32)
    case JmpPin(_) => Jmp(6, address % 32)
    case WaitGpio(polarity, gpio) => Wait(polarity % 2 == 1, gpio % 32)
    case InX(count) => In(1, count % 32)
    case PushBlock => Push(false, true)
    case OutPins(count) => Out(0, count % 32)
    case OutX(count) => Out(1, count % 32)
    case PullBlock => Pull(false, true)
    case PullNoblock => Pull(false, false)
    case MovPinsX => Mov(0, false, 1)
    case MovXPins => Mov(1, false, 0)
    case MovXNotNull => Mov(1, true, 3)
    case Nop => Mov(2, false, 2)
  }

  /** A word is its opcode, delay/side-set, operand and low fields. */
  lemma Fields(opcode: nat, field: nat, operand: nat, low: nat)
    requires opcode < 8 && field < 32 && operand < 8 && low < 32
    ensures var w := opcode * 8192 + field * 256 + operand * 32 + low;
            w / 8192 == opcode && w / 256 % 32 == field && w / 32 % 8 == operand && w % 32 == low
  {
    var w := opcode * 8192 + field * 256 + operand * 32 + low;
    assert w / 256 == opcode * 32 + field;
    assert w / 32 == (opcode * 32 + field) * 8 + operand;
  }

  /** Opcode, operand and low field of an operation. */
  function Parts(op: Op, address: int): (nat, nat, Pc) {
    match op
    case SetPins(v) => (7, 0, v % 32)
    case SetPindirs(v) => (7, 4, v % 32)
    case SetX(v) => (7, 1, v % 32)
    case SetY(v) => (7, 2, v % 32)
    case JmpAlways(_) => (0, 0, address % 32)
    case JmpNotX(_) => (0, 1, address % 32)
    case JmpXDec(_) => (0, 2, address % 32)
    case JmpNotY(_) => (0, 3, address % 32)
    case JmpYDec(_) => (0, 4, address % 32)
    case JmpPin(_) => (0, 6, address % 32)
    case WaitGpio(polarity, gpio) => (1, polarity % 2 * 4, gpio % 32)
    case InX(count) => (2, 1, count % 32)
    case PushBlock => (4, 1, 0)
    case OutPins(count) => (3, 0, count % 32)
    case OutX(count) => (3, 1, count % 32)
    case PullBlock => (4, 5, 0)
    case PullNoblock => (4, 4, 0)
    case MovPinsX => (5, 0, 1)
    case MovXPins => (5, 1, 0)
    case MovXNotNull => (5, 1, 11)
    case Nop => (5, 2, 2)
  }

  lemma OpParts(op: Op, address: int)
    ensures var (opcode, operand, low) := Parts(op, address);
            && opcode < 8 && operand < 8
            && OpBits(op, address) == opcode * 8192 + operand * 32 + low
            && Lower(op, address) == Select(opcode, operand, low)
  {}

  /** Bits 12:8, with `hi` above `k` delay bits. */
  lemma SplitField(f: nat, hi: nat, lo: nat, k: nat)
    requires lo < Pow2(k) && f == hi * Pow2(k) + lo
    ensures LowBits(f, k) == lo && Shr(f, k) == hi
  {
    DivMod(f, Pow2(k), hi, lo);
  }

  /** The bits above the delay: the side value, led by an enable bit in optional mode. */
  function SideHigh(mode: SideMode, side: int): nat {
    if mode.count == 0 || side < 0 then 0
    else if mode.optional then Pow2(mode.count) + LowBits(side, mode.count)
    else LowBits(side, mode.count)
  }

  lemma SideShifted(mode: SideMode, side: int)
    requires mode.Width() <= 5
    ensures SideBits(mode, side) == SideHigh(mode, side) * Pow2(5 - mode.Width())
  {
    if mode.count > 0 && side >= 0 && mode.optional {
      Pow2Split(mode.count, LowBits(side, mode.count));
    }
  }

  lemma SplitHigh(mode: SideMode, side: int)
    requires mode.optional
    ensures Shr(SideHigh(mode, side), mode.count) == if mode.count > 0 && side >= 0 then 1 else 0
    ensures mode.count > 0 && side >= 0 ==> LowBits(SideHigh(mode, side), mode.count) == LowBits(side, mode.count)
  {
    if mode.count > 0 && side >= 0 {
      SplitField(SideHigh(mode, side), 1, LowBits(side, mode.count), mode.count);
    } else {
      SplitField(0, 0, 0, mode.count);
    }
  }

  lemma DecodeField(cfg: Config, w: u16, mode: SideMode, delay: int, side: int)
    requires mode.Width() <= 5
    requires cfg.sideCount == mode.Width() && cfg.sideEn == mode.optional
    requires w / 256 % 32 == Field(mode, delay, side)
    ensures DecodeDelay(cfg, w) == DelayOf(mode, delay)
    ensures DecodeSide(cfg, w) == SideOf(mode, side)
  {
    SideShifted(mode, side);
    SplitField(Field(mode, delay, side), SideHigh(mode, side), DelayOf(mode, delay), 5 - mode.Width());
    if mode.optional {
      SplitHigh(mode, side);
    }
  }

  lemma Pow2Split(c: nat, sv: nat)
    requires c <= 4
    ensures 16 + Shl(sv, 4 - c) == (Pow2(c) + sv) * Pow2(4 - c)
  {
    Pow2Small();
    match c
    case 0 => case 1 => case 2 => case 3 => case 4 =>
  }

  /** Decoding an emitted word gives back the instruction, the delay and the side value. */
  lemma DecodeRoundTrip(cfg: Config, mode: SideMode, st: Stmt, address: int)
    requires mode.Width() <= 5
    requires cfg.sideCount == mode.Width() && cfg.sideEn == mode.optional
    ensures var w := Encode(mode, st, address);
            && Decode(w) == Lower(st.op, address)
            && DecodeDelay(cfg, w) == DelayOf(mode, st.delay)
            && DecodeSide(cfg, w) == SideOf(mode, st.side)
  {
    var field := Field(mode, st.delay, st.side);
    var (opcode, operand, low) := Parts(st.op, address);
    OpParts(st.op, address);
    Fields(opcode, field, operand, low);
    DecodeField(cfg, Encode(mode, st, address), mode, st.delay, st.side);
  }

  /** Operands that fit their fields come back as they were given. */
  lemma InRangeOperands(mode: SideMode, delay: int, side: int)
    requires mode.Width() <= 5
    requires 0 <= delay < Pow2(5 - mode.Width()) && side < Pow2(mode.count)
    ensures DelayOf(mode, delay) == delay
    ensures mode.count > 0 && side >= 0 ==> SideOf(mode, side) == Some(side)
    ensures mode.count > 0 && side < 0 ==> SideOf(mode, side) == if mode.optional then None else Some(0)
  {
    SmallMod(delay, Pow2(5 - mode.Width()));
    if side >= 0 {
      SmallMod(side, Pow2(mode.count));
    }
  }

  /** The words of the operations, as numbers. */
  lemma SetWords()
    ensures OpBits(SetPins(1), 0) == 0xE001 && OpBits(SetPindirs(1), 0) == 0xE081
    ensures OpBits(SetX(29), 0) == 0xE03D && OpBits(SetY(7), 0) == 0xE047
  {}

  lemma JumpWords(to: int)
    ensures OpBits(JmpAlways(to), 5) == 0x0005 && OpBits(JmpNotX(to), 5) == 0x0025
    ensures OpBits(JmpXDec(to), 5) == 0x0045 && OpBits(JmpNotY(to), 5) == 0x0065
    ensures OpBits(JmpYDec(to), 5) == 0x0085 && OpBits(JmpPin(to), 5) == 0x00C5
  {}

  lemma ShiftWords()
    ensures OpBits(WaitGpio(1, 17), 0) == 0x2091 && OpBits(WaitGpio(0, 15), 0) == 0x200F
    ensures OpBits(InX(32), 0) == 0x4020 && OpBits(InX(8), 0) == 0x4028
    ensures OpBits(OutPins(8), 0) == 0x6008 && OpBits(OutX(32), 0) == 0x6020
  {}

  lemma OtherWords()
    ensures OpBits(Op.PushBlock, 0) == 0x8020
    ensures OpBits(Op.PullBlock, 0) == 0x80A0 && OpBits(Op.PullNoblock, 0) == 0x8080
    ensures OpBits(Op.MovPinsX, 0) == 0xA001 && OpBits(Op.MovXPins, 0) == 0xA020
    ensures OpBits(Op.MovXNotNull, 0) == 0xA02B && OpBits(Op.Nop, 0) == 0xA042
  {}

  lemma SameEffect(cfg: Config, labels: Labels, op: Op, s: State, e: Env)
    requires op.IsJump() ==> -8 <= op.target
    ensures Execute(cfg, Lower(op, AddressOf(labels, op)), s, e) == Effect(cfg.pins, labels, op, s, e)
  {
    if op.IsJump() {
      SameJump(cfg, labels, op, s, e);
    } else {
      SameOther(cfg, labels, op, s, e);
    }
  }

  lemma SameJump(cfg: Config, labels: Labels, op: Op, s: State, e: Env)
    requires op.IsJump() && -8 <= op.target
    ensures Execute(cfg, Lower(op, AddressOf(labels, op)), s, e) == Effect(cfg.pins, labels, op, s, e)
  {}

  lemma SameOther(cfg: Config, labels: Labels, op: Op, s: State, e: Env)
    requires !op.IsJump()
    ensures Execute(cfg, Lower(op, AddressOf(labels, op)), s, e) == Effect(cfg.pins, labels, op, s, e)
  {
    if op.MovPinsX? || op.MovXPins? || op.MovXNotNull? || op.Nop? {
      SameMove(cfg, labels, op, s, e);
    }
  }

  lemma SameMove(cfg: Config, labels: Labels, op: Op, s: State, e: Env)
    requires op.MovPinsX? || op.MovXPins? || op.MovXNotNull? || op.Nop?
    ensures Execute(cfg, Lower(op, AddressOf(labels, op)), s, e) == Effect(cfg.pins, labels, op, s, e)
  {}

  lemma SameFinish(p: Program, pins: PinMap, st: Stmt, s: State, o: Outcome)
    requires p.Valid() && s.pc < |p.stmts|
    ensures Finish(ConfigFor(p, pins), s, o, DelayOf(p.mode, st.delay), SideOf(p.mode, st.side))
            == FinishStmt(pins, p, st, s, o)
  {}

  lemma SameIssue(p: Program, pins: PinMap, s: State, e: Env)
    requires p.Valid() && s.pc < |p.stmts|
    ensures var st := p.stmts[s.pc];
            Issue(ConfigFor(p, pins), Encode(p.mode, st, AddressOf(p.labels, st.op)), s, e)
            == Perform(pins, p, s, e)
  {
    var cfg := ConfigFor(p, pins);
    var st := p.stmts[s.pc];
    DecodeRoundTrip(cfg, p.mode, st, AddressOf(p.labels, st.op));
    SameEffect(cfg, p.labels, st.op, s, e);
    SameFinish(p, pins, st, s, Effect(pins, p.labels, st.op, s, e));
  }

  /** One cycle of the machine is one cycle of the source. */
  lemma SameCycle(p: Program, pins: PinMap, mem: Memory, s: State, e: Env)
    requires p.Valid() && s.pc < |p.stmts|
    requires Assemble(p) <= mem
    ensures Cycle(ConfigFor(p, pins), mem, s, e) == SourceCycle(pins, p, s, e)
  {
    assert mem[s.pc] == Assemble(p)[s.pc];
    SameIssue(p, pins, Host(s, e), e);
  }

  /** Assembly preserves meaning: the two machines agree on the whole state after every cycle. */
  lemma {:induction false} MeaningPreserved(p: Program, pins: PinMap, mem: Memory, s: State,
                                            env: nat -> Env, from: nat, n: nat)
    requires p.Valid() && s.pc < |p.stmts|
    requires Assemble(p) <= mem
    ensures Run(ConfigFor(p, pins), mem, s, env, from, n) == SourceRun(pins, p, s, env, from, n)
  {
    if n > 0 {
      MeaningPreserved(p, pins, mem, s, env, from, n - 1);
      SameStep(p, pins, mem, Run(ConfigFor(p, pins), mem, s, env, from, n - 1),
               SourceRun(pins, p, s, env, from, n - 1), env(from + n - 1));
      RunStep(ConfigFor(p, pins), mem, s, env, from, n);
    }
  }

  lemma SameStep(p: Program, pins: PinMap, mem: Memory, t: State, u: State, e: Env)
    requires p.Valid() && t == u && u.pc < |p.stmts| && Assemble(p) <= mem
    ensures Cycle(ConfigFor(p, pins), mem, t, e) == SourceCycle(pins, p, u, e)
  {
    SameCycle(p, pins, mem, u, e);
  }

  lemma RunStep(cfg: Config, mem: Memory, s: State, env: nat -> Env, from: nat, n: nat)
    requires n > 0
    ensures Run(cfg, mem, s, env, from, n) == Cycle(cfg, mem, Run(cfg, mem, s, env, from, n - 1), env(from + n - 1))
  {}
}
