/**
  `StateMachine`: loading a program into the PIO block and routing its pins, by read-modify-write of
  PINCTRL and EXECCTRL (section 3.7 of the RP2040 Datasheet).
 */
module PioStateMachine {
  import opened Words
  import opened PioMachine
  import opened PioSource
  import opened PioMeaning
  import opened PioEffects
  import opened PioAsm

  /** The configuration that the two control registers spell out. */
  function ConfigOf(execctrl: bv32, pinctrl: bv32): Config {
    Config(
      WrapBottom(execctrl) as int, WrapTop(execctrl) as int,
      SideEn(execctrl) == 1, SidePindir(execctrl) == 1, SideCount(pinctrl) as int,
      PinMap(InBase(pinctrl) as int, OutBase(pinctrl) as int, OutCount(pinctrl) as int,
             SetBase(pinctrl) as int, SetCount(pinctrl) as int,
             SideBase(pinctrl) as int, JmpGpio(execctrl) as int))
  }

  class StateMachine {
    const instrMem: array<u16>
    var execctrl: bv32
    var pinctrl: bv32

    ghost function Config(): PioMachine.Config
      reads this
    {
      ConfigOf(execctrl, pinctrl)
    }

    constructor ()
      ensures fresh(instrMem) && instrMem.Length == 32
    {
      instrMem := new u16[32](_ => 0);
    }

    /** EXECCTRL is rewritten whole, so a JMP_PIN that was set before is lost. An empty program wraps at 31. */
    method Load(program: Asm)
      requires program.Valid()
      requires instrMem.Length == 32 && instrMem != program.code
      modifies this, instrMem
      ensures forall i :: 0 <= i < 32 ==>
                instrMem[i] == if i < program.len then program.code[i] else old(instrMem[i])
      ensures execctrl == ExecWord(program.len, program.sideOpt, program.sidePindirs)
      ensures pinctrl == PinWord(old(pinctrl), program.Mode().Width())
    {
      for i := 0 to program.len
        modifies instrMem
        invariant forall j :: 0 <= j < i ==> instrMem[j] == program.code[j]
        invariant forall j :: i <= j < 32 ==> instrMem[j] == old(instrMem[j])
      {
        instrMem[i] := program.code[i];
      }
      Configure(program.len, program.sideCount, program.sideOpt, program.sidePindirs);
    }

    /** The second half of `Load`: wrap around the program and set its side-set mode. */
    method Configure(len: int, sideCount: nat, sideOpt: bool, sidePindirs: bool)
      requires 0 <= len <= 32 && SideMode(sideCount, sideOpt, sidePindirs).Width() <= 5
      modifies this`execctrl, this`pinctrl
      ensures execctrl == ExecWord(len, sideOpt, sidePindirs)
      ensures pinctrl == PinWord(old(pinctrl), SideMode(sideCount, sideOpt, sidePindirs).Width())
    {
      TopIs(len);
      var top := (Trunc(len - 1) % 32) as bv32;
      var exec := top << 12;
      if sideOpt {
        exec := exec | (1 << 30);
      }
      if sidePindirs {
        exec := exec | (1 << 29);
      }
      execctrl := exec;
      var sBits := (sideCount + if sideOpt then 1 else 0) as bv32;
      var cur := pinctrl;
      pinctrl := (cur & !(7 << 29)) | (sBits << 29);
    }

    method SetSetPins(base: int, count: int)
      modifies this`pinctrl
      ensures Config() == old(Config()).(pins := old(Config()).pins.(setBase := base % 32, setCount := count % 8))
      ensures pinctrl == SetWord(old(pinctrl), (base % 32) as bv32, (count % 8) as bv32)
    {
      SmallWord(count % 8);
      SmallWord(base % 32);
      var c, b := (count % 8) as bv32, (base % 32) as bv32;
      var word := SetWord(pinctrl, b, c);
      SetPinsFields(pinctrl, b, c);
      SetConfig(execctrl, pinctrl, word, b, c, base % 32, count % 8);
      pinctrl := word;
    }

    method SetOutPins(base: int, count: int)
      modifies this`pinctrl
      ensures Config() == old(Config()).(pins := old(Config()).pins.(outBase := base % 32, outCount := count % 64))
      ensures pinctrl == OutWord(old(pinctrl), (base % 32) as bv32, (count % 64) as bv32)
    {
      SmallWord(count % 64);
      SmallWord(base % 32);
      var c, b := (count % 64) as bv32, (base % 32) as bv32;
      var word := OutWord(pinctrl, b, c);
      OutPinsFields(pinctrl, b, c);
      OutConfig(execctrl, pinctrl, word, b, c, base % 32, count % 64);
      pinctrl := word;
    }

    method SetSidesetPins(base: int)
      modifies this`pinctrl
      ensures Config() == old(Config()).(pins := old(Config()).pins.(sideBase := base % 32))
      ensures pinctrl == SideWord(old(pinctrl), (base % 32) as bv32)
    {
      var cur := pinctrl;
      var b := (base % 32) as bv32;
      pinctrl := SideWord(cur, b);
      SmallWord(base % 32);
      SidePinsFields(cur, b);
    }

    method SetJmpPin(gpio: int)
      modifies this`execctrl
      ensures Config() == old(Config()).(pins := old(Config()).pins.(jmpPin := gpio % 32))
      ensures execctrl == JmpWord(old(execctrl), (gpio % 32) as bv32)
    {
      var cur := execctrl;
      var g := (gpio % 32) as bv32;
      execctrl := JmpWord(cur, g);
      SmallWord(gpio % 32);
      JmpPinFields(cur, g);
    }
  }

  // --- the fields of the two registers, on bit vectors ------------------------------------------

  lemma SmallWord(n: int)
    requires 0 <= n < 64
    ensures (n as bv32) as int == n && n as bv32 <= 63 && (n < 32 ==> n as bv32 <= 31) && (n < 8 ==> n as bv32 <= 7)
  {
    match n
    case 0 => case 1 => case 2 => case 3 => case 4 => case 5 => case 6 => case 7 =>
    case 8 => case 9 => case 10 => case 11 => case 12 => case 13 => case 14 => case 15 =>
    case 16 => case 17 => case 18 => case 19 => case 20 => case 21 => case 22 => case 23 =>
    case 24 => case 25 => case 26 => case 27 => case 28 => case 29 => case 30 => case 31 =>
    case 32 => case 33 => case 34 => case 35 => case 36 => case 37 => case 38 => case 39 =>
    case 40 => case 41 => case 42 => case 43 => case 44 => case 45 => case 46 => case 47 =>
    case 48 => case 49 => case 50 => case 51 => case 52 => case 53 => case 54 => case 55 =>
    case 56 => case 57 => case 58 => case 59 => case 60 => case 61 => case 62 => case _ =>
  }

  function SideBase(pinctrl: bv32): bv32 { (pinctrl >> 10) & 0x1F }
  function SetBase(pinctrl: bv32): bv32 { (pinctrl >> 5) & 0x1F }
  function InBase(pinctrl: bv32): bv32 { (pinctrl >> 15) & 0x1F }
  function OutBase(pinctrl: bv32): bv32 { pinctrl & 0x1F }
  function OutCount(pinctrl: bv32): bv32 { (pinctrl >> 20) & 0x3F }
  function SetCount(pinctrl: bv32): bv32 { (pinctrl >> 26) & 0x7 }
  function SideCount(pinctrl: bv32): bv32 { (pinctrl >> 29) & 0x7 }
  function WrapBottom(execctrl: bv32): bv32 { (execctrl >> 7) & 0x1F }
  function WrapTop(execctrl: bv32): bv32 { (execctrl >> 12) & 0x1F }
  function JmpGpio(execctrl: bv32): bv32 { (execctrl >> 24) & 0x1F }
  function SideEn(execctrl: bv32): bv32 { (execctrl >> 30) & 1 }
  function SidePindir(execctrl: bv32): bv32 { (execctrl >> 29) & 1 }

  /** The wrap address: the last word, or 31 for an empty program. */
  function Top(len: int): (t: int)
    requires 0 <= len <= 32
    ensures 0 <= t < 32
  {
    if len == 0 then 31 else len - 1
  }

  lemma TopIs(len: int)
    requires 0 <= len <= 32
    ensures Trunc(len - 1) % 32 == Top(len)
  {}

  /** EXECCTRL and PINCTRL as `Load` leaves them. */
  function ExecWord(len: int, opt: bool, pindirs: bool): bv32
    requires 0 <= len <= 32
  {
    var e := Top(len) as bv32 << 12;
    var e1 := if opt then e | (1 << 30) else e;
    if pindirs then e1 | (1 << 29) else e1
  }

  function PinWord(cur: bv32, width: nat): bv32
    requires width <= 5
  {
    (cur & !(7 << 29)) | (width as bv32 << 29)
  }

  lemma ExecFields(top: bv32, opt: bool, pindirs: bool)
    requires top <= 31
    ensures var e := top << 12;
            var e1 := if opt then e | (1 << 30) else e;
            var e2 := if pindirs then e1 | (1 << 29) else e1;
            && WrapTop(e2) == top && WrapBottom(e2) == 0 && JmpGpio(e2) == 0
            && (SideEn(e2) == 1 <==> opt) && (SidePindir(e2) == 1 <==> pindirs)
  {}

  lemma PinFields(sBits: bv32, cur: bv32)
    requires sBits <= 7
    ensures var v := (cur & !(7 << 29)) | (sBits << 29);
            && SideCount(v) == sBits && SetCount(v) == SetCount(cur) && OutCount(v) == OutCount(cur)
            && InBase(v) == InBase(cur) && SideBase(v) == SideBase(cur) && SetBase(v) == SetBase(cur)
            && OutBase(v) == OutBase(cur)
  {}

  /** `Load` configures the machine for its program and keeps the pin routing, all but JMP_PIN. */
  lemma LoadConfig(p: Program, exec0: bv32, cur: bv32)
    requires p.Valid()
    ensures ConfigOf(ExecWord(|p.stmts|, p.mode.optional, p.mode.pindirs), PinWord(cur, p.mode.Width()))
            == ConfigFor(p, ConfigOf(exec0, cur).pins.(jmpPin := 0))
  {
    var top, width := |p.stmts| - 1, p.mode.Width();
    SmallWord(top);
    SmallWord(width);
    ExecFields(top as bv32, p.mode.optional, p.mode.pindirs);
    PinFields(width as bv32, cur);
  }

  /** PINCTRL with another SET base and count. */
  function SetWord(cur: bv32, b: bv32, c: bv32): bv32 {
    var mask: bv32 := (7 << 26) | (0x1F << 5);
    (cur & !mask) | (c << 26) | (b << 5)
  }

  lemma SetPinsFields(cur: bv32, b: bv32, c: bv32)
    requires b <= 31 && c <= 7
    ensures var v := SetWord(cur, b, c);
            && SideCount(v) == SideCount(cur) && SetCount(v) == c && OutCount(v) == OutCount(cur)
            && InBase(v) == InBase(cur) && SideBase(v) == SideBase(cur) && SetBase(v) == b
            && OutBase(v) == OutBase(cur)
  {}

  /** The fields of a word that differs from `cur` in the SET base and count. */
  lemma SetConfig(exec: bv32, cur: bv32, v: bv32, b: bv32, c: bv32, base: Pc, count: nat)
    requires SideCount(v) == SideCount(cur) && SetCount(v) == c && OutCount(v) == OutCount(cur)
    requires InBase(v) == InBase(cur) && SideBase(v) == SideBase(cur) && SetBase(v) == b && OutBase(v) == OutBase(cur)
    requires b as int == base && c as int == count
    ensures ConfigOf(exec, v) == ConfigOf(exec, cur).(pins := ConfigOf(exec, cur).pins.(setBase := base, setCount := count))
  {}

  /** And in the OUT base and count. */
  lemma OutConfig(exec: bv32, cur: bv32, v: bv32, b: bv32, c: bv32, base: Pc, count: nat)
    requires SideCount(v) == SideCount(cur) && SetCount(v) == SetCount(cur) && OutCount(v) == c
    requires InBase(v) == InBase(cur) && SideBase(v) == SideBase(cur) && SetBase(v) == SetBase(cur) && OutBase(v) == b
    requires b as int == base && c as int == count
    ensures ConfigOf(exec, v) == ConfigOf(exec, cur).(pins := ConfigOf(exec, cur).pins.(outBase := base, outCount := count))
  {}

  /** PINCTRL with another OUT base and count. */
  function OutWord(cur: bv32, b: bv32, c: bv32): bv32 {
    (cur & !0x3F0001F) | (c << 20) | b
  }

  lemma OutPinsFields(cur: bv32, b: bv32, c: bv32)
    requires b <= 31 && c <= 63
    ensures var v := OutWord(cur, b, c);
            && SideCount(v) == SideCount(cur) && SetCount(v) == SetCount(cur) && OutCount(v) == c
            && InBase(v) == InBase(cur) && SideBase(v) == SideBase(cur) && SetBase(v) == SetBase(cur)
            && OutBase(v) == b
  {}

  /** PINCTRL with another side-set base. */
  function SideWord(cur: bv32, b: bv32): bv32 {
    (cur & !(0x1F << 10)) | (b << 10)
  }

  /** EXECCTRL with another JMP pin. */
  function JmpWord(cur: bv32, g: bv32): bv32 {
    (cur & !(0x1F << 24)) | (g << 24)
  }

  lemma SidePinsFields(cur: bv32, b: bv32)
    requires b <= 31
    ensures var v := SideWord(cur, b);
            && SideCount(v) == SideCount(cur) && SetCount(v) == SetCount(cur) && OutCount(v) == OutCount(cur)
            && InBase(v) == InBase(cur) && SideBase(v) == b && SetBase(v) == SetBase(cur)
            && OutBase(v) == OutBase(cur)
  {}

  lemma JmpPinFields(cur: bv32, g: bv32)
    requires g <= 31
    ensures var v := JmpWord(cur, g);
            && WrapTop(v) == WrapTop(cur) && WrapBottom(v) == WrapBottom(cur) && JmpGpio(v) == g
            && SideEn(v) == SideEn(cur) && SidePindir(v) == SidePindir(cur)
  {}

  lemma ExecParts(top: bv32, opt: bool, pindirs: bool)
    requires top <= 31
    ensures var e := top << 12;
            var e1 := if opt then e | (1 << 30) else e;
            var e2 := if pindirs then e1 | (1 << 29) else e1;
            && e2 & 0x0001_F000 == top << 12 && e2 & 0x9FFE_0FFF == 0
            && (e2 & 0x4000_0000 != 0 <==> opt) && (e2 & 0x2000_0000 != 0 <==> pindirs)
  {}

  lemma PinParts(sBits: bv32, cur: bv32)
    requires sBits <= 7
    ensures var v := (cur & !(7 << 29)) | (sBits << 29);
            v & 0x1FFF_FFFF == cur & 0x1FFF_FFFF && v & 0xE000_0000 == sBits << 29
  {}

  /** The bits that `Load` writes, as numbers: of EXECCTRL all, of PINCTRL the side-set width. */
  lemma LoadBits(len: int, opt: bool, pindirs: bool, cur: bv32, width: nat)
    requires 0 <= len <= 32 && width <= 5
    ensures var v := ExecWord(len, opt, pindirs);
            && v & 0x0001_F000 == Top(len) as bv32 << 12 && v & 0x9FFE_0FFF == 0
            && (v & 0x4000_0000 != 0 <==> opt) && (v & 0x2000_0000 != 0 <==> pindirs)
    ensures var v := PinWord(cur, width);
            v & 0x1FFF_FFFF == cur & 0x1FFF_FFFF && v & 0xE000_0000 == width as bv32 << 29
  {
    SmallWord(Top(len));
    SmallWord(width);
    ExecParts(Top(len) as bv32, opt, pindirs);
    PinParts(width as bv32, cur);
  }

  /** The bits of PINCTRL and EXECCTRL that each setter replaces, as numbers. */
  lemma SetPinBits(cur: bv32, base: bv32, count: bv32)
    requires base <= 31 && count <= 7
    ensures var v := SetWord(cur, base, count);
            v & 0xE3FF_FC1F == cur & 0xE3FF_FC1F && v & 0x1C00_0000 == count << 26 && v & 0x3E0 == base << 5
  {}

  lemma OutPinBits(cur: bv32, base: bv32, count: bv32)
    requires base <= 31 && count <= 63
    ensures var v := OutWord(cur, base, count);
            v & 0xFC0F_FFE0 == cur & 0xFC0F_FFE0 && v & 0x3F0_0000 == count << 20 && v & 0x1F == base
  {}

  lemma SidePinBits(cur: bv32, base: bv32)
    requires base <= 31
    ensures var v := SideWord(cur, base);
            v & 0xFFFF_83FF == cur & 0xFFFF_83FF && v & 0x7C00 == base << 10
  {}

  lemma JmpPinBits(cur: bv32, gpio: bv32)
    requires gpio <= 31
    ensures var v := JmpWord(cur, gpio);
            v & 0xE0FF_FFFF == cur & 0xE0FF_FFFF && v & 0x1F00_0000 == gpio << 24
  {}

  /** A loaded program runs as its labelled source, whatever the pin routing says. */
  lemma LoadedProgramMeansItsSource(sm: StateMachine, a: Asm, s: State, env: nat -> Env, from: nat, n: nat)
    requires a.Valid() && a.pending == 0 && a.Source().Valid() && s.pc < |a.stmts|
    requires sm.instrMem.Length == 32 && a.code[..a.len] <= sm.instrMem[..]
    requires sm.Config() == ConfigFor(a.Source(), sm.Config().pins)
    ensures Run(sm.Config(), sm.instrMem[..], s, env, from, n)
            == SourceRun(sm.Config().pins, a.Source(), s, env, from, n)
  {
    BackPatchingIsTwoPass(a);
    MeaningPreserved(a.Source(), sm.Config().pins, sm.instrMem[..], s, env, from, n);
  }

  /** The pins a program is to use, as the four setters take them. */
  datatype Routing = Routing(setBase: int, setCount: int, outBase: int, outCount: int, sideBase: int, jmpPin: int)

  /** The setters one after the other, and what they make of the configuration. */
  method Route(sm: StateMachine, r: Routing)
    modifies sm`pinctrl, sm`execctrl
    ensures sm.Config() == old(sm.Config()).(pins := Routed(old(sm.Config()).pins, r))
  {
    sm.SetSetPins(r.setBase, r.setCount);
    sm.SetOutPins(r.outBase, r.outCount);
    sm.SetSidesetPins(r.sideBase);
    sm.SetJmpPin(r.jmpPin);
  }

  function Routed(pins: PinMap, r: Routing): PinMap {
    PinMap(pins.inBase, r.outBase % 32, r.outCount % 64, r.setBase % 32, r.setCount % 8, r.sideBase % 32, r.jmpPin % 32)
  }

  lemma Prefix(a: seq<u16>, b: seq<u16>, n: nat)
    requires n <= |a| && n <= |b| && forall i :: 0 <= i < n ==> a[i] == b[i]
    ensures a[..n] <= b
  {
    assert a[..n] == b[..n];
  }

  /** Load a finished program: memory and configuration are what its meaning rests on. */
  method LoadFinished(sm: StateMachine, program: Asm)
    requires program.Valid() && program.Source().Valid()
    requires sm.instrMem.Length == 32 && sm.instrMem != program.code
    requires sm.instrMem != program.fwAddr as object && sm.instrMem != program.fixup as object
    modifies sm, sm.instrMem
    ensures program.code[..program.len] <= sm.instrMem[..]
    ensures sm.Config() == ConfigFor(program.Source(), old(sm.Config()).pins.(jmpPin := 0))
  {
    ghost var exec0, pin0 := sm.execctrl, sm.pinctrl;
    sm.Load(program);
    LoadConfig(program.Source(), exec0, pin0);
    Prefix(program.code[..], sm.instrMem[..], program.len);
  }

  /** And route its pins: from then on the machine runs as the labelled source. */
  method LoadAndRoute(sm: StateMachine, program: Asm, r: Routing)
    requires program.Valid() && program.pending == 0 && program.Source().Valid()
    requires sm.instrMem.Length == 32 && sm.instrMem != program.code
    requires sm.instrMem != program.fwAddr as object && sm.instrMem != program.fixup as object
    modifies sm, sm.instrMem
    ensures sm.Config().pins == Routed(old(sm.Config()).pins, r)
    ensures RunsAs(sm.Config(), sm.instrMem[..], program.Source())
    ensures DoesAs(sm.Config(), sm.instrMem[..], program.Source())
  {
    LoadFinished(sm, program);
    Route(sm, r);
    LoadedDoesItsSource(sm, program);
    forall s: State, env: nat -> Env, from: nat, n: nat | s.pc < |program.stmts|
      ensures Run(sm.Config(), sm.instrMem[..], s, env, from, n)
              == SourceRun(sm.Config().pins, program.Source(), s, env, from, n)
    {
      LoadedProgramMeansItsSource(sm, program, s, env, from, n);
    }
  }

  /** In every cycle from a state inside the program, the statement at `pc` has its whole effect. */
  ghost predicate DoesAs(cfg: PioMachine.Config, mem: Memory, p: Program)
    requires p.Valid()
  {
    forall s: State, e: Env :: s.pc < |p.stmts| ==> CycleDone(cfg.pins, p, s, e, Cycle(cfg, mem, s, e))
  }

  lemma LoadedDoesItsSource(sm: StateMachine, a: Asm)
    requires a.Valid() && a.pending == 0 && a.Source().Valid()
    requires sm.instrMem.Length == 32 && a.code[..a.len] <= sm.instrMem[..]
    requires sm.Config() == ConfigFor(a.Source(), sm.Config().pins)
    ensures DoesAs(sm.Config(), sm.instrMem[..], a.Source())
  {
    BackPatchingIsTwoPass(a);
    forall s: State, e: Env | s.pc < |a.stmts|
      ensures CycleDone(sm.Config().pins, a.Source(), s, e, Cycle(sm.Config(), sm.instrMem[..], s, e))
    {
      MachineDoes(a.Source(), sm.Config().pins, sm.instrMem[..], s, e);
    }
  }

  /** From every state inside the program, for every input and every number of cycles. */
  ghost predicate RunsAs(cfg: PioMachine.Config, mem: Memory, p: Program)
    requires p.Valid()
  {
    forall s: State, env: nat -> Env, from: nat, n: nat :: s.pc < |p.stmts| ==>
      Run(cfg, mem, s, env, from, n) == SourceRun(cfg.pins, p, s, env, from, n)
  }
}
