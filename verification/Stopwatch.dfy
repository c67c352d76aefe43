/**
  The PIO stopwatch of the IRQ latency benchmark: what one pulse pushes, what a train of pulses
  pushes, and when the host's `cycles` and `ns` may be believed.
 */
module Stopwatch {
  import opened Words
  import opened PioMachine
  import opened PioSource
  import opened PioMeaning
  import opened PioAsm
  import opened PioStateMachine

  const PIN_A: Pc := 15
  const PIN_C: Pc := 16

  /** The words of the program, as every firmware must report them. */
  const WORDS: seq<u16> := [0x200F, 0x208F, 0xA02B, 0x00C5, 0x0043, 0x4020, 0x8020]

  const ARM := [Stmt(WaitGpio(0, 15), 0, -1), Stmt(WaitGpio(1, 15), 0, -1), Stmt(MovXNotNull, 0, -1)]
  const COUNT := [Stmt(JmpPin(-1), 0, -1), Stmt(JmpXDec(3), 0, -1)]
  const REPORT := [Stmt(InX(32), 0, -1), Stmt(Op.PushBlock, 0, -1)]
  const STATEMENTS := ARM + COUNT + REPORT

  /** `program()`: the stopwatch, assembled. */
  method LatencyProgram() returns (a: Asm)
    ensures fresh(a) && fresh(a.code) && a.Valid()
    ensures a.stmts == STATEMENTS && a.Mode() == SideMode(0, false, false) && a.fwAddr[0] == 5
  {
    a := new Asm();
    Arming(a);
    CountingLoop(a);
    a.InX(32);
    a.PushBlock();
  }

  /** Its first three words, which wait for the edge. */
  method Arming(a: Asm)
    requires a.Valid() && a.stmts == []
    modifies a, a.code, a.fwAddr, a.fixup
    ensures a.Valid() && a.stmts == ARM && a.Mode() == old(a.Mode()) && a.fwUsed == old(a.fwUsed)
  {
    a.WaitGpio(0, PIN_A);
    a.WaitGpio(1, PIN_A);
    a.MovXNotNull();
  }

  /** Its two-cycle loop, left by a forward jump. */
  method CountingLoop(a: Asm)
    requires a.Valid() && a.stmts == ARM && a.fwUsed == 0
    modifies a, a.code, a.fwAddr, a.fixup
    ensures a.Valid() && a.stmts == ARM + COUNT && a.Mode() == old(a.Mode()) && a.fwAddr[0] == 5
  {
    var loop := a.Label();
    var done := a.Future();
    a.JmpPin(done);
    a.JmpXDec(loop);
    a.Bind(done);
  }

  /** The assembled stopwatch waits for no label, is well formed, and has exactly the reference words. */
  lemma ProgramWords(a: Asm)
    requires a.Valid()
    requires a.stmts == STATEMENTS && a.Mode() == SideMode(0, false, false) && a.fwAddr[0] == 5
    ensures a.pending == 0 && a.Source().Valid()
    ensures a.code[..a.len] == WORDS
  {
    NothingWaits(a.fwAddr[..]);
    ReferenceWords(a.Source());
    BackPatchingIsTwoPass(a);
  }

  lemma NothingWaits(labels: Labels)
    requires labels[0] == 5
    ensures WaitingIn(labels, STATEMENTS) == {}
  {}

  lemma ReferenceWords(p: Program)
    requires p.stmts == STATEMENTS && p.mode == SideMode(0, false, false) && p.labels[0] == 5
    ensures p.Valid() && Assemble(p) == WORDS
  {
    forall i | 0 <= i < 7
      ensures p.stmts[i].op.IsJump() ==> p.InProgram(p.stmts[i].op.target)
      ensures OpBits(p.stmts[i].op, AddressOf(p.labels, p.stmts[i].op)) == WORDS[i]
    {
      ReferenceWord(p.labels, i);
    }
    forall i | 0 <= i < 7
      ensures Assemble(p)[i] == WORDS[i]
    {
      NoDelay(p.stmts[i], AddressOf(p.labels, p.stmts[i].op));
    }
  }

  lemma ReferenceWord(labels: Labels, i: nat)
    requires i < 7 && labels[0] == 5
    ensures var op := STATEMENTS[i].op;
            && (op.IsJump() ==> -8 <= op.target && 0 <= Resolve(labels, op.target) < 7)
            && OpBits(op, AddressOf(labels, op)) == WORDS[i]
  {
    match i
    case 0 => case 1 => case 2 => case 3 => case 4 => case 5 => case 6 =>
  }

  lemma NoDelay(st: Stmt, address: int)
    requires st.delay == 0 && st.side == -1
    ensures Encode(SideMode(0, false, false), st, address) == OpBits(st.op, address)
  {}

  /** The set-up in `start`: load the program, then route JMP_PIN, which `Load` has just reset. */
  method Setup(sm: StateMachine)
    requires sm.instrMem.Length == 32
    modifies sm, sm.instrMem
    ensures Loaded(sm.Config(), sm.instrMem[..]) && sm.Config().pins.jmpPin == 16
  {
    var prog := LatencyProgram();
    ProgramWords(prog);
    ghost var exec0, pin0 := sm.execctrl, sm.pinctrl;
    sm.Load(prog);
    LoadConfig(prog.Source(), exec0, pin0);
    assert sm.instrMem[..7] == WORDS;
    sm.SetJmpPin(PIN_C);
  }

  // --- one cycle of the stopwatch ---------------------------------------------------------------

  const MAX_COUNT: nat := 0xFFFF_FFFF
  const MAX_LATENCY: nat := 0x2_0000_0000

  /** The RX FIFO after the core's access in this cycle. */
  function Kept(rx: seq<u32>, pop: bool): seq<u32> {
    if pop && rx != [] then rx[1..] else rx
  }

  /** One cycle from `s` with no delay pending: where control goes, X, the ISR and what is pushed. */
  predicate Ticks(s: State, e: Env, t: State) {
    var kept := Kept(s.rx, e.pop);
    && t.delay == 0
    && (if s.pc == 6 then
          |kept| < FIFO_DEPTH ==> t.pc == 0 && t.rx == kept + [s.isr] && t.pushed == s.pushed + [s.isr]
        else t.rx == kept && t.pushed == s.pushed)
    && match s.pc
       case 0 => t.pc == if e.gpio[PIN_A] then 0 else 1
       case 1 => t.pc == if e.gpio[PIN_A] then 2 else 1
       case 2 => t.pc == 3 && t.x == W32 - 1
       case 3 => t.pc == (if e.gpio[PIN_C] then 5 else 4) && t.x == s.x
       case 4 => t.pc == (if s.x != 0 then 3 else 5) && t.x == Dec(s.x)
       case 5 => t.pc == 6 && t.isr == s.x
       case _ => true
  }

  ghost predicate IsStopwatch(step: (State, Env) -> State) {
    forall s: State, e: Env :: s.delay == 0 && s.pc < 7 ==> Ticks(s, e, step(s, e))
  }

  predicate Loaded(cfg: Config, mem: Memory) {
    && WORDS <= mem && cfg.wrapBottom == 0 && cfg.wrapTop == 6 && cfg.sideCount == 0
    && cfg.pins.jmpPin == PIN_C
  }

  function Meaning(pc: Pc): Instr
    requires pc < 7
  {
    match pc
    case 0 => Wait(false, PIN_A)
    case 1 => Wait(true, PIN_A)
    case 2 => Mov(1, true, 3)
    case 3 => Jmp(6, 5)
    case 4 => Jmp(2, 3)
    case 5 => In(1, 0)
    case 6 => Push(false, true)
  }

  lemma WordMeaning(pc: Pc)
    requires pc < 7
    ensures Decode(WORDS[pc]) == Meaning(pc) && WORDS[pc] / 256 % 32 == 0
  {
    match pc
    case 0 => case 1 => case 2 => case 3 => case 4 => case 5 => case 6 =>
  }

  /** What statement `pc` does, before control moves on. */
  function Result(s: State, e: Env): Outcome
    requires s.pc < 7
  {
    match s.pc
    case 0 => if e.gpio[PIN_A] then Stall else Continue(s)
    case 1 => if e.gpio[PIN_A] then Continue(s) else Stall
    case 2 => Continue(s.(x := W32 - 1))
    case 3 => Branch(s, e.gpio[PIN_C], 5)
    case 4 => Branch(s.(x := Dec(s.x)), s.x != 0, 3)
    case 5 => Continue(ShiftIn(s, s.x, 32))
    case 6 => if |s.rx| < FIFO_DEPTH then Continue(PushIsr(s)) else Stall
  }

  lemma ExecuteResult(cfg: Config, s: State, e: Env)
    requires cfg.pins.jmpPin == PIN_C && s.pc < 7
    ensures Execute(cfg, Meaning(s.pc), s, e) == Result(s, e)
  {}

  lemma ResultTicks(cfg: Config, s: State, e: Env)
    requires cfg.wrapBottom == 0 && cfg.wrapTop == 6 && s.delay == 0 && s.pc < 7
    ensures Ticks(s, e.(pop := false), Finish(cfg, s, Result(s, e), 0, None))
  {
    if s.pc == 5 {
      WholeShift(s);
    }
  }

  lemma IssueTicks(cfg: Config, w: u16, s: State, e: Env)
    requires cfg.wrapBottom == 0 && cfg.wrapTop == 6 && cfg.sideCount == 0 && cfg.pins.jmpPin == PIN_C
    requires s.delay == 0 && s.pc < 7 && Decode(w) == Meaning(s.pc) && w / 256 % 32 == 0
    ensures Ticks(s, e.(pop := false), Issue(cfg, w, s, e))
  {
    assert DecodeSide(cfg, w) == None && DecodeDelay(cfg, w) == 0;
    ExecuteResult(cfg, s, e);
    ResultTicks(cfg, s, e);
  }

  lemma WholeShift(s: State)
    ensures ShiftIn(s, s.x, 32).isr == s.x
  {
    Pow2Of32();
    assert Pow2(0) == 1;
  }

  lemma MachineTicks(cfg: Config, mem: Memory, s: State, e: Env)
    requires Loaded(cfg, mem) && s.delay == 0 && s.pc < 7
    ensures Ticks(s, e, Cycle(cfg, mem, s, e))
  {
    assert mem[s.pc] == WORDS[s.pc];
    WordMeaning(s.pc);
    IssueTicks(cfg, mem[s.pc], Host(s, e), e);
  }

  lemma LoadedIsStopwatch(cfg: Config, mem: Memory)
    requires Loaded(cfg, mem)
    ensures IsStopwatch(Machine(cfg, mem))
  {
    forall s: State, e: Env | s.delay == 0 && s.pc < 7
      ensures Ticks(s, e, Machine(cfg, mem)(s, e))
    {
      MachineTicks(cfg, mem, s, e);
    }
  }

  // --- one pulse --------------------------------------------------------------------------------

  /**
    GPIO 15 reads low at `low`, then high again at `rise`; GPIO 16 reads high from `rise + d` on.
   */
  datatype Pulse = Pulse(low: nat, rise: nat, d: nat)

  /** The count that a latency of `d` cycles leaves in the complement of X. */
  function Count(d: nat): u32 {
    if 1 <= d <= MAX_LATENCY then (d - 1) / 2 else 0
  }

  /** The first cycle after the push. */
  function End(p: Pulse): nat {
    if p.d <= MAX_LATENCY then p.rise + 2 * Count(p.d) + 5 else p.rise + MAX_LATENCY + 4
  }

  ghost predicate Level(env: nat -> Env, pin: Pc, high: bool, from: nat, to: int) {
    forall t: nat {:trigger env(t)} :: from <= t < to ==> env(t).gpio[pin] == high
  }

  /** The pads during one pulse that is awaited from cycle `from` on. */
  ghost predicate PulseSeen(env: nat -> Env, from: nat, p: Pulse) {
    && from <= p.low < p.rise && p.d >= 1
    && Level(env, PIN_A, true, from, p.low)
    && Level(env, PIN_A, false, p.low, p.rise)
    && env(p.rise).gpio[PIN_A]
    && Level(env, PIN_C, false, p.rise, p.rise + p.d)
    && Level(env, PIN_C, true, p.rise + p.d, End(p))
  }

  /** How many of `n` words are left in the FIFO when the core has made its pops of the cycles before `till`. */
  function Left(env: nat -> Env, n: nat, from: nat, till: nat): (m: nat)
    ensures m <= n
    decreases till
  {
    if till <= from then n
    else
      var m := Left(env, n, from, till - 1);
      if env(till - 1).pop && m > 0 then m - 1 else m
  }

  lemma {:induction false} LeftSplit(env: nat -> Env, n: nat, from: nat, mid: nat, till: nat)
    requires from <= mid <= till
    ensures Left(env, Left(env, n, from, mid), mid, till) == Left(env, n, from, till)
    decreases till
  {
    if till > mid {
      LeftSplit(env, n, from, mid, till - 1);
    }
  }

  lemma LeftOne(env: nat -> Env, n: nat, from: nat)
    ensures Left(env, n, from, from + 1) == if env(from).pop && n > 0 then n - 1 else n
  {
    assert Left(env, n, from, from) == n;
  }

  /** At the top of the program, with `n` words in the FIFO. */
  predicate Armed(s: State, n: nat) {
    s.pc == 0 && s.delay == 0 && |s.rx| == n
  }

  /** Waiting at statement 0 or 1 while GPIO 15 holds the level that statement waits out. */
  lemma {:induction false} Waits(step: (State, Env) -> State, s: State, env: nat -> Env, from: nat, n: nat)
    requires IsStopwatch(step) && s.pc < 2 && s.delay == 0
    requires Level(env, PIN_A, s.pc == 0, from, from + n)
    ensures var t := Iterate(step, s, env, from, n);
            && t.pc == s.pc && t.delay == 0 && t.pushed == s.pushed
            && |t.rx| == Left(env, |s.rx|, from, from + n)
  {
    if n > 0 {
      Waits(step, s, env, from, n - 1);
      var before, e := Iterate(step, s, env, from, n - 1), env(from + n - 1);
      assert Ticks(before, e, step(before, e));
    }
  }

  /** `k` rounds of the counting loop, each of which sees GPIO 16 low. */
  lemma {:induction false} Counts(step: (State, Env) -> State, s: State, env: nat -> Env, from: nat, k: nat)
    requires IsStopwatch(step) && s.pc == 3 && s.delay == 0 && s.x == MAX_COUNT
    requires k <= MAX_COUNT
    requires Level(env, PIN_C, false, from, from + 2 * k - 1)
    ensures var t := Iterate(step, s, env, from, 2 * k);
            && t.pc == 3 && t.delay == 0 && t.x == MAX_COUNT - k && t.pushed == s.pushed
            && |t.rx| == Left(env, |s.rx|, from, from + 2 * k)
  {
    if k > 0 {
      var at := from + 2 * (k - 1);
      Counts(step, s, env, from, k - 1);
      TwoTicks(step, s, env, from, 2 * (k - 1));
      LeftTwo(env, |s.rx|, from, at);
      CountsOnce(step, Iterate(step, s, env, from, 2 * (k - 1)), env, at);
    }
  }

  /** One round of the loop. */
  lemma CountsOnce(step: (State, Env) -> State, a: State, env: nat -> Env, at: nat)
    requires IsStopwatch(step) && a.pc == 3 && a.delay == 0 && a.x > 0 && !env(at).gpio[PIN_C]
    ensures var t := step(step(a, env(at)), env(at + 1));
            var m := if env(at).pop && |a.rx| > 0 then |a.rx| - 1 else |a.rx|;
            && t.pc == 3 && t.delay == 0 && t.x == a.x - 1 && t.pushed == a.pushed
            && |t.rx| == if env(at + 1).pop && m > 0 then m - 1 else m
  {
    var b := step(a, env(at));
    assert Ticks(a, env(at), b);
    assert Ticks(b, env(at + 1), step(b, env(at + 1)));
  }

  lemma LeftTwo(env: nat -> Env, n: nat, from: nat, at: nat)
    requires from <= at
    ensures var m := Left(env, n, from, at);
            var m1 := if env(at).pop && m > 0 then m - 1 else m;
            Left(env, n, from, at + 2) == if env(at + 1).pop && m1 > 0 then m1 - 1 else m1
  {
    assert Left(env, n, from, at + 1) == if env(at).pop && Left(env, n, from, at) > 0
                                         then Left(env, n, from, at) - 1 else Left(env, n, from, at);
  }

  lemma TwoTicks(step: (State, Env) -> State, s: State, env: nat -> Env, from: nat, n: nat)
    ensures Iterate(step, s, env, from, n + 2)
            == step(step(Iterate(step, s, env, from, n), env(from + n)), env(from + n + 1))
  {
    assert Iterate(step, s, env, from, n + 1) == step(Iterate(step, s, env, from, n), env(from + n));
  }

  /** From statement 5: X goes to the ISR, the ISR to the FIFO if there is room, and the program starts over. */
  lemma Reports(step: (State, Env) -> State, s: State, env: nat -> Env, from: nat)
    requires IsStopwatch(step) && s.pc == 5 && s.delay == 0 && Left(env, |s.rx|, from, from + 2) < FIFO_DEPTH
    ensures var t := Iterate(step, s, env, from, 2);
            Armed(t, Left(env, |s.rx|, from, from + 2) + 1) && t.pushed == s.pushed + [s.x]
  {
    TwoTicks(step, s, env, from, 0);
    LeftTwo(env, |s.rx|, from, from);
    var t := step(s, env(from));
    assert Ticks(s, env(from), t);
    assert Ticks(t, env(from + 1), step(t, env(from + 1)));
  }

  lemma OneTick(step: (State, Env) -> State, s: State, env: nat -> Env, from: nat)
    requires IsStopwatch(step) && s.delay == 0 && s.pc < 6
    ensures var t := Iterate(step, s, env, from, 1);
            Ticks(s, env(from), t) && |t.rx| == Left(env, |s.rx|, from, from + 1)
  {
    assert Iterate(step, s, env, from, 0) == s;
    assert Ticks(s, env(from), step(s, env(from)));
    LeftOne(env, |s.rx|, from);
  }

  /** GPIO 15 falls: statement 0 gives way to statement 1. */
  lemma AwaitsLow(step: (State, Env) -> State, s: State, env: nat -> Env, from: nat, p: Pulse)
    requires IsStopwatch(step) && Armed(s, |s.rx|) && PulseSeen(env, from, p)
    ensures var t := Until(step, s, env, from, p.low + 1);
            && t.pc == 1 && t.delay == 0 && t.pushed == s.pushed
            && |t.rx| == Left(env, |s.rx|, from, p.low + 1)
  {
    Waits(step, s, env, from, p.low - from);
    OneTick(step, Until(step, s, env, from, p.low), env, p.low);
    UntilThen(step, s, env, from, p.low, p.low + 1);
    LeftSplit(env, |s.rx|, from, p.low, p.low + 1);
  }

  /** From the top of the program to the rising edge: nothing is pushed. */
  lemma AwaitsEdge(step: (State, Env) -> State, s: State, env: nat -> Env, from: nat, p: Pulse)
    requires IsStopwatch(step) && Armed(s, |s.rx|) && PulseSeen(env, from, p)
    ensures var t := Until(step, s, env, from, p.rise);
            && t.pc == 1 && t.delay == 0 && t.pushed == s.pushed
            && |t.rx| == Left(env, |s.rx|, from, p.rise)
  {
    AwaitsLow(step, s, env, from, p);
    Waits(step, Until(step, s, env, from, p.low + 1), env, p.low + 1, p.rise - (p.low + 1));
    UntilThen(step, s, env, from, p.low + 1, p.rise);
    LeftSplit(env, |s.rx|, from, p.low + 1, p.rise);
  }

  /** From the rising edge to the start of the counting loop. */
  lemma StartsCounting(step: (State, Env) -> State, s: State, env: nat -> Env, from: nat)
    requires IsStopwatch(step) && s.pc == 1 && s.delay == 0 && env(from).gpio[PIN_A]
    ensures var t := Iterate(step, s, env, from, 2);
            && t.pc == 3 && t.delay == 0 && t.x == MAX_COUNT && t.pushed == s.pushed
            && |t.rx| == Left(env, |s.rx|, from, from + 2)
  {
    TwoTicks(step, s, env, from, 0);
    LeftTwo(env, |s.rx|, from, from);
    var t := step(s, env(from));
    assert Ticks(s, env(from), t);
    assert Ticks(t, env(from + 1), step(t, env(from + 1)));
  }

  /** At statement 3 with GPIO 16 high, or with X run out, one or two more cycles lead to statement 5. */
  lemma LeavesLoop(step: (State, Env) -> State, t: State, env: nat -> Env, at: nat, runOut: bool)
    requires IsStopwatch(step) && t.pc == 3 && t.delay == 0
    requires if runOut then t.x == 0 && !env(at).gpio[PIN_C] else env(at).gpio[PIN_C]
    ensures var k := if runOut then 2 else 1;
            var u := Iterate(step, t, env, at, k);
            && u.pc == 5 && u.delay == 0 && u.x == (if runOut then MAX_COUNT else t.x) && u.pushed == t.pushed
            && |u.rx| == Left(env, |t.rx|, at, at + k)
  {
    if runOut {
      TwoTicks(step, t, env, at, 0);
      LeftTwo(env, |t.rx|, at, at);
      var u := step(t, env(at));
      assert Ticks(t, env(at), u);
      assert Ticks(u, env(at + 1), step(u, env(at + 1)));
    } else {
      OneTick(step, t, env, at);
    }
  }

  /** From the start of the counting loop to statement 5, with the complement of the count in X. */
  lemma StopsCounting(step: (State, Env) -> State, s: State, env: nat -> Env, from: nat, p: Pulse)
    requires IsStopwatch(step) && PulseSeen(env, from, p)
    requires s.pc == 3 && s.delay == 0 && s.x == MAX_COUNT
    ensures var t := Until(step, s, env, p.rise + 2, End(p) - 2);
            && t.pc == 5 && t.delay == 0 && t.x == MAX_COUNT - Count(p.d) && t.pushed == s.pushed
            && |t.rx| == Left(env, |s.rx|, p.rise + 2, End(p) - 2)
  {
    var k := if p.d <= MAX_LATENCY then Count(p.d) else MAX_COUNT;
    var at := p.rise + 2 + 2 * k;
    Counts(step, s, env, p.rise + 2, k);
    LeavesLoop(step, Until(step, s, env, p.rise + 2, at), env, at, p.d > MAX_LATENCY);
    UntilThen(step, s, env, p.rise + 2, at, End(p) - 2);
    LeftSplit(env, |s.rx|, p.rise + 2, at, End(p) - 2);
  }

  /** From the top of the program to the start of the counting loop. */
  lemma SeesEdge(step: (State, Env) -> State, s: State, env: nat -> Env, from: nat, p: Pulse)
    requires IsStopwatch(step) && Armed(s, |s.rx|) && PulseSeen(env, from, p)
    ensures var t := Until(step, s, env, from, p.rise + 2);
            && t.pc == 3 && t.delay == 0 && t.x == MAX_COUNT && t.pushed == s.pushed
            && |t.rx| == Left(env, |s.rx|, from, p.rise + 2)
  {
    AwaitsEdge(step, s, env, from, p);
    StartsCounting(step, Until(step, s, env, from, p.rise), env, p.rise);
    UntilThen(step, s, env, from, p.rise, p.rise + 2);
    LeftSplit(env, |s.rx|, from, p.rise, p.rise + 2);
  }

  /** From the start of the counting loop to the end of the push. */
  lemma CountsAndReports(step: (State, Env) -> State, s: State, env: nat -> Env, from: nat, p: Pulse)
    requires IsStopwatch(step) && PulseSeen(env, from, p)
    requires s.pc == 3 && s.delay == 0 && s.x == MAX_COUNT
    requires Left(env, |s.rx|, p.rise + 2, End(p)) < FIFO_DEPTH
    ensures var t := Until(step, s, env, p.rise + 2, End(p));
            && Armed(t, Left(env, |s.rx|, p.rise + 2, End(p)) + 1)
            && t.pushed == s.pushed + [MAX_COUNT - Count(p.d)]
  {
    StopsCounting(step, s, env, from, p);
    LeftSplit(env, |s.rx|, p.rise + 2, End(p) - 2, End(p));
    Reports(step, Until(step, s, env, p.rise + 2, End(p) - 2), env, End(p) - 2);
    UntilThen(step, s, env, p.rise + 2, End(p) - 2, End(p));
  }

  /** One pulse pushes exactly one word, the complement of its count, and leaves the stopwatch armed. */
  lemma PulseMeasured(step: (State, Env) -> State, s: State, env: nat -> Env, from: nat, p: Pulse)
    requires IsStopwatch(step) && Armed(s, |s.rx|) && PulseSeen(env, from, p)
    requires Left(env, |s.rx|, from, End(p)) < FIFO_DEPTH
    ensures var t := Until(step, s, env, from, End(p));
            && Armed(t, Left(env, |s.rx|, from, End(p)) + 1)
            && t.pushed == s.pushed + [MAX_COUNT - Count(p.d)]
  {
    SeesEdge(step, s, env, from, p);
    LeftSplit(env, |s.rx|, from, p.rise + 2, End(p));
    CountsAndReports(step, Until(step, s, env, from, p.rise + 2), env, from, p);
    UntilThen(step, s, env, from, p.rise + 2, End(p));
  }

  // --- a train of pulses ------------------------------------------------------------------------

  ghost predicate TrainSeen(env: nat -> Env, from: nat, ps: seq<Pulse>)
    decreases |ps|
  {
    ps != [] ==> PulseSeen(env, from, ps[0]) && TrainSeen(env, End(ps[0]), ps[1..])
  }

  /** With `n` words in the FIFO at `from`, each push of the train finds room. */
  ghost predicate TrainHasRoom(env: nat -> Env, n: nat, from: nat, ps: seq<Pulse>)
    decreases |ps|
  {
    ps != [] ==>
      && Left(env, n, from, End(ps[0])) < FIFO_DEPTH
      && TrainHasRoom(env, Left(env, n, from, End(ps[0])) + 1, End(ps[0]), ps[1..])
  }

  function TrainEnd(from: nat, ps: seq<Pulse>): nat
    decreases |ps|
  {
    if ps == [] then from else TrainEnd(End(ps[0]), ps[1..])
  }

  lemma {:induction false} TrainEndLater(env: nat -> Env, from: nat, ps: seq<Pulse>)
    requires TrainSeen(env, from, ps)
    ensures from <= TrainEnd(from, ps)
    decreases |ps|
  {
    if ps != [] {
      TrainEndLater(env, End(ps[0]), ps[1..]);
    }
  }

  /** The complement of each pushed word is the count of its pulse, in order, one word a pulse. */
  predicate Reported(words: seq<u32>, ps: seq<Pulse>) {
    |words| == |ps| && forall i :: 0 <= i < |ps| ==> MAX_COUNT - words[i] == Count(ps[i].d)
  }

  /** Each pulse of a train is pushed exactly once, and its complement is its count. */
  lemma {:induction false} TrainMeasured(step: (State, Env) -> State, s: State, env: nat -> Env, from: nat, ps: seq<Pulse>)
    requires IsStopwatch(step) && Armed(s, |s.rx|) && TrainSeen(env, from, ps)
    requires TrainHasRoom(env, |s.rx|, from, ps)
    ensures from <= TrainEnd(from, ps)
    ensures var words := Until(step, s, env, from, TrainEnd(from, ps)).pushed;
            s.pushed <= words && Reported(words[|s.pushed|..], ps)
    decreases |ps|
  {
    TrainEndLater(env, from, ps);
    if ps != [] {
      var p, rest := ps[0], ps[1..];
      PulseMeasured(step, s, env, from, p);
      var s1 := Until(step, s, env, from, End(p));
      TrainMeasured(step, s1, env, End(p), rest);
      UntilThen(step, s, env, from, End(p), TrainEnd(from, ps));
      var words := Until(step, s, env, from, TrainEnd(from, ps)).pushed;
      assert words[|s.pushed|..] == [MAX_COUNT - Count(p.d)] + words[|s1.pushed|..];
    }
  }

  /** The loaded machine, from its start at statement 0 with empty FIFOs, measures every pulse of a train. */
  lemma StopwatchMeasures(cfg: Config, mem: Memory, s: State, env: nat -> Env, from: nat, ps: seq<Pulse>)
    requires Loaded(cfg, mem) && s.pc == 0 && s.delay == 0 && s.rx == [] && s.pushed == []
    requires TrainSeen(env, from, ps) && TrainHasRoom(env, 0, from, ps)
    ensures from <= TrainEnd(from, ps)
    ensures Reported(Run(cfg, mem, s, env, from, TrainEnd(from, ps) - from).pushed, ps)
  {
    LoadedIsStopwatch(cfg, mem);
    TrainMeasured(Machine(cfg, mem), s, env, from, ps);
    var words := Run(cfg, mem, s, env, from, TrainEnd(from, ps) - from).pushed;
    assert words[0..] == words;
  }

  // --- the firmware leaves room -------------------------------------------------------------------

  /** The core pops the word of each pulse some time before the word of the next one is pushed. */
  ghost predicate Collected(env: nat -> Env, waiting: bool, from: nat, ps: seq<Pulse>)
    decreases |ps|
  {
    ps != [] ==>
      && (waiting ==> exists t: nat :: from <= t < End(ps[0]) && env(t).pop)
      && Collected(env, true, End(ps[0]), ps[1..])
  }

  lemma {:induction false} PopEmpties(env: nat -> Env, from: nat, t: nat, till: nat)
    requires from <= t < till && env(t).pop
    ensures Left(env, 1, from, till) == 0
    decreases till
  {
    if till - 1 > t {
      PopEmpties(env, from, t, till - 1);
    }
  }

  /** A core that collects each word before the next push always leaves room; the first needs no pop. */
  lemma {:induction false} CollectingLeavesRoom(env: nat -> Env, n: nat, from: nat, ps: seq<Pulse>)
    requires n <= 1 && Collected(env, n == 1, from, ps)
    ensures TrainHasRoom(env, n, from, ps)
    decreases |ps|
  {
    if ps != [] {
      if n == 1 {
        var t: nat :| from <= t < End(ps[0]) && env(t).pop;
        PopEmpties(env, from, t, End(ps[0]));
      }
      CollectingLeavesRoom(env, 1, End(ps[0]), ps[1..]);
    }
  }

  /** From a cold start, under a core that collects each word before the next one: every pulse is measured. */
  lemma FirmwareMeasures(cfg: Config, mem: Memory, s: State, env: nat -> Env, from: nat, ps: seq<Pulse>)
    requires Loaded(cfg, mem) && s.pc == 0 && s.delay == 0 && s.rx == [] && s.pushed == []
    requires TrainSeen(env, from, ps) && Collected(env, false, from, ps)
    ensures from <= TrainEnd(from, ps)
    ensures Reported(Run(cfg, mem, s, env, from, TrainEnd(from, ps) - from).pushed, ps)
  {
    CollectingLeavesRoom(env, 0, from, ps);
    StopwatchMeasures(cfg, mem, s, env, from, ps);
  }

  /** Up to four words there is room whatever the core does. */
  lemma {:induction false} FourWordsFit(env: nat -> Env, n: nat, from: nat, ps: seq<Pulse>)
    requires n + |ps| <= FIFO_DEPTH
    ensures TrainHasRoom(env, n, from, ps)
    decreases |ps|
  {
    if ps != [] {
      FourWordsFit(env, Left(env, n, from, End(ps[0])) + 1, End(ps[0]), ps[1..]);
    }
  }

  // --- what the host makes of a count -------------------------------------------------------------

  /** The count brackets the latency exactly when the latency is at most 2^33 cycles. */
  lemma CountBrackets(d: nat)
    requires d >= 1
    ensures 2 * Count(d) < d <= 2 * Count(d) + 2 <==> d <= MAX_LATENCY
  {}

  /** `cycles(count)`, in UInt32 arithmetic. */
  function HostCycles(count: u32): u32 {
    Trunc(2 * count + 2)
  }

  /** `ns(count)`: 8 ns a cycle at 125 MHz, in UInt32 arithmetic. */
  function HostNs(count: u32): u32 {
    Trunc(HostCycles(count) * 8)
  }

  /** The host overestimates by less than 2 cycles exactly when 2 * count + 2 does not wrap. */
  lemma HostCyclesExact(d: nat)
    requires d >= 1
    ensures 0 <= HostCycles(Count(d)) - d < 2 <==> d <= W32 - 2
  {}

  /** In nanoseconds the overestimate is below 16 exactly when 8 * (2 * count + 2) does not wrap. */
  lemma HostNsExact(d: nat)
    requires d >= 1
    ensures 0 <= HostNs(Count(d)) - 8 * d < 16 <==> d <= W32 / 8 - 2
  {}
}
