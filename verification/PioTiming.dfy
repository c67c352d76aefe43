/**
  Exact timing on the PIO machine: a `jmp_x_dec` to itself burns (x + 1) * (1 + delay) cycles.
 */
module PioTiming {
  import opened Words
  import opened PioMachine
  import opened PioSource
  import opened PioMeaning

  /** One cycle as a counted loop at `a` sees it, when each issue takes `d` delay cycles. */
  predicate LoopStep(a: Pc, d: nat, after: Pc, s: State, t: State) {
    if s.delay > 0 then
      t.pc == s.pc && t.x == s.x && t.delay == s.delay - 1
    else
      s.pc == a ==> t.pc == (if s.x > 0 then a else after) && t.x == Dec(s.x) && t.delay == d
  }

  ghost predicate IsLoop(step: (State, Env) -> State, a: Pc, d: nat, after: Pc) {
    forall s, e :: LoopStep(a, d, after, s, step(s, e))
  }

  /** Cycles that the loop takes from X = x. */
  function Cycles(x: nat, d: nat): (n: nat)
    ensures n == (x + 1) * (1 + d)
  {
    if x == 0 then 1 + d else (1 + d) + Cycles(x - 1, d)
  }

  /** One pass: after `1 + m` cycles of it, `d - m` delay cycles are left. */
  lemma {:induction false} LoopPass(step: (State, Env) -> State, a: Pc, d: nat, after: Pc,
                                    s: State, env: nat -> Env, from: nat, m: nat)
    requires IsLoop(step, a, d, after) && s.pc == a && s.delay == 0 && m <= d
    ensures var t := Iterate(step, s, env, from, 1 + m);
            t.pc == (if s.x > 0 then a else after) && t.x == Dec(s.x) && t.delay == d - m
  {
    var before := Iterate(step, s, env, from, m);
    assert LoopStep(a, d, after, before, step(before, env(from + m)));
    if m > 0 {
      LoopPass(step, a, d, after, s, env, from, m - 1);
    }
  }

  lemma {:induction false} LoopLeaves(step: (State, Env) -> State, a: Pc, d: nat, after: Pc,
                                      s: State, env: nat -> Env, from: nat)
    requires IsLoop(step, a, d, after) && s.pc == a && s.delay == 0
    ensures var t := Iterate(step, s, env, from, Cycles(s.x, d));
            t.pc == after && t.x == W32 - 1 && t.delay == 0
    decreases s.x
  {
    LoopPass(step, a, d, after, s, env, from, d);
    if s.x > 0 {
      LoopLeaves(step, a, d, after, Iterate(step, s, env, from, 1 + d), env, from + 1 + d);
      IterateSplit(step, s, env, from, 1 + d, Cycles(s.x - 1, d));
    }
  }

  lemma {:induction false} LoopStays(step: (State, Env) -> State, a: Pc, d: nat, after: Pc,
                                     s: State, env: nat -> Env, from: nat, m: nat)
    requires IsLoop(step, a, d, after) && s.pc == a && s.delay == 0
    requires m < Cycles(s.x, d)
    ensures var t := Iterate(step, s, env, from, m); t.pc == a || t.delay > 0
    decreases m
  {
    if m >= 1 + d {
      LoopPass(step, a, d, after, s, env, from, d);
      IterateSplit(step, s, env, from, 1 + d, m - (1 + d));
      LoopStays(step, a, d, after, Iterate(step, s, env, from, 1 + d), env, from + 1 + d, m - (1 + d));
    } else if m > 0 {
      LoopPass(step, a, d, after, s, env, from, m - 1);
    }
  }

  /** The run leaves the loop after exactly `n` cycles, when its next instruction is due. */
  ghost predicate LeavesAfter(step: (State, Env) -> State, a: Pc, after: Pc, s: State, env: nat -> Env,
                              from: nat, n: nat)
  {
    && (forall m: nat | m < n :: var t := Iterate(step, s, env, from, m); t.pc == a || t.delay > 0)
    && var t := Iterate(step, s, env, from, n); t.pc == after && t.x == W32 - 1 && t.delay == 0
  }

  lemma LoopExact(step: (State, Env) -> State, a: Pc, d: nat, after: Pc, s: State, env: nat -> Env, from: nat)
    requires IsLoop(step, a, d, after) && s.pc == a && s.delay == 0
    ensures LeavesAfter(step, a, after, s, env, from, Cycles(s.x, d))
  {
    LoopLeaves(step, a, d, after, s, env, from);
    forall m: nat | m < Cycles(s.x, d)
      ensures var t := Iterate(step, s, env, from, m); t.pc == a || t.delay > 0
    {
      LoopStays(step, a, d, after, s, env, from, m);
    }
  }

  function After(cfg: Config, a: Pc): Pc {
    if a == cfg.wrapTop then cfg.wrapBottom else (a + 1) % 32
  }

  /** The machine treats the emitted word of a `jmp_x_dec` to itself as such a loop. */
  lemma EmittedStep(cfg: Config, mode: SideMode, a: Pc, delay: int, side: int, s: State, e: Env)
    requires mode.Width() <= 5 && cfg.sideCount == mode.Width() && cfg.sideEn == mode.optional
    requires s.pc == a
    ensures var t := Issue(cfg, Encode(mode, Stmt(JmpXDec(a), delay, side), a), s, e);
            t.pc == (if s.x > 0 then a else After(cfg, a)) && t.x == Dec(s.x) && t.delay == DelayOf(mode, delay)
  {
    DecodeRoundTrip(cfg, mode, Stmt(JmpXDec(a), delay, side), a);
  }

  lemma EmittedLoop(cfg: Config, mem: Memory, mode: SideMode, a: Pc, delay: int, side: int)
    requires mode.Width() <= 5 && cfg.sideCount == mode.Width() && cfg.sideEn == mode.optional
    requires mem[a] == Encode(mode, Stmt(JmpXDec(a), delay, side), a)
    ensures IsLoop(Machine(cfg, mem), a, DelayOf(mode, delay), After(cfg, a))
  {
    forall s, e
      ensures LoopStep(a, DelayOf(mode, delay), After(cfg, a), s, Machine(cfg, mem)(s, e))
    {
      if s.pc == a {
        EmittedStep(cfg, mode, a, delay, side, Host(s, e), e);
      }
    }
  }

  /** `jmp_x_dec` to itself holds the machine for exactly (x + 1) * (1 + delay) cycles. */
  lemma LoopBurns(cfg: Config, mem: Memory, mode: SideMode, a: Pc, delay: int, side: int,
                  s: State, env: nat -> Env, from: nat)
    requires mode.Width() <= 5 && cfg.sideCount == mode.Width() && cfg.sideEn == mode.optional
    requires mem[a] == Encode(mode, Stmt(JmpXDec(a), delay, side), a)
    requires s.pc == a && s.delay == 0
    ensures LeavesAfter(Machine(cfg, mem), a, After(cfg, a), s, env, from, Cycles(s.x, DelayOf(mode, delay)))
  {
    EmittedLoop(cfg, mem, mode, a, delay, side);
    LoopExact(Machine(cfg, mem), a, DelayOf(mode, delay), After(cfg, a), s, env, from);
  }
}
