/**
  Hardware spinlocks: any number of cores that increment a shared counter under `Spinlock`, one
  register or memory access at a time, in any order (section 2.3.1.3 of the RP2040 Datasheet).
 */
module Sync {
  import opened Words

  /** Where a core is in `acquire; read; write; release`, when it has `done` of `goal` rounds behind it. */
  datatype Phase = Acquire | Read | Write(value: u32) | Release

  datatype Core = Core(phase: Phase, done: nat, goal: nat) {
    predicate Finished() { phase == Acquire && done >= goal }

    predicate Critical() { phase != Acquire }

    /** Increments that this core has stored. */
    function Stored(): nat { if phase == Release then done + 1 else done }

    /** Accesses that this core has still to make, not counting those that find the lock taken. */
    function Remaining(): nat {
      if done >= goal && phase == Acquire then 0
      else
        var rounds := if done < goal then 4 * (goal - done) else 4;
        match phase
        case Acquire => rounds
        case Read => rounds - 1
        case Write(_) => rounds - 2
        case Release => rounds - 3
    }
  }

  datatype State = State(claimed: bool, counter: u32, cores: seq<Core>)

  /** One access by core `i`. Reading the lock claims it if it is free; writing frees it, whoever writes. */
  function Step(s: State, i: nat): State
    requires i < |s.cores|
  {
    var c := s.cores[i];
    if c.Finished() then s
    else
      match c.phase
      case Acquire => if s.claimed then s else s.(claimed := true, cores := s.cores[i := c.(phase := Read)])
      case Read => s.(cores := s.cores[i := c.(phase := Write(Trunc(s.counter + 1)))])
      case Write(v) => s.(counter := v, cores := s.cores[i := c.(phase := Release)])
      case Release => s.(claimed := false, cores := s.cores[i := c.(phase := Acquire, done := c.done + 1)])
  }

  function Run(s: State, schedule: seq<nat>): State
    requires forall k :: 0 <= k < |schedule| ==> schedule[k] < |s.cores|
    ensures |Run(s, schedule).cores| == |s.cores|
    decreases |schedule|
  {
    if schedule == [] then s else Step(Run(s, schedule[..|schedule| - 1]), schedule[|schedule| - 1])
  }

  function Stored(cores: seq<Core>): nat {
    if cores == [] then 0 else Stored(cores[..|cores| - 1]) + cores[|cores| - 1].Stored()
  }

  function Remaining(cores: seq<Core>): nat {
    if cores == [] then 0 else Remaining(cores[..|cores| - 1]) + cores[|cores| - 1].Remaining()
  }

  function Goals(cores: seq<Core>): nat {
    if cores == [] then 0 else Goals(cores[..|cores| - 1]) + cores[|cores| - 1].goal
  }

  /** Before the first access: the lock is free and nobody has started. */
  predicate Initial(s: State) {
    !s.claimed && forall i :: 0 <= i < |s.cores| ==> s.cores[i].phase == Acquire && s.cores[i].done == 0
  }

  ghost predicate MutualExclusion(s: State) {
    forall i, j :: 0 <= i < j < |s.cores| ==> !(s.cores[i].Critical() && s.cores[j].Critical())
  }

  /** Core `h` is critical and nobody else is. */
  ghost predicate Holds(s: State, h: nat) {
    h < |s.cores| && forall i :: 0 <= i < |s.cores| ==> (s.cores[i].Critical() <==> i == h)
  }

  /** A core is critical only in a round of its own, and the value it is about to store is current. */
  predicate Sound(s: State, c: Core) {
    && c.done <= c.goal && (c.Critical() ==> c.done < c.goal)
    && (c.phase.Write? ==> c.phase.value == Trunc(s.counter + 1))
  }

  /** The lock is claimed exactly while one core holds it. */
  ghost predicate Guarded(s: State) {
    if s.claimed then exists h :: Holds(s, h) else forall i :: 0 <= i < |s.cores| ==> !s.cores[i].Critical()
  }

  predicate AllSound(s: State) {
    forall i :: 0 <= i < |s.cores| ==> Sound(s, s.cores[i])
  }

  /** And the counter has every stored increment. */
  ghost predicate Inv(s: State, start: u32) {
    Guarded(s) && AllSound(s) && s.counter == Trunc(start + Stored(s.cores))
  }

  lemma {:induction false} SumsUpdate(cores: seq<Core>, i: nat, c: Core)
    requires i < |cores|
    ensures Stored(cores[i := c]) + cores[i].Stored() == Stored(cores) + c.Stored()
    ensures Remaining(cores[i := c]) + cores[i].Remaining() == Remaining(cores) + c.Remaining()
    ensures c.goal == cores[i].goal ==> Goals(cores[i := c]) == Goals(cores)
  {
    var n := |cores| - 1;
    if i < n {
      SumsUpdate(cores[..n], i, c);
      assert cores[i := c][..n] == cores[..n][i := c];
    } else {
      assert cores[i := c][..n] == cores[..n];
    }
  }

  /** Core `i` finds the lock taken, or has nothing left to do. */
  predicate Idle(s: State, i: nat)
    requires i < |s.cores|
  {
    s.cores[i].Finished() || (s.cores[i].phase == Acquire && s.claimed)
  }

  lemma StepGuards(s: State, i: nat)
    requires Guarded(s) && i < |s.cores|
    ensures Guarded(Step(s, i))
  {
    var t := Step(s, i);
    if s.claimed {
      var h :| Holds(s, h);
      if t.claimed {
        assert Holds(t, h);
      }
    } else if t.claimed {
      assert Holds(t, i);
    }
  }

  lemma StepSounds(s: State, i: nat)
    requires Guarded(s) && AllSound(s) && i < |s.cores|
    ensures AllSound(Step(s, i))
  {
    var t := Step(s, i);
    forall j | 0 <= j < |s.cores|
      ensures Sound(t, t.cores[j])
    {
      assert Sound(s, s.cores[j]);
      if s.claimed {
        var h :| Holds(s, h);
        assert s.cores[j].Critical() <==> j == h;
      }
    }
  }

  lemma StepCounts(s: State, i: nat)
    requires AllSound(s) && i < |s.cores|
    ensures var t := Step(s, i);
            || (t.counter == s.counter && Stored(t.cores) == Stored(s.cores))
            || (t.counter == Trunc(s.counter + 1) && Stored(t.cores) == Stored(s.cores) + 1)
    ensures Goals(Step(s, i).cores) == Goals(s.cores)
    ensures if Idle(s, i) then Step(s, i) == s else Remaining(Step(s, i).cores) == Remaining(s.cores) - 1
  {
    if !Idle(s, i) {
      assert Sound(s, s.cores[i]);
      SumsUpdate(s.cores, i, Step(s, i).cores[i]);
    }
  }

  lemma CounterFollows(counter: u32, start: u32, stored: nat, later: nat)
    requires counter == Trunc(start + stored)
    ensures later == stored + 1 ==> Trunc(counter + 1) == Trunc(start + later)
  {}

  /** Every access keeps the invariant; unless it idles it brings its core one access nearer to the end. */
  lemma StepKeeps(s: State, start: u32, i: nat)
    requires Inv(s, start) && i < |s.cores|
    ensures Inv(Step(s, i), start) && Goals(Step(s, i).cores) == Goals(s.cores)
    ensures if Idle(s, i) then Step(s, i) == s else Remaining(Step(s, i).cores) == Remaining(s.cores) - 1
  {
    StepGuards(s, i);
    StepSounds(s, i);
    StepCounts(s, i);
    CounterFollows(s.counter, start, Stored(s.cores), Stored(Step(s, i).cores));
  }

  lemma Exclusive(s: State, start: u32)
    requires Inv(s, start)
    ensures MutualExclusion(s)
  {}

  lemma {:induction false} NothingStored(cores: seq<Core>)
    requires forall i :: 0 <= i < |cores| ==> cores[i].phase == Acquire && cores[i].done == 0
    ensures Stored(cores) == 0
  {
    if cores != [] {
      NothingStored(cores[..|cores| - 1]);
    }
  }

  /** Every reachable state has at most one critical core and a counter with every stored increment. */
  lemma {:induction false} RunKeeps(s: State, schedule: seq<nat>)
    requires Initial(s)
    requires forall k :: 0 <= k < |schedule| ==> schedule[k] < |s.cores|
    ensures Inv(Run(s, schedule), s.counter) && Goals(Run(s, schedule).cores) == Goals(s.cores)
    ensures MutualExclusion(Run(s, schedule))
    decreases |schedule|
  {
    if schedule == [] {
      NothingStored(s.cores);
    } else {
      RunKeeps(s, schedule[..|schedule| - 1]);
      StepKeeps(Run(s, schedule[..|schedule| - 1]), s.counter, schedule[|schedule| - 1]);
    }
  }

  lemma {:induction false} FinishedStored(cores: seq<Core>)
    requires forall i :: 0 <= i < |cores| ==> cores[i].Finished() && cores[i].done <= cores[i].goal
    ensures Stored(cores) == Goals(cores)
  {
    if cores != [] {
      FinishedStored(cores[..|cores| - 1]);
    }
  }

  /** No update is lost: when all cores have finished, the counter has grown by all of their goals. */
  lemma NoLostUpdate(s: State, schedule: seq<nat>)
    requires Initial(s)
    requires forall k :: 0 <= k < |schedule| ==> schedule[k] < |s.cores|
    requires var t := Run(s, schedule); forall i :: 0 <= i < |t.cores| ==> t.cores[i].Finished()
    ensures Run(s, schedule).counter == Trunc(s.counter + Goals(s.cores))
  {
    RunKeeps(s, schedule);
    FinishedStored(Run(s, schedule).cores);
  }

  /** Two fresh cores with `n` rounds each. */
  function Pair(n: nat): State {
    State(false, 0, [Core(Acquire, 0, n), Core(Acquire, 0, n)])
  }

  lemma PairGoals(n: nat)
    ensures Goals(Pair(n).cores) == 2 * n
  {
    assert Pair(n).cores[..1][..0] == [];
    assert Goals(Pair(n).cores[..1]) == n;
  }

  /** Two cores that do `n` rounds each leave the counter at 2n. */
  lemma TwoCores(n: nat, schedule: seq<nat>)
    requires forall k :: 0 <= k < |schedule| ==> schedule[k] < 2
    requires var t := Run(Pair(n), schedule); forall i :: 0 <= i < |t.cores| ==> t.cores[i].Finished()
    ensures Run(Pair(n), schedule).counter == Trunc(2 * n)
  {
    NoLostUpdate(Pair(n), schedule);
    PairGoals(n);
  }

  /** No deadlock: while work is left, some core's next access moves it on. */
  lemma SomeoneMoves(s: State, start: u32)
    requires Inv(s, start) && exists i :: 0 <= i < |s.cores| && !s.cores[i].Finished()
    ensures exists i :: 0 <= i < |s.cores| && !Idle(s, i)
  {
    if s.claimed {
      var h :| Holds(s, h);
      assert !Idle(s, h);
    } else {
      var i :| 0 <= i < |s.cores| && !s.cores[i].Finished();
      assert !Idle(s, i);
    }
  }

  /** The accesses of a schedule that get a core on, rather than find the lock taken or the work done. */
  function Effective(s: State, schedule: seq<nat>): (n: nat)
    requires forall k :: 0 <= k < |schedule| ==> schedule[k] < |s.cores|
    decreases |schedule|
  {
    if schedule == [] then 0
    else
      var before := schedule[..|schedule| - 1];
      Effective(s, before) + if Idle(Run(s, before), schedule[|schedule| - 1]) then 0 else 1
  }

  lemma {:induction false} RemainingFalls(s: State, schedule: seq<nat>)
    requires Initial(s)
    requires forall k :: 0 <= k < |schedule| ==> schedule[k] < |s.cores|
    ensures Remaining(Run(s, schedule).cores) == Remaining(s.cores) - Effective(s, schedule)
    decreases |schedule|
  {
    if schedule != [] {
      var before := schedule[..|schedule| - 1];
      RemainingFalls(s, before);
      RunKeeps(s, before);
      StepKeeps(Run(s, before), s.counter, schedule[|schedule| - 1]);
    }
  }

  predicate AllFinished(cores: seq<Core>) {
    forall i :: 0 <= i < |cores| ==> cores[i].Finished()
  }

  lemma {:induction false} NothingRemains(cores: seq<Core>)
    ensures Remaining(cores) == 0 <==> AllFinished(cores)
  {
    if cores != [] {
      var init, last := cores[..|cores| - 1], cores[|cores| - 1];
      NothingRemains(init);
      assert AllFinished(cores) <==> AllFinished(init) && last.Finished();
      assert last.Remaining() == 0 <==> last.Finished();
    }
  }

  lemma {:induction false} FourEach(cores: seq<Core>)
    requires forall i :: 0 <= i < |cores| ==> cores[i].phase == Acquire && cores[i].done == 0
    ensures Remaining(cores) == 4 * Goals(cores)
  {
    if cores != [] {
      FourEach(cores[..|cores| - 1]);
    }
  }

  /**
    Completion: a schedule finishes all the work exactly when four of its accesses for each increment were
    effective, and no schedule has more. While there are fewer, some core's next access is effective.
   */
  lemma FinishesExactly(s: State, schedule: seq<nat>)
    requires Initial(s)
    requires forall k :: 0 <= k < |schedule| ==> schedule[k] < |s.cores|
    ensures Effective(s, schedule) <= 4 * Goals(s.cores)
    ensures AllFinished(Run(s, schedule).cores) <==> Effective(s, schedule) == 4 * Goals(s.cores)
    ensures Effective(s, schedule) < 4 * Goals(s.cores) ==>
      exists i :: 0 <= i < |s.cores| && !Idle(Run(s, schedule), i)
  {
    RemainingFalls(s, schedule);
    NothingRemains(Run(s, schedule).cores);
    FourEach(s.cores);
    if Effective(s, schedule) < 4 * Goals(s.cores) {
      RunKeeps(s, schedule);
      SomeoneMoves(Run(s, schedule), s.counter);
    }
  }

  /** The SIO lock register, the shared word, and the cores that use them. */
  class Sio {
    var claimed: bool
    var counter: u32
    const cores: array<Core>

    ghost function Now(): State
      reads this, cores
    {
      State(claimed, counter, cores[..])
    }

    constructor (start: u32, goals: seq<nat>)
      ensures fresh(cores) && cores.Length == |goals| && Initial(Now()) && counter == start
      ensures forall i :: 0 <= i < |goals| ==> cores[i].goal == goals[i]
    {
      claimed := false;
      counter := start;
      cores := new Core[|goals|](i requires 0 <= i < |goals| => Core(Acquire, 0, goals[i]));
    }

    /** `try_acquire`: one read of the lock register, nonzero if it claimed the lock. */
    method TryAcquire() returns (ok: bool)
      modifies this`claimed
      ensures ok == !old(claimed) && claimed
    {
      ok := !claimed;
      claimed := true;
    }

    /** `release`: a write, which frees the lock whoever holds it. */
    method Release()
      modifies this`claimed
      ensures !claimed
    {
      claimed := false;
    }

    /** One access by core `i`; `acquire` is the case that repeats until its read claims the lock. */
    method Access(i: nat)
      requires i < cores.Length
      modifies this, cores
      ensures Now() == Step(old(Now()), i)
    {
      var c := cores[i];
      if c.phase == Phase.Acquire && c.done >= c.goal {
        return;
      }
      match c.phase {
        case Acquire =>
          var ok := TryAcquire();
          if ok {
            cores[i] := c.(phase := Read);
          }
        case Read =>
          cores[i] := c.(phase := Write(Trunc(counter + 1)));
        case Write(v) =>
          counter := v;
          cores[i] := c.(phase := Phase.Release);
        case Release =>
          Release();
          cores[i] := c.(phase := Phase.Acquire, done := c.done + 1);
      }
    }

    /** Any interleaving: the cores make their accesses in the order of the schedule. */
    method Interleave(schedule: seq<nat>)
      requires Initial(Now())
      requires forall k :: 0 <= k < |schedule| ==> schedule[k] < cores.Length
      modifies this, cores
      ensures Now() == Run(old(Now()), schedule)
      ensures MutualExclusion(Now()) && counter == Trunc(old(counter) + Stored(cores[..]))
    {
      ghost var start := Now();
      for k := 0 to |schedule|
        invariant Now() == Run(start, schedule[..k])
      {
        assert schedule[..k + 1][..k] == schedule[..k];
        Access(schedule[k]);
      }
      assert schedule[..|schedule|] == schedule;
      RunKeeps(start, schedule);
    }
  }
}
