/**
  `launch` and its FIFO operations, access by access, with the time they take. Core 1 moves before every
  access of core 0, at one of five paces: anything at all, everything it can, nothing, one echo as soon as
  core 0 has given up waiting for it, or anything until it falls silent for good.
 */
module Launch {
  import opened Words
  import opened Multicore

  datatype Pace = Free | Prompt | Silent | Late | Stopping

  /** How a polling loop ends: the bit came, the timeout came, or it still polls after as many looks as were followed. */
  datatype Polled = Done | TimedOut | Waiting

  /** A polling gap, in ticks, that leaves the modular clock unambiguous for the timeouts of `launch`. */
  type Gap = g: nat | 1 <= g <= 0x4000_0000 witness 1

  /** There is a word to pop (`data`), or room to push one. */
  predicate Open(l: Link, data: bool) {
    if data then l.toCore0 != [] else |l.toCore1| < DEPTH
  }

  // --- time ---------------------------------------------------------------------------------------

  /** `charged` accesses at up to `gap` ticks each, and `waited` ticks of timeouts, account for the time since `began`. */
  predicate Clock(began: nat, now: nat, gap: nat, charged: nat, waited: nat) {
    began <= now <= began + gap * charged + waited
  }

  lemma ClockTicks(began: nat, now: nat, gap: nat, charged: nat, waited: nat, ticks: nat)
    requires Clock(began, now, gap, charged, waited) && ticks <= gap
    ensures Clock(began, now + ticks, gap, charged + 1, waited)
  {
    assert gap * (charged + 1) == gap * charged + gap;
  }

  lemma ClockWaits(began: nat, now: nat, gap: nat, charged: nat, waited: nat, later: nat, budget: nat)
    requires Clock(began, now, gap, charged, waited) && now <= later <= now + budget + 3 * gap
    ensures Clock(began, later, gap, charged + 3, waited + budget)
  {
    assert gap * (charged + 3) == gap * charged + 3 * gap;
  }

  lemma MulLess(g: nat, a: nat, b: nat)
    requires a <= b
    ensures g * a <= g * b
  {}

  /** Core 0 can pop no more words than were on their way, and those it sent since. */
  predicate Bounded(l: Link, h: History, work: nat) {
    Work(l) + |h.popped| <= work + |h.sent|
  }

  // --- a late core 1 ------------------------------------------------------------------------------

  /** The bootrom has nothing to do. */
  predicate Resting(l: Link) {
    l.core1 == Boot(None) && l.toCore1 == []
  }

  /** It was sent a 0, perhaps took it, and has not echoed it. */
  predicate Owing(l: Link) {
    && l.toCore0 == []
    && ((l.core1 == Boot(None) && l.toCore1 == [0]) || (l.core1 == Boot(Some(0)) && l.toCore1 == []))
  }

  /** What late core 1 does before an access: it takes, and it echoes if core 0 has given up. */
  function LateMove(l: Link, t: Target, overdue: bool): Link {
    if overdue then Put(Take(l), t) else Take(l)
  }

  lemma LateMoves(l: Link, t: Launchable, overdue: bool)
    ensures Resting(l) ==> LateMove(l, t, overdue) == l
    ensures Owing(l) && !overdue ==> Owing(LateMove(l, t, overdue))
    ensures Owing(l) && overdue ==> Resting(LateMove(l, t, overdue)) && LateMove(l, t, overdue).toCore0 == [0]
  {
    if Owing(l) {
      var m := Take(l);
      assert m.core1 == Boot(Some(0)) && m.toCore1 == [];
      var echoed := m.echoed + [0];
      assert t.Pattern()[4] != 0;
      assert |echoed| >= 5 ==> echoed[|echoed| - 5..][4] == 0;
    }
  }

  /** What the pace says about one access: from `l` to `m`, with `o` and `p` for overdue. */
  ghost predicate Paced(pace: Pace, t: Target, l: Link, o: bool, m: Link, p: bool) {
    match pace
    case Free => true
    case Prompt => Settled(m)
    case Silent => m == l
    case Late => m == LateMove(l, t, o) && !p
    case Stopping => o ==> m == l && p
  }

  /** What it says about accesses in a row that neither pop nor push, for the two paces that are followed closely. */
  predicate Idles(pace: Pace, l: Link, o: bool, m: Link, p: bool) {
    && (pace == Silent ==> m == l)
    && (pace == Late && Resting(l) ==> m == l && !p)
    && (pace == Late && Owing(l) && !o ==> Owing(m) && !p)
    && (pace == Stopping && o ==> m == l && p)
  }

  lemma PacedIdles(pace: Pace, t: Launchable, l: Link, o: bool, m: Link, p: bool)
    requires Paced(pace, t, l, o, m, p)
    ensures Idles(pace, l, o, m, p)
    ensures pace == Late && Owing(l) && o ==> Resting(m) && m.toCore0 == [0] && !p
  {
    LateMoves(l, t, o);
  }

  class Chip {
    const target: Launchable
    const riscv: bool
    const pace: Pace
    /** The most ticks between two accesses by core 0. */
    const maxGap: Gap
    /** The most reads of FRCE_OFF until it shows that core 1 is off. */
    const psmReads: nat

    var link: Link
    var now: nat
    /** At the late pace: core 0 has given up waiting for the last echo. At the stopping one: core 1 is silent. */
    var overdue: bool
    /** Reads of FRCE_OFF still to come. */
    var psmLeft: nat
    ghost var history: History
    ghost var began: nat
    ghost var charged: nat
    ghost var waited: nat
    ghost var work: nat
    /** Timeouts since core 1 fell silent. */
    ghost var since: nat

    /** At the stopping pace: core 1 has fallen silent. */
    predicate GivenUp()
      reads this
    {
      pace == Stopping && overdue
    }

    /** Any chip, core 1 doing whatever it did before and with any words in the FIFOs. */
    constructor (target: Launchable, riscv: bool, pace: Pace, maxGap: Gap, psmReads: nat, link: Link)
      ensures this.target == target && this.riscv == riscv && this.pace == pace && this.maxGap == maxGap
      ensures this.psmReads == psmReads && this.link == link && now == 0
    {
      this.target, this.riscv, this.pace, this.maxGap, this.psmReads := target, riscv, pace, maxGap, psmReads;
      this.link, now, overdue, psmLeft := link, 0, false, 0;
      history, began, charged, waited, work, since := History([], [], [], []), 0, 0, 0, 0, 0;
    }

    ghost predicate Timed()
      reads this
    {
      Clock(began, now, maxGap, charged, waited)
    }

    ghost predicate Valid()
      reads this
    {
      Linked(link, target, history) && Timed() && Bounded(link, history, work)
    }

    /** One access: time passes, and core 1 moves at its pace. */
    twostate predicate Passed()
      reads this
    {
      && Valid() && Later(old(link), link)
      && old(now) < now <= old(now) + maxGap && charged == old(charged) + 1
      && Paced(pace, target, old(link), old(overdue), link, overdue)
    }

    method Tick()
      requires Timed()
      modifies this`now, this`charged
      ensures Timed() && old(now) < now <= old(now) + maxGap && charged == old(charged) + 1
    {
      var ticks: nat :| 1 <= ticks <= maxGap;
      ClockTicks(began, now, maxGap, charged, waited, ticks);
      now := now + ticks;
      charged := charged + 1;
    }

    /** Any number of steps. */
    method Wander()
      requires Linked(link, target, history)
      modifies this`link
      ensures Linked(link, target, history) && Later(old(link), link)
    {
      var steps: nat := *;
      while steps > 0
        invariant Linked(link, target, history) && Later(old(link), link)
      {
        var takes: bool := *;
        Core1StepKeeps(old(link), link, target, history, takes);
        link := Core1Step(link, target, takes);
        steps := steps - 1;
      }
    }

    /** All that the bootrom can do. */
    method Settle()
      requires Linked(link, target, history)
      modifies this`link
      ensures Linked(link, target, history) && Later(old(link), link) && Settled(link)
    {
      while !Settled(link)
        invariant Linked(link, target, history) && Later(old(link), link)
        decreases Unsettled(link)
      {
        SettlingEnds(link, target);
        Core1StepKeeps(old(link), link, target, history, Held(link) == []);
        link := Core1Step(link, target, Held(link) == []);
      }
    }

    method MoveLate()
      requires Linked(link, target, history)
      modifies this`link, this`overdue
      ensures Linked(link, target, history) && Later(old(link), link)
      ensures link == LateMove(old(link), target, old(overdue)) && !overdue
    {
      Core1StepKeeps(link, link, target, history, true);
      link := Core1Step(link, target, true);
      if overdue {
        Core1StepKeeps(old(link), link, target, history, false);
        link := Core1Step(link, target, false);
        overdue := false;
      }
    }

    /** Anything, unless core 1 has fallen silent; and it may fall silent. */
    method MoveWhile()
      requires Linked(link, target, history)
      modifies this`link, this`overdue
      ensures Linked(link, target, history) && Later(old(link), link)
      ensures old(overdue) ==> link == old(link) && overdue
    {
      if !overdue {
        Wander();
        overdue := *;
      }
    }

    method Elapse()
      requires Valid()
      modifies this`link, this`now, this`overdue, this`charged
      ensures Passed()
    {
      Tick();
      match pace {
        case Free => Wander();
        case Prompt => Wander(); Settle();
        case Silent =>
        case Late => MoveLate();
        case Stopping => MoveWhile();
      }
    }

    /** FIFO_ST: VLD (`data`), or RDY. */
    method Look(data: bool) returns (ok: bool)
      requires Valid()
      modifies this`link, this`now, this`overdue, this`charged
      ensures Passed() && ok == Open(link, data)
    {
      Elapse();
      var vld, rdy := link.toCore0 != [], |link.toCore1| < DEPTH;
      ok := if data then vld else rdy;
    }

    method ReadTicks() returns (ticks: u32)
      requires Valid()
      modifies this`link, this`now, this`overdue, this`charged
      ensures Passed() && ticks == Trunc(now)
    {
      Elapse();
      ticks := Trunc(now);
    }

    /** FIFO_RD, after VLD was seen. */
    method ReadFifo() returns (v: u32)
      requires Valid() && link.toCore0 != []
      modifies this`link, this`now, this`overdue, this`charged, this`history
      ensures Valid() && charged == old(charged) + 1 && old(now) <= now
      ensures v == old(link).toCore0[0] && history == old(history).(popped := old(history).popped + [v])
      ensures old(link).toCore0[1..] <= link.toCore0 && |link.toCore1| <= |old(link).toCore1|
      ensures Work(link) < Work(old(link)) && (old(link).core1.App? ==> link.core1.App?)
      ensures Paced(pace, target, old(link), old(overdue), link.(toCore0 := [v] + link.toCore0), overdue)
    {
      Elapse();
      v := link.toCore0[0];
      PopKeeps(link, target, history);
      assert [v] + link.toCore0[1..] == link.toCore0;
      link := link.(toCore0 := link.toCore0[1..]);
      history := history.(popped := history.popped + [v]);
    }

    /** FIFO_WR, after RDY was seen; `before` is the link that the word joins. */
    method WriteFifo(v: u32) returns (ghost before: Link)
      requires Valid() && |link.toCore1| < DEPTH
      modifies this`link, this`now, this`overdue, this`charged, this`history
      ensures Valid() && charged == old(charged) + 1 && old(now) <= now
      ensures history == old(history).(sent := old(history).sent + [v])
      ensures old(link).toCore0 <= link.toCore0 && (old(link).core1.App? ==> link.core1.App?)
      ensures link == before.(toCore1 := before.toCore1 + [v])
      ensures Paced(pace, target, old(link), old(overdue), before, overdue)
    {
      Elapse();
      PushKeeps(link, target, history, v);
      before := link;
      link := link.(toCore1 := link.toCore1 + [v]);
      history := history.(sent := history.sent + [v]);
    }

    /** Pop until the FIFO reads empty. (The source xors the words together only to keep the loads.) */
    method FifoDrain()
      requires Valid()
      modifies this`link, this`now, this`overdue, this`charged, this`history
      ensures Valid() && link.toCore0 == [] && (pace == Prompt ==> Settled(link)) && old(now) <= now
      ensures Drains(old(link), old(history), link, history)
      ensures charged <= old(charged) + 1 + 2 * (|history.popped| - |old(history.popped)|)
      ensures DrainsAt(pace, old(link), old(overdue), link, overdue)
    {
      var vld := Look(true);
      FirstLook(pace, target, old(link), old(overdue), link, overdue);
      while vld
        invariant Valid() && vld == (link.toCore0 != []) && (pace == Prompt ==> Settled(link)) && old(now) <= now
        invariant Drains(old(link), old(history), link, history)
        invariant charged <= old(charged) + 1 + 2 * (|history.popped| - |old(history.popped)|)
        invariant DrainsAt(pace, old(link), old(overdue), link, overdue)
        decreases Work(link)
      {
        vld := PopAndLook(old(link), old(overdue), old(history));
      }
    }

    /** One round of the draining loop, which began in the given state. */
    method PopAndLook(ghost l0: Link, ghost o0: bool, ghost h0: History) returns (vld: bool)
      requires Valid() && link.toCore0 != []
      requires Drains(l0, h0, link, history) && DrainsAt(pace, l0, o0, link, overdue)
      modifies this`link, this`now, this`overdue, this`charged, this`history
      ensures Valid() && vld == (link.toCore0 != []) && (pace == Prompt ==> Settled(link))
      ensures Drains(l0, h0, link, history) && DrainsAt(pace, l0, o0, link, overdue)
      ensures charged == old(charged) + 2 && |history.popped| == |old(history.popped)| + 1 && old(now) <= now
      ensures Work(link) < Work(old(link))
    {
      var junk := ReadFifo();
      PacedIdles(pace, target, old(link), old(overdue), link.(toCore0 := [junk] + link.toCore0), overdue);
      ghost var l, o := link, overdue;
      vld := Look(true);
      PacedIdles(pace, target, l, o, link, overdue);
    }

    /** No gap can hide the end of a wait of so many ticks. */
    predicate NoWrap(budget: nat) { budget + 2 * maxGap < W32 }

    /**
      The polling loop of `_fifo_pop` (until VLD) and of `_fifo_push` (until RDY), followed for `patience`
      rounds; `first` is the link at the first look. It gives up only after more true ticks than the timeout.
     */
    method Poll(data: bool, timeoutUs: u32, patience: nat) returns (out: Polled, ghost first: Link)
      requires Valid()
      modifies this`link, this`now, this`overdue, this`charged, this`waited
      ensures Valid() && Later(old(link), link) && Idles(pace, old(link), old(overdue), link, overdue)
      ensures out == Done ==> Open(link, data)
      ensures old(now) <= now
      ensures out == TimedOut ==> now - old(now) > ToTicks(riscv, timeoutUs) && !Open(old(link), data)
      ensures Linked(first, target, history) && Later(old(link), first) && (pace == Prompt ==> Settled(first))
      ensures Open(first, data) ==> out == Done && charged == old(charged) + 2 && waited == old(waited)
      ensures NoWrap(ToTicks(riscv, timeoutUs)) ==>
        && (patience > ToTicks(riscv, timeoutUs) ==> out != Waiting)
        && (out != Waiting ==> charged <= old(charged) + 3 && waited <= old(waited) + ToTicks(riscv, timeoutUs))
    {
      var budget := ToTicks(riscv, timeoutUs);
      var t0, ok;
      ghost var start;
      t0, ok, start := FirstLooks(data);
      first := link;
      if ok {
        return Done, first;
      }
      out := KeepPolling(data, budget, patience, t0, start, old(link), old(overdue));
      if out != Waiting {
        Charge(old(now), old(charged), old(waited), budget);
      }
    }

    /** The counter at the start, and a first look. */
    method FirstLooks(data: bool) returns (t0: u32, ok: bool, ghost start: nat)
      requires Valid()
      modifies this`link, this`now, this`overdue, this`charged
      ensures Valid() && Later(old(link), link) && Idles(pace, old(link), old(overdue), link, overdue)
      ensures old(now) <= start <= old(now) + maxGap && start <= now <= start + maxGap && t0 == Trunc(start)
      ensures charged == old(charged) + 2 && ok == Open(link, data) && (pace == Prompt ==> Settled(link))
    {
      t0 := ReadTicks();
      PacedIdles(pace, target, old(link), old(overdue), link, overdue);
      start := now;
      ok := AnotherLook(data, old(link), old(overdue));
    }

    /** The rounds of the loop, after a first look in vain. */
    method KeepPolling(data: bool, budget: u32, patience: nat, t0: u32, ghost start: nat, ghost l0: Link, ghost o0: bool)
      returns (out: Polled)
      requires Valid() && Later(l0, link) && Idles(pace, l0, o0, link, overdue)
      requires start <= now <= start + maxGap && t0 == Trunc(start)
      modifies this`link, this`now, this`overdue, this`charged
      ensures Valid() && Later(l0, link) && Idles(pace, l0, o0, link, overdue) && old(now) <= now
      ensures out == Done ==> Open(link, data)
      ensures out == TimedOut ==> now - start > budget
      ensures NoWrap(budget) && patience > budget ==> out != Waiting
      ensures NoWrap(budget) ==> now <= start + budget + 2 * maxGap
    {
      var n := 0;
      while n < patience
        invariant Valid() && Later(l0, link) && Idles(pace, l0, o0, link, overdue)
        invariant start + n <= now && old(now) <= now
        invariant NoWrap(budget) ==> now <= start + budget + maxGap && n <= budget
      {
        var t := AnotherTick(l0, o0);
        var over := GivesUp(start, now, t0, t, budget);
        if over {
          return TimedOut;
        }
        var ok := AnotherLook(data, l0, o0);
        if ok {
          return Done;
        }
        n := n + 1;
      }
      return Waiting;
    }

    /** One more access of a polling loop that began at `l0`. */
    method AnotherLook(data: bool, ghost l0: Link, ghost o0: bool) returns (ok: bool)
      requires Valid() && Later(l0, link) && Idles(pace, l0, o0, link, overdue)
      modifies this`link, this`now, this`overdue, this`charged
      ensures Valid() && Later(l0, link) && Idles(pace, l0, o0, link, overdue)
      ensures old(now) < now <= old(now) + maxGap && charged == old(charged) + 1
      ensures ok == Open(link, data) && (pace == Prompt ==> Settled(link))
    {
      ok := Look(data);
      IdlesOn(pace, target, l0, o0, old(link), old(overdue), link, overdue);
    }

    method AnotherTick(ghost l0: Link, ghost o0: bool) returns (ticks: u32)
      requires Valid() && Later(l0, link) && Idles(pace, l0, o0, link, overdue)
      modifies this`link, this`now, this`overdue, this`charged
      ensures Valid() && Later(l0, link) && Idles(pace, l0, o0, link, overdue)
      ensures old(now) < now <= old(now) + maxGap && charged == old(charged) + 1
      ensures ticks == Trunc(now)
    {
      ticks := ReadTicks();
      IdlesOn(pace, target, l0, o0, old(link), old(overdue), link, overdue);
    }

    /** The wait is over: charge it as three accesses and the timeout. */
    ghost method Charge(now0: nat, charged0: nat, waited0: nat, budget: nat)
      requires Clock(began, now0, maxGap, charged0, waited0) && Timed() && now0 <= now
      requires NoWrap(budget) ==> now <= now0 + budget + 3 * maxGap
      modifies this`charged, this`waited
      ensures Timed()
      ensures NoWrap(budget) ==> charged == charged0 + 3 && waited == waited0 + budget
    {
      if NoWrap(budget) {
        ClockWaits(began, now0, maxGap, charged0, waited0, now, budget);
        charged, waited := charged0 + 3, waited0 + budget;
      }
    }

    /** Push one word, unless there is no room for longer than the timeout. */
    method FifoPush(v: u32, timeoutUs: u32, patience: nat) returns (out: Polled)
      requires Valid()
      modifies this`link, this`now, this`overdue, this`charged, this`waited, this`history, this`since
      ensures since == old(since) + if out == TimedOut && GivenUp() then 1 else 0
      ensures Valid() && (old(link).core1.App? ==> link.core1.App?) && old(now) <= now
      ensures history == old(history).(sent := old(history).sent + if out == Done then [v] else [])
      ensures out == TimedOut ==> now - old(now) > ToTicks(riscv, timeoutUs)
      ensures |old(link).toCore1| < DEPTH ==> out == Done && charged == old(charged) + 3 && waited == old(waited)
      ensures NoWrap(ToTicks(riscv, timeoutUs)) ==>
        && (patience > ToTicks(riscv, timeoutUs) ==> out != Waiting)
        && (out != Waiting ==> charged <= old(charged) + 4 && waited <= old(waited) + ToTicks(riscv, timeoutUs))
      ensures SentAt(pace, old(link), old(overdue), link, overdue, v, out == Done)
    {
      ghost var first;
      out, first := Poll(false, timeoutUs, patience);
      if out == Done {
        ghost var l, o := link, overdue;
        ghost var before := WriteFifo(v);
        PacedIdles(pace, target, l, o, before, overdue);
      } else if out == TimedOut && GivenUp() {
        since := since + 1;
      }
    }

    /** Pop one word, unless none comes for longer than the timeout; `first` is the link at the first look. */
    method FifoPop(timeoutUs: u32, patience: nat) returns (out: Polled, v: u32, ghost first: Link)
      requires Valid()
      modifies this`link, this`now, this`overdue, this`charged, this`waited, this`history, this`since
      ensures since == old(since) + if out == TimedOut && GivenUp() then 1 else 0
      ensures Valid() && (old(link).core1.App? ==> link.core1.App?) && old(now) <= now
      ensures history == old(history).(popped := old(history).popped + if out == Done then [v] else [])
      ensures out == TimedOut ==> now - old(now) > ToTicks(riscv, timeoutUs)
      ensures old(link).toCore0 != [] ==> out == Done && v == old(link).toCore0[0]
      ensures out != Done ==> v == 0
      ensures Linked(first, target, old(history)) && Later(old(link), first) && (pace == Prompt ==> Settled(first))
      ensures Open(first, true) ==> out == Done && charged == old(charged) + 3 && waited == old(waited)
      ensures NoWrap(ToTicks(riscv, timeoutUs)) ==>
        && (patience > ToTicks(riscv, timeoutUs) ==> out != Waiting)
        && (out != Waiting ==> charged <= old(charged) + 4 && waited <= old(waited) + ToTicks(riscv, timeoutUs))
      ensures PoppedAt(pace, old(link), old(overdue), link, overdue, out == Done)
    {
      v := 0;
      out, first := Poll(true, timeoutUs, patience);
      if out == Done {
        v := ReadFifo();
      } else if pace == Late {
        overdue := true;
      } else if out == TimedOut && GivenUp() {
        since := since + 1;
      }
    }

    // --- launch ----------------------------------------------------------------------------------

    /** One read of FRCE_OFF: has core 1 gone off? */
    method ReadForceOff() returns (isOff: bool)
      requires Timed()
      modifies this`now, this`charged, this`psmLeft
      ensures Timed() && old(now) < now && charged == old(charged) + 1
      ensures isOff == (old(psmLeft) == 0) && psmLeft == if isOff then 0 else old(psmLeft) - 1
    {
      Tick();
      isOff := psmLeft == 0;
      if !isOff {
        psmLeft := psmLeft - 1;
      }
    }

    /** `_reset_core1`: off, until it shows, and on again. Core 1 is in the bootrom; words in the FIFOs stay. */
    method ResetCore1()
      modifies this
      ensures Valid() && link.core1 == Boot(None) && link.echoed == []
      ensures link.toCore0 == old(link.toCore0) && link.toCore1 == old(link.toCore1)
      ensures history == History(link.toCore0, link.toCore1, [], [])
      ensures began == old(now) && charged <= psmReads + 3 && waited == 0 && since == 0
      ensures work == Work(link) <= Work(old(link))
    {
      began, charged, waited, since := now, 0, 0, 0;
      Tick();
      var left: nat :| left <= psmReads;
      psmLeft := left;
      var isOff := ReadForceOff();
      while !isOff
        invariant Timed() && began == old(now) && waited == 0 && since == 0 && link == old(link)
        invariant charged + psmLeft <= psmReads + if isOff then 2 else 1
        decreases !isOff, psmLeft
      {
        isOff := ReadForceOff();
      }
      Tick();
      link := Link(link.toCore1, link.toCore0, Boot(None), link.script, []);
      history := History(link.toCore0, link.toCore1, [], []);
      work := Work(link);
    }

    /** The timeout of the handshake, in ticks. */
    function Wait(): (w: nat)
      ensures w == if riscv then 16_000 else 1_000
    {
      ToTicks(riscv, 1000)
    }

    /** Core 1 answers promptly, and the words left over from before do not launch it. */
    ghost predicate Answers()
      reads this
    {
      pace == Prompt && !Contains(history.stale1, target.Pattern())
    }

    /** Before command `i`: the stale words are drained or about to be, and the recent pops are in order. */
    ghost predicate Ready(i: nat)
      reads this
    {
      && Valid()
      && (|history.popped| >= |history.stale0| || (i == 0 && |history.popped| + |link.toCore0| >= |history.stale0|))
      && (link.core1.Boot? ==> Recent(target, history.popped, |history.stale0|, i))
      && (Answers() ==> InStep(target, history, i))
    }

    /** The start of a round: drain if the command is 0, then push the command. */
    method Send(i: nat) returns (alive: bool)
      requires i < 6 && Ready(i)
      modifies this`link, this`now, this`overdue, this`charged, this`waited, this`history, this`since
      ensures Valid() && (old(link).core1.App? ==> link.core1.App?) && old(now) <= now
      ensures history == old(history).(popped := history.popped,
                                       sent := old(history).sent + if alive then [Command(target, i)] else [])
      ensures |history.popped| >= |history.stale0|
      ensures link.core1.Boot? ==> Recent(target, history.popped, |history.stale0|, i)
      ensures old(Answers()) ==>
                alive && history.popped == history.stale0 + history.stale1 + old(history.sent) && waited == old(waited)
      ensures |history.popped| >= |old(history.popped)|
      ensures charged <= old(charged) + 5 + 2 * (|history.popped| - |old(history.popped)|)
      ensures waited <= old(waited) + Wait()
      ensures alive && pace == Silent ==> waited == old(waited)
      ensures i == 0 ==> RoundStarts(pace, old(link), old(overdue), link, overdue, alive)
      ensures since == old(since) + if !alive && GivenUp() then 1 else 0
      ensures StillAt(pace, old(link), old(overdue), link, overdue, if alive then 1 else 0)
    {
      Prepare(i);
      ghost var l, o := link, overdue;
      alive := PushCommand(Command(target, i));
      if i == 0 {
        RoundStart(pace, old(link), old(overdue), l, o, link, overdue, alive);
      }
    }

    /** `_fifo_push(c, 1000)`. */
    method PushCommand(c: u32) returns (ok: bool)
      requires Valid()
      modifies this`link, this`now, this`overdue, this`charged, this`waited, this`history, this`since
      ensures Valid() && (old(link).core1.App? ==> link.core1.App?) && old(now) <= now
      ensures history == old(history).(sent := old(history).sent + if ok then [c] else [])
      ensures |old(link).toCore1| < DEPTH ==> ok && waited == old(waited)
      ensures charged <= old(charged) + 4 && waited <= old(waited) + Wait()
      ensures SentAt(pace, old(link), old(overdue), link, overdue, c, ok)
      ensures since == old(since) + if !ok && GivenUp() then 1 else 0
    {
      var out := FifoPush(c, 1000, Wait() + 1);
      ok := out == Done;
    }

    /** `_fifo_pop(1000)`. */
    method PopEcho() returns (ok: bool, v: u32, ghost first: Link)
      requires Valid()
      modifies this`link, this`now, this`overdue, this`charged, this`waited, this`history, this`since
      ensures Valid() && (old(link).core1.App? ==> link.core1.App?) && old(now) <= now
      ensures history == old(history).(popped := old(history).popped + if ok then [v] else [])
      ensures !ok ==> now - old(now) > Wait()
      ensures Linked(first, target, old(history)) && (pace == Prompt ==> Settled(first))
      ensures first.toCore0 != [] ==> ok && waited == old(waited)
      ensures charged <= old(charged) + 4 && waited <= old(waited) + Wait()
      ensures PoppedAt(pace, old(link), old(overdue), link, overdue, ok)
      ensures since == old(since) + if !ok && GivenUp() then 1 else 0
    {
      var out;
      out, v, first := FifoPop(1000, Wait() + 1);
      ok := out == Done;
    }

    /** Drain before a command that is 0. */
    method Prepare(i: nat)
      requires i < 6 && Ready(i)
      modifies this`link, this`now, this`overdue, this`charged, this`history
      ensures Valid() && (old(link).core1.App? ==> link.core1.App?) && old(now) <= now
      ensures history == old(history).(popped := history.popped)
      ensures |history.popped| >= |history.stale0| && |history.popped| >= |old(history.popped)|
      ensures link.core1.Boot? ==> Recent(target, history.popped, |history.stale0|, i)
      ensures old(Answers()) ==>
                link.toCore1 == [] && history.popped == history.stale0 + history.stale1 + history.sent
      ensures charged <= old(charged) + 1 + 2 * (|history.popped| - |old(history.popped)|)
      ensures i == 0 ==> link.toCore0 == [] && DrainsAt(pace, old(link), old(overdue), link, overdue)
      ensures StillAt(pace, old(link), old(overdue), link, overdue, 0)
    {
      if old(Answers()) && i > 0 {
        AllBack(link, target, history, i);
      }
      if Command(target, i) == 0 {
        FifoDrain();
        if old(Answers()) {
          NoneOutstanding(link, target, history, i);
        }
      }
    }

    /** The end of a round: pop, and compare with the command. */
    method Await(i: nat) returns (next: nat)
      requires Valid() && i < 6 && |history.popped| >= |history.stale0|
      requires link.core1.Boot? ==> Recent(target, history.popped, |history.stale0|, i)
      requires Answers() ==>
                 && Commands(target, history.sent, i + 1)
                 && history.popped == history.stale0 + history.stale1 + history.sent[..i]
      modifies this`link, this`now, this`overdue, this`charged, this`waited, this`history, this`since
      ensures next <= 6 && Ready(next) && |history.popped| >= |history.stale0| && old(now) <= now
      ensures history == old(history).(popped := history.popped) && |history.popped| >= |old(history.popped)|
      ensures Answers() ==> next == i + 1 && waited == old(waited)
      ensures charged <= old(charged) + 4 && waited <= old(waited) + Wait()
      ensures pace == Silent && old(link).toCore0 == [] ==> next == 0 && link == old(link)
      ensures pace == Late && Owing(old(link)) && !old(overdue) ==>
                next == 0 && Owing(link) && overdue && now - old(now) > Wait()
      ensures since == old(since) || (since == old(since) + 1 && GivenUp())
      ensures StillAt(pace, old(link), old(overdue), link, overdue, 0)
    {
      var ok, v, first := PopEcho();
      Advances(link, first, target, old(history), history, i, ok, v, Answers());
      next := if ok && v == Command(target, i) then i + 1 else 0;
    }

    /** One attempt: its commands in time, and what it does to the two paces that are followed closely. */
    method Attempt(i: nat) returns (alive: bool, next: nat)
      requires i < 6 && Ready(i)
      modifies this`link, this`now, this`overdue, this`charged, this`waited, this`history, this`since
      ensures Valid() && old(now) <= now && (alive ==> next <= 6 && Ready(next) && |history.popped| >= |history.stale0|)
      ensures history == old(history).(popped := history.popped, sent := history.sent)
      ensures |history.popped| >= |old(history.popped)|
      ensures |history.sent| == |old(history.sent)| + if alive then 1 else 0
      ensures old(Answers()) ==> alive && next == i + 1 && waited == old(waited)
      ensures charged <= old(charged) + 9 + 2 * (|history.popped| - |old(history.popped)|)
      ensures waited <= old(waited) + 2 * Wait()
      ensures pace == Silent ==> waited <= old(waited) + Wait()
      ensures i == 0 ==> AttemptAt(pace, old(link), old(overdue), link, overdue, alive, next)
      ensures pace == Late && i == 0 && LateReady(old(link), old(overdue)) ==> now - old(now) > Wait()
      ensures FallsAt(pace, old(link), old(overdue), link, overdue, alive, since - old(since))
    {
      alive := Send(i);
      next := 0;
      if alive {
        next := Await(i);
      }
    }

    /** The handshake began at time `t0` with `c0` accesses charged; core 1 owed nothing if `lateStart`. */
    ghost predicate Spent(attempts: nat, c0: nat, t0: nat, lateStart: bool)
      reads this
    {
      Costs(pace, lateStart, Wait(), attempts, |history.popped|, charged - c0, waited, now - t0)
    }

    ghost predicate Underway(i: nat, attempts: nat, c0: nat, t0: nat, lateStart: bool)
      reads this
    {
      && i <= 6 && Ready(i) && |history.sent| <= attempts <= 64 && t0 <= now
      && (Answers() ==> attempts == i && waited == 0)
      && Progress(pace, lateStart, link, overdue, i, attempts) && SinceOk(pace, link, overdue, since)
      && Spent(attempts, c0, t0, lateStart)
    }

    /** After so many attempts, however they ended. */
    ghost predicate Attempted(attempts: nat, c0: nat, t0: nat, lateStart: bool)
      reads this
    {
      && Valid() && |history.sent| <= attempts && t0 <= now && Spent(attempts, c0, t0, lateStart)
      && (pace == Stopping ==> since <= 10)
    }

    /** One more attempt of a handshake. */
    method AttemptMore(i: nat, attempts: nat, ghost c0: nat, ghost t0: nat, ghost lateStart: bool)
      returns (alive: bool, next: nat)
      requires i < 6 && attempts < 64 && Underway(i, attempts, c0, t0, lateStart)
      modifies this`link, this`now, this`overdue, this`charged, this`waited, this`history, this`since
      ensures Attempted(attempts + 1, c0, t0, lateStart)
      ensures history == old(history).(popped := history.popped, sent := history.sent)
      ensures alive ==> Underway(next, attempts + 1, c0, t0, lateStart)
      ensures pace == Silent ==> attempts < 9 && |history.popped| <= |history.stale0|
      ensures Answers() || (pace == Late && lateStart) ==> alive
    {
      alive, next := Attempt(i);
      ProgressOn(pace, target, lateStart, old(link), old(overdue), link, overdue, i, attempts + 1, alive, next);
      SinceOn(pace, old(link), old(overdue), link, overdue, alive, old(since), since);
      SilentStale(pace, link, target, history);
      CostsOn(pace, lateStart, Wait(), attempts + 1, |old(history).popped|, old(charged) - c0, old(waited), old(now) - t0,
              |history.popped|, charged - c0, waited, now - t0);
    }

    /** The rounds of the handshake, from a core 1 that was just reset. */
    method Handshake() returns (ok: bool)
      requires Valid() && link.core1 == Boot(None) && link.echoed == [] && waited == 0
      requires history == History(link.toCore0, link.toCore1, [], []) && since == 0
      modifies this`link, this`now, this`overdue, this`charged, this`waited, this`history, this`since
      ensures Valid() && |history.sent| <= 64
      ensures history.stale0 == old(history.stale0) && history.stale1 == old(history.stale1)
      ensures ok ==> link.core1.App?
      ensures Answers() ==> ok && Commands(target, history.sent, 6) && waited == 0
      ensures charged <= old(charged) + 576 + 2 * |history.popped| && waited <= 128 * Wait()
      ensures Answers() ==> charged <= old(charged) + 54 + 2 * |history.popped|
      ensures pace == Silent ==> !ok && charged <= old(charged) + 81 + 2 * |history.stale0| && waited <= 9 * Wait()
      ensures pace == Late && history.stale1 == [] ==> !ok && now - old(now) >= 64 * Wait() + 64
      ensures pace == Stopping ==> since <= 10
    {
      ghost var c0, t0, lateStart, attempts := charged, now, link.toCore1 == [], 0;
      ok, attempts := Rounds(c0, t0, lateStart);
      CostsEnd(pace, lateStart, Wait(), attempts, |history.popped|, charged - c0, waited, now - t0);
      if ok {
        PatternEchoed(link, target, history);
      }
    }

    /** The loop of the handshake. */
    method Rounds(ghost c0: nat, ghost t0: nat, ghost lateStart: bool) returns (ok: bool, ghost made: nat)
      requires Underway(0, 0, c0, t0, lateStart)
      modifies this`link, this`now, this`overdue, this`charged, this`waited, this`history, this`since
      ensures made <= 64 && Attempted(made, c0, t0, lateStart)
      ensures history == old(history).(popped := history.popped, sent := history.sent)
      ensures ok ==> Underway(6, made, c0, t0, lateStart)
      ensures Answers() ==> ok
      ensures pace == Silent ==> !ok && made <= 9 && |history.popped| <= |history.stale0|
      ensures pace == Late && lateStart ==> !ok && made == 64
    {
      var i, attempts := 0, 0;
      made := 0;
      while i < 6
        invariant Underway(i, attempts, c0, t0, lateStart) && Attempted(attempts, c0, t0, lateStart) && made == attempts
        invariant history == old(history).(popped := history.popped, sent := history.sent)
        invariant pace == Silent && attempts > 0 ==> attempts <= 9 && |history.popped| <= |history.stale0|
        decreases 64 - attempts
      {
        attempts := attempts + 1;
        if attempts > 64 {
          return false, made;
        }
        var alive, next := AttemptMore(i, attempts - 1, c0, t0, lateStart);
        made := attempts;
        if !alive {
          return false, made;
        }
        i := next;
      }
      return true, made;
    }

    /** The stated budget of 50 ms, in ticks. */
    function Budget(): (b: nat)
      ensures b == if riscv then 800_000 else 50_000
    {
      ToTicks(riscv, 50_000)
    }

    /**
      Start core 1. True is returned only if core 1 consumed the pattern in a row and runs. A core 1 that
      answers promptly is always started, with six words, unless words left over from before launch it first.
      From the moment on at which core 1 falls silent, whatever it did before, at most ten timeouts go by.
     */
    method Launch() returns (ok: bool)
      modifies this
      ensures Valid() && |history.sent| <= 64
      ensures history.stale0 == old(link.toCore0) && history.stale1 == old(link.toCore1)
      ensures ok ==>
        link.core1.App? && Contains(Consumed(link), [0, 1, target.vectorTable, target.sp, target.entry])
      ensures pace == Prompt && !Contains(old(link.toCore1), target.Pattern()) ==>
                ok && history.sent == [0, 0, 1, target.vectorTable, target.sp, target.entry]
      ensures now <= old(now) + maxGap * (psmReads + 707 + 2 * Work(old(link))) + 128 * Wait()
      ensures pace == Prompt && !Contains(old(link.toCore1), target.Pattern()) ==>
                now <= old(now) + maxGap * (psmReads + 69 + 2 * Work(old(link)))
      ensures pace == Silent ==>
                !ok && now <= old(now) + maxGap * (psmReads + 84 + 2 * |old(link.toCore0)|) + 9 * Wait()
      ensures pace == Late && old(link.toCore1) == [] ==> !ok && now > old(now) + 64 * Wait()
      ensures pace == Stopping ==> since <= 10
    {
      ResetCore1();
      ok := Handshake();
      if ok {
        EchoedWasConsumed(link, target, history);
      }
      if pace == Prompt && !Contains(old(link.toCore1), target.Pattern()) {
        SixCommands(target, history.sent);
      }
      MulLess(maxGap, charged, psmReads + 707 + 2 * Work(old(link)));
      if pace == Silent {
        MulLess(maxGap, charged, psmReads + 84 + 2 * |old(link.toCore0)|);
      }
      if pace == Prompt && !Contains(old(link.toCore1), target.Pattern()) {
        MulLess(maxGap, charged, psmReads + 69 + 2 * Work(old(link)));
      }
    }

    /** A core 1 that does not answer at all is given up within the budget, if core 0 polls often enough. */
    method LaunchSilent() returns (ok: bool)
      requires pace == Silent && maxGap * (psmReads + 84 + 2 * |link.toCore0|) <= 41 * Wait()
      modifies this
      ensures !ok && now <= old(now) + Budget()
    {
      BudgetIs(riscv);
      ok := Launch();
    }

    /** A core 1 that answers at once is started within it. */
    method LaunchPrompt() returns (ok: bool)
      requires pace == Prompt && !Contains(link.toCore1, target.Pattern())
      requires maxGap * (psmReads + 69 + 2 * Work(link)) <= 50 * Wait()
      modifies this
      ensures ok && link.core1.App? && now <= old(now) + Budget()
    {
      BudgetIs(riscv);
      ok := Launch();
    }

    /** A core 1 that echoes each word just after core 0 gave up on it outlasts the budget, however fast the polling. */
    method LaunchLate() returns (ok: bool)
      requires pace == Late && link.toCore1 == []
      modifies this
      ensures !ok && now > old(now) + Budget()
    {
      BudgetIs(riscv);
      ok := Launch();
    }
  }

  lemma SixCommands(t: Target, words: seq<u32>)
    requires Commands(t, words, 6)
    ensures words == [0, 0, 1, t.vectorTable, t.sp, t.entry]
  {}

  lemma BudgetIs(riscv: bool)
    ensures ToTicks(riscv, 50_000) == 50 * ToTicks(riscv, 1000)
  {}

  /** Such a run: nothing left over, core 0 polls every tick, and core 1 answers each word, but late. */
  method BudgetExceeded(riscv: bool) returns (c: Chip, ok: bool)
    ensures !ok && c.now > c.Budget() == ToTicks(riscv, 50_000)
  {
    c := new Chip(Target(1, 1, 1), riscv, Late, 1, 0, Link([], [], Boot(None), [], []));
    ok := c.LaunchLate();
  }

  function Times(n: nat, wait: nat): nat { n * wait }

  lemma TimesMore(n: nat, wait: nat)
    ensures Times(n + 1, wait) == Times(n, wait) + wait
  {}

  predicate LateReady(l: Link, o: bool) {
    Resting(l) || (Owing(l) && o)
  }

  predicate AttemptAt(pace: Pace, l0: Link, o0: bool, l: Link, o: bool, alive: bool, next: nat) {
    && (pace == Silent ==> l == l0.(toCore0 := [], toCore1 := if alive then l0.toCore1 + [0] else l0.toCore1))
    && (pace == Silent && alive ==> |l0.toCore1| < DEPTH && next == 0)
    && (pace == Late && LateReady(l0, o0) ==> alive && next == 0 && LateReady(l, o))
  }

  /**
    After some attempts. A silent core 1 leaves all words where they are, so that its FIFO is full after eight;
    a late one never lets the handshake get past command 0.
   */
  predicate Progress(pace: Pace, lateStart: bool, l: Link, o: bool, i: nat, attempts: nat) {
    && (pace == Silent ==>
          && i == 0 && l.core1 == Boot(None) && l.echoed == []
          && (attempts > 0 ==> attempts <= |l.toCore1| <= DEPTH))
    && (pace == Late && lateStart ==> i == 0 && LateReady(l, o))
  }

  lemma ProgressOn(pace: Pace, t: Target, lateStart: bool, l0: Link, o0: bool, l: Link, o: bool,
                   i: nat, attempts: nat, alive: bool, next: nat)
    requires attempts > 0 && Progress(pace, lateStart, l0, o0, i, attempts - 1)
    requires i == 0 ==> AttemptAt(pace, l0, o0, l, o, alive, next)
    ensures alive ==> Progress(pace, lateStart, l, o, next, attempts)
    ensures pace == Silent ==> attempts <= 9 && l.core1 == Boot(None) && l.echoed == []
    ensures pace == Late && lateStart ==> alive
  {}

  /** The cost of some attempts, with `popped` words popped, in accesses, timeouts and time. */
  predicate Costs(pace: Pace, lateStart: bool, wait: nat, attempts: nat, popped: nat, charged: int, waited: nat, time: int) {
    && charged <= 9 * attempts + 2 * popped && waited <= 2 * Times(attempts, wait)
    && (pace == Silent ==> waited <= Times(attempts, wait))
    && (pace == Late && lateStart ==> time >= Times(attempts, wait) + attempts)
  }

  lemma CostsOn(pace: Pace, lateStart: bool, wait: nat, attempts: nat, popped0: nat, charged0: int, waited0: nat, time0: int,
                popped: nat, charged: int, waited: nat, time: int)
    requires attempts > 0 && Costs(pace, lateStart, wait, attempts - 1, popped0, charged0, waited0, time0)
    requires charged <= charged0 + 9 + 2 * (popped - popped0) && waited <= waited0 + 2 * wait
    requires pace == Silent ==> waited <= waited0 + wait
    requires pace == Late && lateStart ==> time > time0 + wait
    ensures Costs(pace, lateStart, wait, attempts, popped, charged, waited, time)
  {
    TimesMore(attempts - 1, wait);
  }

  lemma CostsEnd(pace: Pace, lateStart: bool, wait: nat, attempts: nat, popped: nat, charged: int, waited: nat, time: int)
    requires attempts <= 64 && Costs(pace, lateStart, wait, attempts, popped, charged, waited, time)
    ensures charged <= 576 + 2 * popped && waited <= 128 * wait
    ensures attempts <= 6 ==> charged <= 54 + 2 * popped
    ensures pace == Silent && attempts <= 9 ==> charged <= 81 + 2 * popped && waited <= 9 * wait
    ensures pace == Late && lateStart && attempts == 64 ==> time >= 64 * wait + 64
  {
    TimesUpTo(attempts, 64, wait);
    if attempts <= 9 {
      TimesUpTo(attempts, 9, wait);
    }
  }

  lemma TimesUpTo(n: nat, m: nat, wait: nat)
    requires n <= m
    ensures Times(n, wait) <= m * wait
  {
    MulLess(wait, n, m);
  }

  /** With no echo made, only stale words can have been popped. */
  lemma SilentStale(pace: Pace, l: Link, t: Target, h: History)
    requires Linked(l, t, h)
    requires pace == Silent ==> l.core1 == Boot(None) && l.echoed == []
    ensures pace == Silent ==> |h.popped| <= |h.stale0|
  {
    if pace == Silent {
      assert |h.popped + l.toCore0| == |h.stale0|;
    }
  }

  /** What a pop after command `i` means for the next round. */
  lemma Advances(l: Link, first: Link, t: Launchable, h0: History, h: History, i: nat, ok: bool, v: u32, answers: bool)
    requires i < 6 && |h0.popped| >= |h0.stale0| && Linked(l, t, h) && Linked(first, t, h0)
    requires h == h0.(popped := h0.popped + if ok then [v] else [])
    requires l.core1.Boot? ==> Recent(t, h0.popped, |h0.stale0|, i)
    requires answers ==>
               && !Contains(h0.stale1, t.Pattern()) && Settled(first) && (first.toCore0 != [] ==> ok)
               && Commands(t, h0.sent, i + 1) && h0.popped == h0.stale0 + h0.stale1 + h0.sent[..i]
    ensures var next := if ok && v == Command(t, i) then i + 1 else 0;
            && (l.core1.Boot? ==> Recent(t, h.popped, |h.stale0|, next))
            && (answers ==> next == i + 1 && InStep(t, h, next))
    ensures answers ==> first.toCore0 != []
  {
    if answers {
      if first.toCore0 == [] {
        NoneOutstanding(first, t, h0, i + 1);
      }
      RightEcho(l, t, h, i, v);
    }
    if ok && v == Command(t, i) && l.core1.Boot? {
      RecentNext(t, h0.popped, |h0.stale0|, i, v);
    }
  }

  lemma RecentNext(t: Target, popped: seq<u32>, stale: nat, i: nat, v: u32)
    requires Recent(t, popped, stale, i) && i < 6 && v == Command(t, i) && |popped| >= stale
    ensures Recent(t, popped + [v], stale, i + 1)
  {}

  /** A round with command 0, at the two paces that are followed closely. */
  predicate RoundStarts(pace: Pace, l0: Link, o0: bool, l: Link, o: bool, alive: bool) {
    && (pace == Silent ==> l == l0.(toCore0 := [], toCore1 := if alive then l0.toCore1 + [0] else l0.toCore1))
    && (pace == Silent && alive ==> |l0.toCore1| < DEPTH)
    && (pace == Late && LateReady(l0, o0) ==> alive && Owing(l) && !o)
  }

  lemma RoundStart(pace: Pace, l0: Link, o0: bool, l: Link, o: bool, m: Link, p: bool, alive: bool)
    requires l.toCore0 == [] && DrainsAt(pace, l0, o0, l, o) && SentAt(pace, l, o, m, p, 0, alive)
    ensures RoundStarts(pace, l0, o0, m, p, alive)
  {}

  /** Once core 1 is silent it stays so, and its FIFO only grows, here by `n` words, for which there was room. */
  predicate StillAt(pace: Pace, l0: Link, o0: bool, l: Link, o: bool, n: nat) {
    pace == Stopping && o0 ==> o && |l.toCore1| == |l0.toCore1| + n && (n > 0 ==> |l.toCore1| <= DEPTH)
  }

  /** An attempt, with `n` timeouts in it that ended after core 1 fell silent. */
  predicate FallsAt(pace: Pace, l0: Link, o0: bool, l: Link, o: bool, alive: bool, n: int) {
    && (pace == Stopping ==> 0 <= n <= 1 && (!o ==> n == 0))
    && StillAt(pace, l0, o0, l, o, if alive then 1 else 0)
  }

  /** After `s` timeouts in silence, the FIFO of core 1 has taken all their words but the first. */
  predicate SinceOk(pace: Pace, l: Link, o: bool, s: nat) {
    pace == Stopping ==> (!o ==> s == 0) && (s <= 1 || s - 1 <= |l.toCore1| <= DEPTH)
  }

  lemma SinceOn(pace: Pace, l0: Link, o0: bool, l: Link, o: bool, alive: bool, s0: nat, s: nat)
    requires SinceOk(pace, l0, o0, s0) && FallsAt(pace, l0, o0, l, o, alive, s - s0)
    ensures alive ==> SinceOk(pace, l, o, s)
    ensures pace == Stopping ==> s <= 10
  {}

  predicate SentAt(pace: Pace, l0: Link, o0: bool, l: Link, o: bool, v: u32, done: bool) {
    && (pace == Stopping && o0 ==> o && (done ==> |l0.toCore1| < DEPTH))
    && (pace == Stopping && o0 ==> l == if done then l0.(toCore1 := l0.toCore1 + [v]) else l0)
    && (pace == Silent && done ==> |l0.toCore1| < DEPTH && l == l0.(toCore1 := l0.toCore1 + [v]))
    && (pace == Silent && !done ==> l == l0)
    && (pace == Late && Resting(l0) && l0.toCore0 == [] && v == 0 ==> done && Owing(l) && !o)
  }

  predicate PoppedAt(pace: Pace, l0: Link, o0: bool, l: Link, o: bool, done: bool) {
    && (pace == Silent && l0.toCore0 == [] ==> !done && l == l0)
    && (pace == Late && Owing(l0) && !o0 ==> !done && Owing(l) && o)
    && (pace == Stopping && o0 ==> o && l.toCore1 == l0.toCore1)
  }

  /** `_ticks() - t0 > budget`. */
  method GivesUp(ghost start: nat, ghost now: nat, t0: u32, t: u32, budget: u32) returns (r: bool)
    requires start <= now && t0 == Trunc(start) && t == Trunc(now)
    ensures r ==> now - start > budget
    ensures !r && now - start < W32 ==> now - start <= budget
  {
    Elapsed(start, now);
    r := Sub32(t, t0) > budget;
  }

  lemma IdlesOn(pace: Pace, t: Launchable, l0: Link, o0: bool, l: Link, o: bool, m: Link, p: bool)
    requires Idles(pace, l0, o0, l, o) && Paced(pace, t, l, o, m, p)
    ensures Idles(pace, l0, o0, m, p)
  {
    PacedIdles(pace, t, l, o, m, p);
  }

  /** What draining does to the link, whatever core 1 does in the meantime. */
  predicate Drains(l0: Link, h0: History, l: Link, h: History) {
    && |h.popped| + |l.toCore0| >= |h0.popped| + |l0.toCore0|
    && h == h0.(popped := h.popped) && |h0.popped| <= |h.popped|
    && |l.toCore1| <= |l0.toCore1| && (l0.core1.App? ==> l.core1.App?)
  }

  /** And at the two paces that are followed closely. */
  predicate DrainsAt(pace: Pace, l0: Link, o0: bool, l: Link, o: bool) {
    && (pace == Silent ==> l == l0.(toCore0 := l.toCore0))
    && (pace == Late && LateReady(l0, o0) ==> Resting(l) && !o)
    && (pace == Stopping && o0 ==> l == l0.(toCore0 := l.toCore0) && o)
  }

  lemma FirstLook(pace: Pace, t: Launchable, l0: Link, o0: bool, l: Link, o: bool)
    requires Paced(pace, t, l0, o0, l, o)
    ensures DrainsAt(pace, l0, o0, l, o)
  {
    PacedIdles(pace, t, l0, o0, l, o);
  }

  lemma PopKeeps(l: Link, t: Target, h: History)
    requires Linked(l, t, h) && l.toCore0 != []
    ensures Linked(l.(toCore0 := l.toCore0[1..]), t, h.(popped := h.popped + [l.toCore0[0]]))
    ensures Work(l.(toCore0 := l.toCore0[1..])) == Work(l) - 1
  {
    assert h.popped + [l.toCore0[0]] + l.toCore0[1..] == h.popped + l.toCore0;
  }

  lemma PushKeeps(l: Link, t: Target, h: History, v: u32)
    requires Linked(l, t, h)
    ensures Linked(l.(toCore1 := l.toCore1 + [v]), t, h.(sent := h.sent + [v]))
    ensures Work(l.(toCore1 := l.toCore1 + [v])) == Work(l) + 1
  {
    assert h.stale1 + (h.sent + [v]) == (h.stale1 + h.sent) + [v];
    assert Consumed(l) + Dropped(l) + (l.toCore1 + [v]) == (Consumed(l) + Dropped(l) + l.toCore1) + [v];
  }
}
