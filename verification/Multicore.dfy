/**
  Launching core 1: the bootrom handshake of `launch` over the two inter-core FIFOs, interleaved with
  a core 1 that runs at any pace (section 2.8.2 of the RP2040 Datasheet).

  Environment: after its reset core 1 takes words in order, echoes each once, and runs the application
  as soon as it has echoed 0, 1, vector table, sp, entry in a row. The application may then take words
  and put words of its own; any finite number of them, fixed by `script`. Words that were in either
  FIFO before the reset stay there.
 */
module Multicore {
  import opened Words

  const DEPTH: nat := 8

  /** The arguments of the launch, and the words that make the bootrom jump. */
  datatype Target = Target(vectorTable: u32, sp: u32, entry: u32) {
    function Pattern(): seq<u32> { [0, 1, vectorTable, sp, entry] }

    predicate Nonzero() { vectorTable != 0 && sp != 0 && entry != 0 }
  }

  type Launchable = t: Target | t.Nonzero() witness Target(1, 1, 1)

  predicate FoundAt(words: seq<u32>, pattern: seq<u32>, k: nat) {
    k + |pattern| <= |words| && words[k..k + |pattern|] == pattern
  }

  /** The words of `pattern` follow each other somewhere in `words`. */
  ghost predicate Contains(words: seq<u32>, pattern: seq<u32>) {
    exists k :: FoundAt(words, pattern, k)
  }

  predicate EndsWith(words: seq<u32>, pattern: seq<u32>) {
    |pattern| <= |words| && FoundAt(words, pattern, |words| - |pattern|)
  }

  lemma ContainsMore(words: seq<u32>, w: u32, pattern: seq<u32>)
    ensures Contains(words + [w], pattern) <==> Contains(words, pattern) || EndsWith(words + [w], pattern)
  {
    var more := words + [w];
    forall k: nat | FoundAt(more, pattern, k)
      ensures Contains(words, pattern) || EndsWith(more, pattern)
    {
      if k + |pattern| <= |words| {
        assert FoundAt(words, pattern, k);
      }
    }
    forall k: nat | FoundAt(words, pattern, k)
      ensures FoundAt(more, pattern, k)
    {}
  }

  /** Core 1 in the bootrom, perhaps with a word to echo, or in the application, with what it took and put. */
  datatype Core1 = Boot(held: Option<u32>) | App(dropped: seq<u32>, made: seq<u32>)

  /** The FIFOs and core 1; `echoed` is all that the bootrom has sent back since the reset. */
  datatype Link = Link(toCore1: seq<u32>, toCore0: seq<u32>, core1: Core1, script: seq<u32>, echoed: seq<u32>)

  function Held(l: Link): seq<u32> {
    if l.core1.Boot? && l.core1.held.Some? then [l.core1.held.value] else []
  }

  /** What the bootrom took since the reset. */
  function Consumed(l: Link): seq<u32> {
    l.echoed + Held(l)
  }

  function Dropped(l: Link): seq<u32> {
    if l.core1.App? then l.core1.dropped else []
  }

  function Made(l: Link): seq<u32> {
    if l.core1.App? then l.core1.made else []
  }

  /** Core 1 takes a word, if it can. */
  function Take(l: Link): Link {
    if l.toCore1 == [] then l
    else
      var w, rest := l.toCore1[0], l.toCore1[1..];
      match l.core1
      case Boot(None) => l.(toCore1 := rest, core1 := Boot(Some(w)))
      case Boot(Some(_)) => l
      case App(dropped, made) => l.(toCore1 := rest, core1 := App(dropped + [w], made))
  }

  /** Core 1 puts a word, if it can: the bootrom an echo, the application the next word of its script. */
  function Put(l: Link, t: Target): Link {
    if |l.toCore0| >= DEPTH then l
    else
      match l.core1
      case Boot(None) => l
      case Boot(Some(w)) =>
        var echoed := l.echoed + [w];
        l.(toCore0 := l.toCore0 + [w], echoed := echoed,
           core1 := if EndsWith(echoed, t.Pattern()) then App([], []) else Boot(None))
      case App(dropped, made) =>
        if l.script == [] then l
        else
          var w := l.script[0];
          l.(toCore0 := l.toCore0 + [w], script := l.script[1..], core1 := App(dropped, made + [w]))
  }

  /** The words that core 0 could still be made to pop. */
  function Work(l: Link): nat {
    |l.toCore1| + |Held(l)| + |l.toCore0| + |l.script|
  }

  /** What happened since the reset, as core 0 saw it. */
  datatype History = History(stale0: seq<u32>, stale1: seq<u32>, sent: seq<u32>, popped: seq<u32>)

  /** Every word is accounted for, and the application runs exactly if the pattern was echoed. */
  ghost predicate Linked(l: Link, t: Target, h: History) {
    && h.popped + l.toCore0 == h.stale0 + l.echoed + Made(l)
    && h.stale1 + h.sent == Consumed(l) + Dropped(l) + l.toCore1
    && (l.core1.App? <==> Contains(l.echoed, t.Pattern()))
  }

  /** `m` is a later state of the link than `l`, with no access by core 0 in between. */
  ghost predicate Later(l: Link, m: Link) {
    && l.toCore0 <= m.toCore0 && |m.toCore1| <= |l.toCore1|
    && Work(m) <= Work(l)
    && (l.core1.App? ==> m.core1.App?)
  }

  /** One step of core 1, which takes or puts. */
  function Core1Step(l: Link, t: Target, takes: bool): Link {
    if takes then Take(l) else Put(l, t)
  }

  lemma TakeKeeps(l: Link, t: Target, h: History)
    requires Linked(l, t, h)
    ensures Linked(Take(l), t, h) && Later(l, Take(l))
  {
    var m := Take(l);
    if m != l {
      assert l.toCore1 == [l.toCore1[0]] + m.toCore1;
    }
  }

  lemma PutKeeps(l: Link, t: Target, h: History)
    requires Linked(l, t, h)
    ensures Linked(Put(l, t), t, h) && Later(l, Put(l, t))
  {
    var m := Put(l, t);
    if m != l {
      var w := m.toCore0[|l.toCore0|];
      assert h.popped + m.toCore0 == (h.popped + l.toCore0) + [w];
      assert h.stale0 + m.echoed + Made(m) == (h.stale0 + l.echoed + Made(l)) + [w];
      if l.core1.Boot? {
        ContainsMore(l.echoed, w, t.Pattern());
      }
    }
  }

  /** Core 1's steps keep the accounts, whatever it does. */
  lemma Core1StepKeeps(l0: Link, l: Link, t: Target, h: History, takes: bool)
    requires Linked(l, t, h) && Later(l0, l)
    ensures var m := Core1Step(l, t, takes); Linked(m, t, h) && Later(l0, m)
  {
    TakeKeeps(l, t, h);
    PutKeeps(l, t, h);
  }

  /** Nothing is left for the bootrom to do. */
  predicate Settled(l: Link) {
    match l.core1
    case Boot(None) => l.toCore1 == []
    case Boot(Some(_)) => |l.toCore0| >= DEPTH
    case App(_, _) => true
  }

  function Unsettled(l: Link): nat {
    2 * |l.toCore1| + |Held(l)|
  }

  lemma SettlingEnds(l: Link, t: Target)
    requires !Settled(l)
    ensures Unsettled(Core1Step(l, t, Held(l) == [])) < Unsettled(l)
  {}

  /** `_cmd(i)`. */
  function Command(t: Target, i: nat): u32 {
    if i == 0 || i == 1 then 0
    else if i == 2 then 1
    else if i == 3 then t.vectorTable
    else if i == 4 then t.sp
    else t.entry
  }

  /** The words are the first `n` commands. */
  predicate Commands(t: Target, words: seq<u32>, n: nat) {
    |words| == n && forall j :: 0 <= j < n ==> words[j] == Command(t, j)
  }

  /** The last pops, all of them since the stale words were drained, are commands 1 to `i - 1`. */
  ghost predicate Recent(t: Target, popped: seq<u32>, stale: nat, i: nat) {
    i >= 2 ==>
      && |popped| - i + 1 >= stale
      && forall j {:trigger Command(t, j)} :: 1 <= j < i ==> popped[|popped| - i + j] == Command(t, j)
  }

  // --- a prompt core 1 --------------------------------------------------------------------------

  /** The first `i` commands were sent to a fresh core 1, and all of their echoes popped. */
  ghost predicate InStep(t: Target, h: History, i: nat) {
    && !Contains(h.stale1, t.Pattern()) && Commands(t, h.sent, i)
    && (0 < i < 6 ==> h.popped == h.stale0 + h.stale1 + h.sent)
  }

  /** No end of the stale words and beginning of the commands make up the pattern between them. */
  lemma PatternInCommands(t: Launchable, stale: seq<u32>, sent: seq<u32>, i: nat, k: nat)
    requires i <= 6 && !Contains(stale, t.Pattern()) && Commands(t, sent, i)
    requires FoundAt(stale + sent, t.Pattern(), k)
    ensures k == |stale| + 1 && i == 6
  {
    var words := stale + sent;
    assert i > 0 ==> words[|stale|] == sent[0] == Command(t, 0);
    assert forall j :: 0 <= j < 5 ==> words[k + j] == words[k..k + 5][j] == t.Pattern()[j];
    if k + 5 <= |stale| {
      FoundInside(stale, sent, t.Pattern(), k);
    }
    if k < |stale| < k + 5 {
      NoZeroAfterFirst(t, words, k, |stale|);
    }
    if k >= |stale| {
      assert words[k + 1] == sent[k + 1 - |stale|] == Command(t, k + 1 - |stale|);
      assert words[k] == sent[k - |stale|] == Command(t, k - |stale|);
    }
  }

  lemma NoZeroAfterFirst(t: Launchable, words: seq<u32>, k: nat, at: nat)
    requires FoundAt(words, t.Pattern(), k) && k < at < k + 5
    ensures words[at] != 0
  {
    assert words[at] == words[k..k + 5][at - k];
  }

  lemma FoundInside(words: seq<u32>, more: seq<u32>, pattern: seq<u32>, k: nat)
    requires k + |pattern| <= |words|
    ensures FoundAt(words + more, pattern, k) == FoundAt(words, pattern, k)
  {
    assert (words + more)[k..k + |pattern|] == words[k..k + |pattern|];
  }

  /** What was echoed is a prefix of what was sent, and core 1 runs only once it has echoed it all. */
  lemma EchoesFollow(l: Link, t: Launchable, h: History, i: nat)
    requires Linked(l, t, h) && i <= 6 && !Contains(h.stale1, t.Pattern()) && Commands(t, h.sent, i)
    ensures l.echoed <= h.stale1 + h.sent
    ensures l.core1.App? ==> i == 6 && |l.echoed| == |h.stale1| + 6
  {
    assert h.stale1 + h.sent == Consumed(l) + Dropped(l) + l.toCore1;
    if l.core1.App? {
      var k: nat :| FoundAt(l.echoed, t.Pattern(), k);
      assert (h.stale1 + h.sent)[k..k + 5] == l.echoed[k..k + 5];
      PatternInCommands(t, h.stale1, h.sent, i, k);
    }
  }

  lemma AllBack(l: Link, t: Launchable, h: History, i: nat)
    requires Linked(l, t, h) && 0 < i < 6 && InStep(t, h, i)
    ensures l.core1 == Boot(None) && l.toCore1 == [] && l.toCore0 == []
  {
    EchoesFollow(l, t, h, i);
    assert |h.popped| + |l.toCore0| == |h.stale0| + |l.echoed|;
    assert |h.stale1| + |h.sent| == |Consumed(l)| + |l.toCore1|;
  }

  /** A settled core 1 with no echo left to pop has echoed every word it was sent. */
  lemma NoneOutstanding(l: Link, t: Launchable, h: History, i: nat)
    requires Linked(l, t, h) && i <= 6 && !Contains(h.stale1, t.Pattern()) && Commands(t, h.sent, i)
    requires Settled(l) && l.toCore0 == []
    ensures |h.popped| >= |h.stale0| + |h.stale1| + i
    ensures i < 6 ==> h.popped == h.stale0 + h.stale1 + h.sent && l.toCore1 == []
  {
    EchoesFollow(l, t, h, i);
    if i < 6 {
      assert h.stale1 + h.sent == Consumed(l) == l.echoed;
      assert h.popped == h.popped + l.toCore0 == h.stale0 + (h.stale1 + h.sent);
    }
  }

  /** The echo popped after command `i` is that command. */
  lemma RightEcho(l: Link, t: Launchable, h: History, i: nat, v: u32)
    requires Linked(l, t, h) && i < 6 && !Contains(h.stale1, t.Pattern()) && Commands(t, h.sent, i + 1)
    requires h.popped == h.stale0 + h.stale1 + h.sent[..i] + [v]
    ensures v == Command(t, i) && h.popped == h.stale0 + h.stale1 + h.sent
  {
    EchoesFollow(l, t, h, i + 1);
    var at := |h.stale0| + |h.stale1| + i;
    assert h.popped[at] == (h.stale0 + l.echoed + Made(l))[at];
    assert |l.echoed| > |h.stale1| + i;
    assert l.echoed[|h.stale1| + i] == h.sent[i];
  }

  /** `_to_ticks`: microseconds of the RP2040 timer, or mcycle ticks at 16 a microsecond, in UInt32. */
  function ToTicks(riscv: bool, us: u32): u32 {
    if riscv then Trunc(us * 16) else us
  }

  /** A timeout lasts at least as long as was asked for exactly when its ticks fit 32 bits. */
  lemma TicksCoverTimeout(us: u32)
    ensures ToTicks(true, us) == us * 16 <==> us < 0x1000_0000
    ensures ToTicks(true, us) >= us * 16 <==> us < 0x1000_0000
    ensures ToTicks(false, us) == us
  {}

  /** If the last five pops are commands 1 to 5 and come after the stale words, core 1 runs. */
  lemma PatternEchoed(l: Link, t: Target, h: History)
    requires Linked(l, t, h)
    requires l.core1.Boot? ==> Recent(t, h.popped, |h.stale0|, 6)
    ensures l.core1.App?
  {
    if l.core1.Boot? {
      var k := |h.popped| - 5 - |h.stale0|;
      assert (h.popped + l.toCore0)[|h.stale0|..] == l.echoed;
      forall j | 0 <= j < 5
        ensures l.echoed[k + j] == t.Pattern()[j]
      {
        assert t.Pattern()[j] == Command(t, j + 1);
        assert l.echoed[k + j] == h.popped[|h.popped| - 5 + j];
      }
      PatternFound(l.echoed, t, k);
    }
  }

  lemma PatternFound(words: seq<u32>, t: Target, k: nat)
    requires k + 5 <= |words| && forall j :: 0 <= j < 5 ==> words[k + j] == t.Pattern()[j]
    ensures Contains(words, t.Pattern())
  {
    assert words[k..k + 5] == t.Pattern();
    assert FoundAt(words, t.Pattern(), k);
  }

  lemma EchoedWasConsumed(l: Link, t: Target, h: History)
    requires Linked(l, t, h) && l.core1.App?
    ensures Contains(Consumed(l), t.Pattern())
  {
    var k: nat :| FoundAt(l.echoed, t.Pattern(), k);
    assert FoundAt(Consumed(l), t.Pattern(), k);
  }
}