/**
  The one-pass assembler: `Asm` emits words as it goes and back-patches the jumps to forward labels.
  Its words always equal what the two-pass assembler would emit, but for the jumps still waiting.
 */
module PioAsm {
  import opened Bitwise
  import opened Words
  import opened PioSource
  import opened PioMeaning

  class Asm {
    const code: array<u16>
    var len: int
    var sideCount: nat
    var sideOpt: bool
    var sidePindirs: bool
    const fwAddr: array<int>
    var fwUsed: int
    const fixup: array<int>
    var pending: int

    /** The calls made so far. */
    ghost var stmts: seq<Stmt>

    ghost function Mode(): SideMode
      reads this
    {
      SideMode(sideCount, sideOpt, sidePindirs)
    }

    /** The labelled program written so far. */
    ghost function Source(): Program
      requires fwAddr.Length == 8
      reads this, fwAddr
    {
      Program(stmts, fwAddr[..], Mode())
    }

    /** The jumps whose handle has no address yet. */
    ghost function Waiting(): set<int>
      requires fwAddr.Length == 8
      reads this, fwAddr
    {
      WaitingIn(fwAddr[..], stmts)
    }

    ghost predicate Shape()
      reads this, fwAddr
    {
      && code.Length == 32 && fwAddr.Length == 8 && fixup.Length == 32
      && fwAddr != fixup && code as object != fwAddr && code as object != fixup
      && Mode().Width() <= 5
      && len == |stmts| <= 32 && 0 <= fwUsed <= 8
      && (forall id :: 0 <= id < 8 ==> -1 <= fwAddr[id] <= len)
      && (forall id :: fwUsed <= id < 8 ==> fwAddr[id] == -1)
      && (forall i :: 0 <= i < len ==> KnownTarget(stmts[i].op))
    }

    /** A jump goes to an address or to a handle that `Future` gave out. */
    ghost predicate KnownTarget(op: Op)
      reads this
    {
      op.IsJump() ==> -fwUsed <= op.target
    }

    ghost predicate EntriesOk()
      requires Shape()
      reads this, code, fwAddr, fixup
    {
      forall i :: 0 <= i < len ==> EntryOk(Mode(), fwAddr[..], stmts[i], code[i], fixup[i])
    }

    ghost predicate Valid()
      reads this, code, fwAddr, fixup
    {
      && Shape()
      && EntriesOk()
      && (forall i :: len <= i < 32 ==> fixup[i] == 0)
      && pending == |Waiting()|
    }

    constructor ()
      ensures Valid() && fresh(code) && fresh(fwAddr) && fresh(fixup)
      ensures stmts == [] && fwUsed == 0 && Mode() == SideMode(0, false, false)
    {
      code := new u16[32](_ => 0);
      len := 0;
      sideCount, sideOpt, sidePindirs := 0, false, false;
      fwAddr := new int[8](_ => -1);
      fwUsed := 0;
      fixup := new int[32](_ => 0);
      pending := 0;
      stmts := [];
      new;
      assert Waiting() == {};
    }

    /** What every emitting call does to the program: it adds one statement. */
    twostate predicate Appended(st: Stmt)
      reads this, fwAddr
    {
      && stmts == old(stmts) + [st]
      && fwAddr[..] == old(fwAddr[..]) && fwUsed == old(fwUsed) && Mode() == old(Mode())
    }

    method SideSet(count: int, optional: bool, pindirs: bool)
      requires Valid() && stmts == []
      requires count % 8 + (if optional then 1 else 0) <= 5
      modifies this`sideCount, this`sideOpt, this`sidePindirs
      ensures Valid() && Mode() == SideMode(count % 8, optional, pindirs)
    {
      sideCount := count % 8;
      sideOpt := optional;
      sidePindirs := pindirs;
    }

    method Label() returns (address: int)
      requires Valid()
      ensures address == |stmts|
    {
      address := len;
    }

    method Future() returns (handle: int)
      requires Valid() && fwUsed < 8
      modifies this`fwUsed
      ensures Valid() && fwUsed == old(fwUsed) + 1
      ensures handle == -fwUsed && fwAddr[-handle - 1] == -1
    {
      var id := fwUsed;
      fwUsed := fwUsed + 1;
      handle := -(id + 1);
    }

    /** Bind a handle here, once: its label gets this address and its jumps are patched. */
    method Bind(handle: int)
      requires Valid()
      requires -fwUsed <= handle < 0 && fwAddr[-handle - 1] == -1
      modifies this`pending, code, fwAddr, fixup
      ensures Valid() && Waiting() == set i | i in old(Waiting()) && stmts[i].op.target != handle
      ensures fwAddr[..] == old(fwAddr[..])[-handle - 1 := len]
    {
      var id := -handle - 1;
      ghost var labels, words, fixes := fwAddr[..], code[..], fixup[..];
      fwAddr[id] := len;
      LeftEnd(labels, stmts, handle, len);
      for i := 0 to len
        invariant fwAddr[..] == labels[id := len]
        invariant pending == |Left(labels, stmts, handle, i)|
        invariant PatchedTo(words, code[..], fixes, fixup[..], id + 1, len, i)
      {
        LeftStep(labels, stmts, handle, i);
        ghost var code0, fix0 := code[..], fixup[..];
        if fixup[i] == id + 1 {
          code[i] := PatchedWord(code[i], len);
          fixup[i] := 0;
          pending := pending - 1;
        }
        PatchedOne(words, code0, code[..], fixes, fix0, fixup[..], id + 1, len, i);
        BindEntry(Mode(), labels, id, len, stmts[i], words[i], fixes[i]);
      }
      AllBound(Mode(), labels, id, len, stmts, words, code[..], fixes, fixup[..]);
    }

    method Unresolved() returns (n: int)
      requires Valid()
      ensures n == |Waiting()|
      ensures n == 0 <==> forall i :: 0 <= i < |stmts| ==> !WaitsFor(fwAddr[..], stmts[i].op)
    {
      n := pending;
      if n != 0 {
        ghost var i :| i in Waiting();
      } else {
        assert forall i :: 0 <= i < |stmts| && WaitsFor(fwAddr[..], stmts[i].op) ==> i in Waiting();
      }
    }

    /** Bits 12:8: [enable][side-set bits][delay bits]. */
    method PackField(delay: int, side: int) returns (field: int)
      requires Mode().Width() <= 5
      ensures field == Field(Mode(), delay, side)
    {
      var sBits := sideCount + if sideOpt then 1 else 0;
      field := Masked(delay, 5 - sBits);
      if sideCount > 0 && side >= 0 {
        var sv := Masked(side, sideCount);
        if sideOpt {
          OptionalSideJoins(field, sv, sideCount);
          field := Or(field, Or(0x10, Shl(sv, 4 - sideCount)));
        } else {
          JoinIsSum(sv, field, 5 - sideCount);
          field := Or(field, Shl(sv, 5 - sideCount));
        }
      }
    }

    /**
      Pack the delay and side-set into bits 12:8 of `instr` and store the word. `waits` says that the
      jump's address is still to come and that its fixup is already in place.
     */
    method Emit(instr: u16, delay: int, side: int, ghost op: Op, ghost waits: bool)
      requires Shape() && len < 32 && KnownTarget(op) && waits == WaitsFor(fwAddr[..], op)
      requires instr == OpBits(op, if waits then 0 else AddressOf(fwAddr[..], op))
      requires EntriesOk()
      requires forall i :: len < i < 32 ==> fixup[i] == 0
      requires fixup[len] == if waits then -op.target else 0
      requires pending == |Waiting()| + if waits then 1 else 0
      modifies this`len, this`stmts, code
      ensures Valid() && Appended(Stmt(op, delay, side))
    {
      var field := PackField(delay, side);
      ghost var st := Stmt(op, delay, side);
      NewEntry(Mode(), fwAddr[..], stmts, st, instr, fixup[len]);
      assert field % 32 == field;
      OpFieldClear(op, if waits then 0 else AddressOf(fwAddr[..], op));
      var word := WithField(instr, field);
      Append(word, st);
    }

    /** Store the finished word of a statement. */
    method Append(word: u16, ghost st: Stmt)
      requires Shape() && len < 32 && KnownTarget(st.op) && EntriesOk()
      requires EntryOk(Mode(), fwAddr[..], st, word, fixup[len])
      requires forall i :: len < i < 32 ==> fixup[i] == 0
      requires pending == |WaitingIn(fwAddr[..], stmts + [st])|
      modifies this`len, this`stmts, code
      ensures Valid() && Appended(st)
    {
      ghost var words := code[..];
      code[len] := word;
      EntriesAndOne(Mode(), fwAddr[..], stmts, st, words, code[..], fixup[..]);
      stmts := stmts + [st];
      len := len + 1;
    }

    /** The address bits of a jump; a jump to an unbound handle leaves a fixup instead. */
    method JmpTarget(target: int, ghost op: Op) returns (t: u16)
      requires Valid() && len < 32 && op.IsJump() && op.target == target && -fwUsed <= target
      modifies this`pending, fixup
      ensures var waits := WaitsFor(fwAddr[..], op);
              && t == (if waits then 0 else AddressOf(fwAddr[..], op) % 32)
              && fixup[len] == (if waits then -target else 0)
              && pending == old(pending) + if waits then 1 else 0
      ensures Shape() && EntriesOk()
      ensures forall i :: len < i < 32 ==> fixup[i] == 0
    {
      var a := target;
      if a < 0 {
        var id := -a - 1;
        if fwAddr[id] >= 0 {
          a := fwAddr[id];
        } else {
          fixup[len] := id + 1;
          pending := pending + 1;
          a := 0;
        }
      }
      t := LowFive(a);
    }

    method SetPins(value: int, delay: int := 0, side: int := -1)
      requires Valid() && len < 32
      modifies this`len, this`stmts, code
      ensures Valid() && Appended(Stmt(Op.SetPins(value), delay, side))
    {
      var operand := LowFive(value);
      var instr := WithLow(0xE000, operand);
      Emit(instr, delay, side, Op.SetPins(value), false);
    }

    method SetPindirs(value: int, delay: int := 0, side: int := -1)
      requires Valid() && len < 32
      modifies this`len, this`stmts, code
      ensures Valid() && Appended(Stmt(Op.SetPindirs(value), delay, side))
    {
      var operand := LowFive(value);
      var instr := WithLow(0xE080, operand);
      Emit(instr, delay, side, Op.SetPindirs(value), false);
    }

    method SetX(value: int, delay: int := 0, side: int := -1)
      requires Valid() && len < 32
      modifies this`len, this`stmts, code
      ensures Valid() && Appended(Stmt(Op.SetX(value), delay, side))
    {
      var operand := LowFive(value);
      var instr := WithLow(0xE020, operand);
      Emit(instr, delay, side, Op.SetX(value), false);
    }

    method SetY(value: int, delay: int := 0, side: int := -1)
      requires Valid() && len < 32
      modifies this`len, this`stmts, code
      ensures Valid() && Appended(Stmt(Op.SetY(value), delay, side))
    {
      var operand := LowFive(value);
      var instr := WithLow(0xE040, operand);
      Emit(instr, delay, side, Op.SetY(value), false);
    }

    method Jmp(target: int, delay: int := 0, side: int := -1)
      requires Valid() && len < 32 && -fwUsed <= target
      modifies this`len, this`stmts, this`pending, code, fixup
      ensures Valid() && Appended(Stmt(Op.JmpAlways(target), delay, side))
    {
      var t := JmpTarget(target, Op.JmpAlways(target));
      var instr := WithLow(0x0000, t);
      Emit(instr, delay, side, Op.JmpAlways(target), WaitsFor(fwAddr[..], Op.JmpAlways(target)));
    }

    method JmpNotX(target: int, delay: int := 0, side: int := -1)
      requires Valid() && len < 32 && -fwUsed <= target
      modifies this`len, this`stmts, this`pending, code, fixup
      ensures Valid() && Appended(Stmt(Op.JmpNotX(target), delay, side))
    {
      var t := JmpTarget(target, Op.JmpNotX(target));
      var instr := WithLow(0x0020, t);
      Emit(instr, delay, side, Op.JmpNotX(target), WaitsFor(fwAddr[..], Op.JmpNotX(target)));
    }

    method JmpXDec(target: int, delay: int := 0, side: int := -1)
      requires Valid() && len < 32 && -fwUsed <= target
      modifies this`len, this`stmts, this`pending, code, fixup
      ensures Valid() && Appended(Stmt(Op.JmpXDec(target), delay, side))
    {
      var t := JmpTarget(target, Op.JmpXDec(target));
      var instr := WithLow(0x0040, t);
      Emit(instr, delay, side, Op.JmpXDec(target), WaitsFor(fwAddr[..], Op.JmpXDec(target)));
    }

    method JmpNotY(target: int, delay: int := 0, side: int := -1)
      requires Valid() && len < 32 && -fwUsed <= target
      modifies this`len, this`stmts, this`pending, code, fixup
      ensures Valid() && Appended(Stmt(Op.JmpNotY(target), delay, side))
    {
      var t := JmpTarget(target, Op.JmpNotY(target));
      var instr := WithLow(0x0060, t);
      Emit(instr, delay, side, Op.JmpNotY(target), WaitsFor(fwAddr[..], Op.JmpNotY(target)));
    }

    method JmpYDec(target: int, delay: int := 0, side: int := -1)
      requires Valid() && len < 32 && -fwUsed <= target
      modifies this`len, this`stmts, this`pending, code, fixup
      ensures Valid() && Appended(Stmt(Op.JmpYDec(target), delay, side))
    {
      var t := JmpTarget(target, Op.JmpYDec(target));
      var instr := WithLow(0x0080, t);
      Emit(instr, delay, side, Op.JmpYDec(target), WaitsFor(fwAddr[..], Op.JmpYDec(target)));
    }

    method JmpPin(target: int, delay: int := 0, side: int := -1)
      requires Valid() && len < 32 && -fwUsed <= target
      modifies this`len, this`stmts, this`pending, code, fixup
      ensures Valid() && Appended(Stmt(Op.JmpPin(target), delay, side))
    {
      var t := JmpTarget(target, Op.JmpPin(target));
      var instr := WithLow(0x00C0, t);
      Emit(instr, delay, side, Op.JmpPin(target), WaitsFor(fwAddr[..], Op.JmpPin(target)));
    }

    method WaitGpio(polarity: int, gpio: int, delay: int := 0, side: int := -1)
      requires Valid() && len < 32
      modifies this`len, this`stmts, code
      ensures Valid() && Appended(Stmt(Op.WaitGpio(polarity, gpio), delay, side))
    {
      var instr := WaitWord(polarity, gpio);
      Emit(instr, delay, side, Op.WaitGpio(polarity, gpio), false);
    }

    method InX(count: int, delay: int := 0, side: int := -1)
      requires Valid() && len < 32
      modifies this`len, this`stmts, code
      ensures Valid() && Appended(Stmt(Op.InX(count), delay, side))
    {
      var operand := LowFive(count);
      var instr := WithLow(0x4020, operand);
      Emit(instr, delay, side, Op.InX(count), false);
    }

    method PushBlock(delay: int := 0, side: int := -1)
      requires Valid() && len < 32
      modifies this`len, this`stmts, code
      ensures Valid() && Appended(Stmt(Op.PushBlock, delay, side))
    {
      Emit(0x8020, delay, side, Op.PushBlock, false);
    }

    method OutPins(count: int, delay: int := 0, side: int := -1)
      requires Valid() && len < 32
      modifies this`len, this`stmts, code
      ensures Valid() && Appended(Stmt(Op.OutPins(count), delay, side))
    {
      var operand := LowFive(count);
      var instr := WithLow(0x6000, operand);
      Emit(instr, delay, side, Op.OutPins(count), false);
    }

    method OutX(count: int, delay: int := 0, side: int := -1)
      requires Valid() && len < 32
      modifies this`len, this`stmts, code
      ensures Valid() && Appended(Stmt(Op.OutX(count), delay, side))
    {
      var operand := LowFive(count);
      var instr := WithLow(0x6020, operand);
      Emit(instr, delay, side, Op.OutX(count), false);
    }

    method PullBlock(delay: int := 0, side: int := -1)
      requires Valid() && len < 32
      modifies this`len, this`stmts, code
      ensures Valid() && Appended(Stmt(Op.PullBlock, delay, side))
    {
      Emit(0x80A0, delay, side, Op.PullBlock, false);
    }

    method PullNoblock(delay: int := 0, side: int := -1)
      requires Valid() && len < 32
      modifies this`len, this`stmts, code
      ensures Valid() && Appended(Stmt(Op.PullNoblock, delay, side))
    {
      Emit(0x8080, delay, side, Op.PullNoblock, false);
    }

    method MovPinsX(delay: int := 0, side: int := -1)
      requires Valid() && len < 32
      modifies this`len, this`stmts, code
      ensures Valid() && Appended(Stmt(Op.MovPinsX, delay, side))
    {
      Emit(0xA001, delay, side, Op.MovPinsX, false);
    }

    method MovXPins(delay: int := 0, side: int := -1)
      requires Valid() && len < 32
      modifies this`len, this`stmts, code
      ensures Valid() && Appended(Stmt(Op.MovXPins, delay, side))
    {
      Emit(0xA020, delay, side, Op.MovXPins, false);
    }

    method MovXNotNull(delay: int := 0, side: int := -1)
      requires Valid() && len < 32
      modifies this`len, this`stmts, code
      ensures Valid() && Appended(Stmt(Op.MovXNotNull, delay, side))
    {
      Emit(0xA02B, delay, side, Op.MovXNotNull, false);
    }

    method Nop(delay: int := 0, side: int := -1)
      requires Valid() && len < 32
      modifies this`len, this`stmts, code
      ensures Valid() && Appended(Stmt(Op.Nop, delay, side))
    {
      Emit(0xA042, delay, side, Op.Nop, false);
    }
  }

  /** `v & ((1 << k) - 1)` on an Int. */
  method Masked(v: int, k: nat) returns (r: nat)
    requires k <= 64
    ensures r == LowBits(v, k)
  {
    MaskOfInt(v, k);
    r := And(Word64(v), Pow2(k) - 1);
  }

  /** `v & 0x1F`. */
  method LowFive(v: int) returns (r: u16)
    ensures r == v % 32
  {
    r := Masked(v, 5);
    Pow2Small();
  }

  /** `opcode | operand`, where the low five bits of the opcode are clear. */
  method WithLow(opcode: u16, operand: u16) returns (w: u16)
    requires opcode % 32 == 0 && operand < 32
    ensures w == opcode + operand
  {
    Pow2Small();
    JoinFive(opcode / 32, operand);
    w := Or(opcode, operand);
  }

  /** `0x2000 | (polarity & 1) << 7 | gpio & 0x1F`. */
  method WaitWord(polarity: int, gpio: int) returns (w: u16)
    ensures w == 0x2000 + polarity % 2 * 128 + gpio % 32
  {
    var p := Masked(polarity, 1);
    var pin := LowFive(gpio);
    PolarityJoins(p);
    PolarityClear(p);
    w := WithLow(Or(0x2000, p * 128), pin);
  }

  lemma PolarityClear(p: nat)
    requires p < 2
    ensures (0x2000 + p * 128) % 32 == 0
  {}

  lemma PolarityJoins(p: nat)
    requires p < Pow2(1)
    ensures p < 2 && Or(0x2000, p * 128) == 0x2000 + p * 128
  {
    PowOf7();
    PolaritySum(p);
    JoinBetween(64, 0, p, 7);
  }

  lemma PowOf7()
    ensures Pow2(7) == 128
  {}

  lemma PolaritySum(p: nat)
    requires p < Pow2(1)
    ensures p < 2 && Or(64, p) == 64 + p
  {
    JoinIsSum(32, p, 1);
  }

  /** `field | 0x10 | (sv << (4 - count))`: the enable bit, the side bits and the delay bits lie apart. */
  lemma OptionalSideJoins(field: nat, sv: nat, count: nat)
    requires count <= 4 && field < Pow2(4 - count) && sv < Pow2(count)
    ensures Or(field, Or(0x10, Shl(sv, 4 - count))) == field + (16 + Shl(sv, 4 - count))
  {
    EnableJoins(sv, count);
    Pow2Split(count, sv);
    JoinIsSum(Pow2(count) + sv, field, 4 - count);
  }

  lemma EnableJoins(sv: nat, count: nat)
    requires count <= 4 && sv < Pow2(count)
    ensures Or(0x10, Shl(sv, 4 - count)) == 16 + Shl(sv, 4 - count)
  {
    Pow2Small();
    PowSplit(count, 4 - count);
    ShiftedBelow(sv, Pow2(count), Pow2(4 - count));
    JoinIsSum(1, Shl(sv, 4 - count), 4);
  }

  lemma ShiftedBelow(sv: nat, p: nat, q: nat)
    requires sv < p && q >= 1
    ensures sv * q < p * q
  {
    MulAtLeast(p - sv, q);
    MulSub(p, sv, q);
  }

  /** Bits 12:8 of an operation's own word are clear. */
  lemma OpFieldClear(op: Op, address: int)
    ensures OpBits(op, address) % 8192 < 256
  {
    OpParts(op, address);
    var (opcode, operand, low) := Parts(op, address);
    DivMod(OpBits(op, address), 8192, opcode, operand * 32 + low);
  }

  /** `instr | ((field & 0x1F) << 8)`. */
  method WithField(instr: u16, field: nat) returns (w: u16)
    requires instr % 8192 < 256
    ensures w == instr + field % 32 * 256
  {
    var f := Masked(field, 5);
    Pow2Small();
    FieldJoins(instr / 8192, instr % 8192, f);
    WordParts(instr);
    w := Or(instr, f * 256);
  }

  lemma WordParts(instr: u16)
    ensures instr == instr / 8192 * 32 * 256 + instr % 8192
  {}

  lemma FieldJoins(high: nat, low: nat, f: nat)
    requires low < 256 && f < 32
    ensures Or(high * 32 * 256 + low, f * 256) == high * 32 * 256 + low + f * 256
  {
    Pow2Small();
    PowOf8();
    JoinIsSum(high, f, 5);
    JoinBetween(high * 32, low, f, 8);
  }

  lemma PowOf8()
    ensures Pow2(8) == 256
  {
    Pow2Small();
    assert Pow2(8) == 8 * Pow2(5);
  }

  /** `(w & ~0x1F) | (address & 0x1F)`. */
  method PatchedWord(w: u16, address: int) returns (r: u16)
    ensures r == Patch(w, address)
  {
    var a := Masked(address, 5);
    ClearFive(w);
    JoinFive(w / 32, a);
    assert w == w / 32 * 32 + w % 32;
    r := Or(And(w, 0xFFE0), a);
  }

  lemma ClearFive(w: u16)
    ensures And(w, 0xFFE0) == w - w % 32
  {
    Pow2Small();
    assert Pow2(16) == 2048 * Pow2(5) == 65536;
    ClearLow(w, 5, 11);
    assert (0 - 32) % 65536 == 0xFFE0;
  }

  lemma JoinFive(high: nat, low: nat)
    requires low < Pow2(5)
    ensures Pow2(5) == 32 && Or(high * 32, low) == high * 32 + low
  {
    Pow2Small();
    JoinIsSum(high, low, 5);
  }

  /** Below `i` the words whose fixup is `mark` are patched, and the rest are as they were. */
  ghost predicate PatchedTo(words: seq<u16>, code: seq<u16>, fixes: seq<int>, fix: seq<int>, mark: int, address: int, i: int) {
    && |words| == |code| == |fixes| == |fix| == 32
    && forall j :: 0 <= j < 32 ==>
         if j < i && fixes[j] == mark then code[j] == Patch(words[j], address) && fix[j] == 0
         else code[j] == words[j] && fix[j] == fixes[j]
  }

  lemma PatchedOne(words: seq<u16>, code0: seq<u16>, code: seq<u16>, fixes: seq<int>, fix0: seq<int>, fix: seq<int>,
                   mark: int, address: int, i: nat)
    requires i < 32 && PatchedTo(words, code0, fixes, fix0, mark, address, i)
    requires if fix0[i] == mark then code == code0[i := Patch(code0[i], address)] && fix == fix0[i := 0]
             else code == code0 && fix == fix0
    ensures PatchedTo(words, code, fixes, fix, mark, address, i + 1)
  {}

  lemma AllBound(mode: SideMode, labels: Labels, id: int, address: nat, stmts: seq<Stmt>,
                 words: seq<u16>, code: seq<u16>, fixes: seq<int>, fix: seq<int>)
    requires mode.Width() <= 5 && 0 <= id < 8 && labels[id] == -1 && |stmts| <= 32
    requires PatchedTo(words, code, fixes, fix, id + 1, address, |stmts|)
    requires forall i :: 0 <= i < |stmts| ==> EntryOk(mode, labels, stmts[i], words[i], fixes[i])
    ensures forall i :: 0 <= i < |stmts| ==> EntryOk(mode, labels[id := address], stmts[i], code[i], fix[i])
  {
    forall i | 0 <= i < |stmts|
      ensures EntryOk(mode, labels[id := address], stmts[i], code[i], fix[i])
    {
      BindEntry(mode, labels, id, address, stmts[i], words[i], fixes[i]);
    }
  }

  lemma EntriesAndOne(mode: SideMode, labels: Labels, stmts: seq<Stmt>, st: Stmt,
                      words: seq<u16>, code: seq<u16>, fix: seq<int>)
    requires mode.Width() <= 5 && |stmts| < |words| == |code| == |fix|
    requires forall i :: 0 <= i < |stmts| ==> EntryOk(mode, labels, stmts[i], words[i], fix[i])
    requires EntryOk(mode, labels, st, code[|stmts|], fix[|stmts|]) && code == words[|stmts| := code[|stmts|]]
    ensures forall i :: 0 <= i < |stmts| + 1 ==> EntryOk(mode, labels, (stmts + [st])[i], code[i], fix[i])
  {}

  /** A jump to a handle that is not bound yet. */
  predicate WaitsFor(labels: Labels, op: Op) {
    op.IsJump() && -8 <= op.target < 0 && labels[-op.target - 1] == -1
  }

  /** The word of a new statement, and the jumps that wait once it is added. */
  lemma NewEntry(mode: SideMode, labels: Labels, stmts: seq<Stmt>, st: Stmt, instr: u16, fix: int)
    requires mode.Width() <= 5 && (st.op.IsJump() ==> -8 <= st.op.target)
    requires var waits := WaitsFor(labels, st.op);
             && instr == OpBits(st.op, if waits then 0 else AddressOf(labels, st.op))
             && fix == if waits then -st.op.target else 0
    ensures var word := instr + Field(mode, st.delay, st.side) * 256;
            word < 0x1_0000 && EntryOk(mode, labels, st, word, fix)
    ensures |WaitingIn(labels, stmts + [st])| == |WaitingIn(labels, stmts)| + if WaitsFor(labels, st.op) then 1 else 0
  {
    var next := WaitingIn(labels, stmts + [st]);
    if WaitsFor(labels, st.op) {
      assert next == WaitingIn(labels, stmts) + {|stmts|};
    } else {
      assert next == WaitingIn(labels, stmts);
    }
  }

  /**
    A fixup marks exactly a jump that waits for its handle, and that word holds address 0; every other
    word is final.
   */
  predicate EntryOk(mode: SideMode, labels: Labels, st: Stmt, word: u16, fix: int)
    requires mode.Width() <= 5
  {
    && (st.op.IsJump() ==> -8 <= st.op.target)
    && if WaitsFor(labels, st.op) then fix == -st.op.target && word == Encode(mode, st, 0)
       else fix == 0 && word == Encode(mode, st, AddressOf(labels, st.op))
  }

  /** `(w & ~0x1F) | (address & 0x1F)`. */
  function Patch(w: u16, address: int): u16 {
    w - w % 32 + address % 32
  }

  ghost function WaitingIn(labels: Labels, stmts: seq<Stmt>): set<int> {
    set i | 0 <= i < |stmts| && WaitsFor(labels, stmts[i].op)
  }

  /** The jumps still waiting when those to `handle` below `n` have been patched. */
  ghost function Left(labels: Labels, stmts: seq<Stmt>, handle: int, n: int): set<int> {
    set i | i in WaitingIn(labels, stmts) && !(stmts[i].op.target == handle && i < n)
  }

  lemma LeftStep(labels: Labels, stmts: seq<Stmt>, handle: int, n: int)
    requires 0 <= n < |stmts|
    ensures var next := Left(labels, stmts, handle, n + 1);
            if WaitsFor(labels, stmts[n].op) && stmts[n].op.target == handle
            then |next| == |Left(labels, stmts, handle, n)| - 1
            else next == Left(labels, stmts, handle, n)
  {
    if WaitsFor(labels, stmts[n].op) && stmts[n].op.target == handle {
      assert n in Left(labels, stmts, handle, n);
      assert Left(labels, stmts, handle, n + 1) == Left(labels, stmts, handle, n) - {n};
    }
  }

  lemma LeftEnd(labels: Labels, stmts: seq<Stmt>, handle: int, address: int)
    requires -8 <= handle < 0 && labels[-handle - 1] == -1 && address >= 0
    ensures Left(labels, stmts, handle, 0) == WaitingIn(labels, stmts)
    ensures Left(labels, stmts, handle, |stmts|) == WaitingIn(labels[-handle - 1 := address], stmts)
  {}

  /** Binding handle `id` patches the words whose fixup names it, and leaves the others right. */
  lemma BindEntry(mode: SideMode, labels: Labels, id: int, address: nat, st: Stmt, word: u16, fix: int)
    requires mode.Width() <= 5 && 0 <= id < 8 && labels[id] == -1
    requires EntryOk(mode, labels, st, word, fix)
    ensures fix == id + 1 <==> WaitsFor(labels, st.op) && st.op.target == -id - 1
    ensures var labels' := labels[id := address];
            if fix == id + 1 then
              EntryOk(mode, labels', st, Patch(word, address), 0)
            else EntryOk(mode, labels', st, word, fix)
  {
    if fix == id + 1 {
      PatchWord(mode, st, address);
    }
  }

  /** Patching the address field of a jump's word is assembling it with that address. */
  lemma PatchWord(mode: SideMode, st: Stmt, address: int)
    requires mode.Width() <= 5 && st.op.IsJump()
    ensures Patch(Encode(mode, st, 0), address) == Encode(mode, st, address)
  {
    var field := Field(mode, st.delay, st.side);
    var (opcode, operand, low) := Parts(st.op, 0);
    OpParts(st.op, 0);
    OpParts(st.op, address);
    Fields(opcode, field, operand, low);
  }

  /** `pending` counts the nonzero fixups, which lie below `len` on jumps to still unbound handles. */
  lemma FixupsAreWaitingJumps(a: Asm)
    requires a.Valid()
    ensures a.pending == |set i | 0 <= i < 32 && a.fixup[i] != 0|
    ensures forall i :: 0 <= i < 32 && a.fixup[i] != 0 ==>
              i < a.len && a.stmts[i].op.IsJump() && a.stmts[i].op.target == -a.fixup[i] && a.fwAddr[a.fixup[i] - 1] == -1
  {
    assert a.Waiting() == set i | 0 <= i < 32 && a.fixup[i] != 0;
  }

  /** Back-patching equals two-pass assembly: once nothing waits, the words are the reference ones. */
  lemma BackPatchingIsTwoPass(a: Asm)
    requires a.Valid() && a.pending == 0 && a.Source().Valid()
    ensures a.code[..a.len] == Assemble(a.Source())
  {
    forall i | 0 <= i < a.len
      ensures a.code[i] == Assemble(a.Source())[i]
    {
      assert i !in a.Waiting();
    }
  }
}
