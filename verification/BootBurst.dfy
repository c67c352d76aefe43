/**
  Damage anywhere in the boot block. The checksum is stored with its lowest byte first, so that code and
  checksum together are no code word of the polynomial: damage inside 32 consecutive bits is always found
  in the code alone, but across its end only up to 30.
 */
module BootBurst {
  import opened ShiftRegister
  import opened Crc
  import opened ElfCheck

  // --- the register backwards -----------------------------------------------------------------------

  /** The taps of the polynomial, moved down by one, for a lowest bit that has been moved to the top. */
  function Taps(t: bv32): bv32 {
    (t >> 31) ^ (t >> 30) ^ (t >> 28) ^ (t >> 27) ^ (t >> 25) ^ (t >> 24) ^ (t >> 22) ^ (t >> 21) ^ (t >> 20)
    ^ (t >> 16) ^ (t >> 10) ^ (t >> 9) ^ (t >> 6)
  }

  /** One step back for the difference of two registers; the top bit is lost, and taken as equal. */
  function Undo(d: bv32): bv32 {
    (d >> 1) ^ Taps(d << 31)
  }

  function Undone(d: bv32, n: nat): bv32
    decreases n
  {
    if n == 0 then d else Undone(Undo(d), n - 1)
  }

  /** The low `n` bits. */
  function Low(n: nat): bv32 {
    if n == 0 then 0 else Wider(Low(n - 1))
  }

  function Wider(mask: bv32): bv32 {
    (mask << 1) | 1
  }

  lemma LowIs()
    ensures Low(1) == 0x0000_0001 && Low(2) == 0x0000_0003 && Low(3) == 0x0000_0007 && Low(4) == 0x0000_000F
    ensures Low(5) == 0x0000_001F && Low(6) == 0x0000_003F && Low(7) == 0x0000_007F && Low(8) == 0x0000_00FF
    ensures Low(9) == 0x0000_01FF && Low(10) == 0x0000_03FF && Low(11) == 0x0000_07FF && Low(12) == 0x0000_0FFF
    ensures Low(13) == 0x0000_1FFF && Low(14) == 0x0000_3FFF && Low(15) == 0x0000_7FFF && Low(16) == 0x0000_FFFF
    ensures Low(17) == 0x0001_FFFF && Low(18) == 0x0003_FFFF && Low(19) == 0x0007_FFFF && Low(20) == 0x000F_FFFF
    ensures Low(21) == 0x001F_FFFF && Low(22) == 0x003F_FFFF && Low(23) == 0x007F_FFFF && Low(24) == 0x00FF_FFFF
    ensures Low(25) == 0x01FF_FFFF && Low(26) == 0x03FF_FFFF && Low(27) == 0x07FF_FFFF && Low(28) == 0x0FFF_FFFF
    ensures Low(29) == 0x1FFF_FFFF && Low(30) == 0x3FFF_FFFF && Low(31) == 0x7FFF_FFFF && Low(32) == 0xFFFF_FFFF
  {}

  predicate Agree(x: bv32, y: bv32, mask: bv32) {
    (x ^ y) & mask == 0
  }

  predicate Clear(x: bv32, mask: bv32) {
    x & mask == 0
  }

  /** Registers shifted, with or without the tap; taken back, the difference is what it was, but for the top bit. */
  lemma UndoStep(a: bv32, b: bv32, p: bv32, q: bv32)
    requires (p == 0 || p == 0x04C1_1DB7) && (q == 0 || q == 0x04C1_1DB7)
    ensures Agree(Undo(Xor(Shifted(a, p), Shifted(b, q))), Xor(a, b), 0x7FFF_FFFF)
  {
    Regrouped(a, b, p, q);
    TapsCancel(p, q);
    if Xor(p, q) == 0 {
      UndoNoTap(Xor(a, b));
    } else {
      UndoTap(Xor(a, b));
    }
  }

  function Shifted(c: bv32, tap: bv32): bv32 {
    Xor(Double(c), tap)
  }

  lemma Regrouped(a: bv32, b: bv32, p: bv32, q: bv32)
    ensures Xor(Shifted(a, p), Shifted(b, q)) == Shifted(Xor(a, b), Xor(p, q))
  {
    DoubleXor(a, b);
    XorSwap(Double(a), p, Double(b), q);
  }

  lemma DoubleXor(a: bv32, b: bv32)
    ensures Double(Xor(a, b)) == Xor(Double(a), Double(b))
  {}

  lemma XorSwap(x: bv32, p: bv32, y: bv32, q: bv32)
    ensures Xor(Xor(x, p), Xor(y, q)) == Xor(Xor(x, y), Xor(p, q))
  {
    XorAssoc(x, p, Xor(y, q));
    XorAssoc(p, y, q);
    XorComm(p, y);
    XorAssoc(y, p, q);
    XorAssoc(x, y, Xor(p, q));
  }

  lemma XorComm(a: bv32, b: bv32)
    ensures Xor(a, b) == Xor(b, a)
  {}

  lemma XorAssoc(a: bv32, b: bv32, c: bv32)
    ensures Xor(Xor(a, b), c) == Xor(a, Xor(b, c))
  {}

  lemma TapsCancel(p: bv32, q: bv32)
    requires (p == 0 || p == 0x04C1_1DB7) && (q == 0 || q == 0x04C1_1DB7)
    ensures Xor(p, q) == 0 || Xor(p, q) == 0x04C1_1DB7
  {}

  lemma UndoNoTap(d: bv32)
    ensures Agree(Undo(Shifted(d, 0)), d, 0x7FFF_FFFF)
  {}

  lemma UndoTap(d: bv32)
    ensures Agree(Undo(Shifted(d, 0x04C1_1DB7)), d, 0x7FFF_FFFF)
  {}

  /** Agreement on low bits moves down by one place. */
  lemma UndoAgrees(x: bv32, y: bv32, mask: bv32)
    requires Agree(x, y, Wider(mask)) && Clear(mask, 0x8000_0000)
    ensures Agree(Undo(x), Undo(y), mask)
  {}

  lemma LowBelow(k: nat)
    requires k < 32
    ensures Clear(Low(k), 0x8000_0000)
  {
    LowIs();
    match k
    case 0 => case 1 => case 2 => case 3 => case 4 => case 5 => case 6 => case 7 =>
    case 8 => case 9 => case 10 => case 11 => case 12 => case 13 => case 14 => case 15 =>
    case 16 => case 17 => case 18 => case 19 => case 20 => case 21 => case 22 => case 23 =>
    case 24 => case 25 => case 26 => case 27 => case 28 => case 29 => case 30 => case 31 =>
  }

  lemma {:induction false} UndoneAgrees(x: bv32, y: bv32, n: nat, k: nat)
    requires k + n <= 32 && Agree(x, y, Low(k + n))
    ensures Agree(Undone(x, n), Undone(y, n), Low(k))
    decreases n
  {
    if n > 0 {
      LowBelow(k + n - 1);
      UndoAgrees(x, y, Low(k + n - 1));
      UndoneAgrees(Undo(x), Undo(y), n - 1, k);
    }
  }

  predicate Nested(mask: bv32, wider: bv32) {
    mask & wider == mask
  }

  lemma WiderNested(mask: bv32, wider: bv32)
    requires Nested(mask, wider)
    ensures Nested(Wider(mask), Wider(wider))
  {}

  lemma {:induction false} LowNested(k: nat)
    ensures Nested(Low(k), Low(k + 1))
  {
    if k > 0 {
      LowNested(k - 1);
      WiderNested(Low(k - 1), Low(k));
    }
  }

  lemma ClearOn(v: bv32, w: bv32, mask: bv32, wider: bv32)
    requires Nested(mask, wider) && Agree(v, w, mask) && Clear(w, wider)
    ensures Clear(v, mask)
  {}

  /** One step further: `d` taken back once agrees with `e`, whose low bits vanish if taken back further. */
  lemma StepUndone(d: bv32, e: bv32, n: nat)
    requires 0 < n <= 32 && Agree(Undo(d), e, 0x7FFF_FFFF) && Clear(Undone(e, n - 1), Low(33 - n))
    ensures Clear(Undone(d, n), Low(32 - n))
  {
    LowIs();
    UndoneAgrees(Undo(d), e, n - 1, 32 - n);
    LowNested(32 - n);
    ClearOn(Undone(Undo(d), n - 1), Undone(e, n - 1), Low(32 - n), Low(33 - n));
  }

  /** The registers may come from one by `n` bits each: taken back, their difference is gone from the low bits. */
  predicate Tail(n: nat, a: bv32, b: bv32)
    requires n <= 32
  {
    Clear(Undone(Xor(a, b), n), Low(32 - n))
  }

  function Tap(t: bool): bv32 {
    if t then 0x04C1_1DB7 else 0
  }

  lemma FeedIs(c: bv32, t: bool)
    ensures Feed(c, t) == Shifted(c, Tap(t))
  {
    if t {
      FeedTap(c);
    } else {
      FeedNoTap(c);
    }
  }

  lemma FeedTap(c: bv32)
    ensures Feed(c, true) == Shifted(c, 0x04C1_1DB7)
  {}

  lemma FeedNoTap(c: bv32)
    ensures Feed(c, false) == Shifted(c, 0)
  {}

  lemma BitIs(a: bv32, bit: bool) returns (p: bv32)
    ensures (p == 0 || p == 0x04C1_1DB7) && AddBit(MPEG2, a, bit) == Shifted(a, p)
  {
    AddBitOf(a, bit);
    FeedIs(a, Top(a) != bit);
    p := Tap(Top(a) != bit);
  }

  lemma OneMoreBit(n: nat, a: bv32, b: bv32, x: bool, y: bool)
    requires n < 32 && Tail(n, a, b)
    ensures Tail(n + 1, AddBit(MPEG2, a, x), AddBit(MPEG2, b, y))
  {
    var p := BitIs(a, x);
    var q := BitIs(b, y);
    BothOn(n, a, b, AddBit(MPEG2, a, x), AddBit(MPEG2, b, y), p, q);
  }

  lemma BothOn(n: nat, a: bv32, b: bv32, u: bv32, v: bv32, p: bv32, q: bv32)
    requires n < 32 && Tail(n, a, b) && u == Shifted(a, p) && v == Shifted(b, q)
    requires (p == 0 || p == 0x04C1_1DB7) && (q == 0 || q == 0x04C1_1DB7)
    ensures Tail(n + 1, u, v)
  {
    UndoStep(a, b, p, q);
    StepUndone(Xor(u, v), Xor(a, b), n + 1);
  }

  lemma NoDifference(c: bv32)
    ensures Tail(0, c, c)
  {
    Same(c, Low(32));
  }

  lemma Same(c: bv32, mask: bv32)
    ensures Clear(Xor(c, c), mask)
  {}

  lemma Mpeg2Tails()
    ensures Tails(MPEG2, (n: nat, a, b) => n <= 32 && Tail(n, a, b), 32)
  {
    forall c
      ensures Tail(0, c, c)
    {
      NoDifference(c);
    }
    forall n: nat, a, b, x, y | n < 32 && Tail(n, a, b)
      ensures Tail(n + 1, AddBit(MPEG2, a, x), AddBit(MPEG2, b, y))
    {
      OneMoreBit(n, a, b, x, y);
    }
  }

  // --- which tails can look like a checksum -----------------------------------------------------------

  /** The places from `k` on in a stored word, whose bytes lie the lowest first, each with its highest bit first. */
  function Behind(k: nat): bv32 {
    ElfCheck.Join(Part(k, 0), Part(k, 8), Part(k, 16), Part(k, 24))
  }

  /** Those in the byte whose first place is `at`. */
  function Part(k: nat, at: nat): bv8 {
    LastBits(if k <= at then 0 else if k >= at + 8 then 8 else k - at)
  }

  function LastBits(r: nat): bv8 {
    match r
    case 0 => 0xFF
    case 1 => 0x7F
    case 2 => 0x3F
    case 3 => 0x1F
    case 4 => 0x0F
    case 5 => 0x07
    case 6 => 0x03
    case 7 => 0x01
    case _ => 0
  }

  function Undo3(d: bv32): bv32 { Undo(Undo(Undo(d))) }

  function Undo6(d: bv32): bv32 { Undo3(Undo3(d)) }

  lemma UndoneFirst(d: bv32, n: nat)
    ensures Undone(d, n + 1) == Undone(Undo(d), n)
  {}

  lemma Undone3(d: bv32, n: nat)
    ensures Undone(d, n + 3) == Undone(Undo3(d), n)
  {
    UndoneFirst(d, n + 2);
    UndoneFirst(Undo(d), n + 1);
    UndoneFirst(Undo(Undo(d)), n);
  }

  lemma Undone6(d: bv32, n: nat)
    ensures Undone(d, n + 6) == Undone(Undo6(d), n)
  {
    Undone3(d, n + 3);
    Undone3(Undo3(d), n);
  }

  /** No difference but none can be made by `n` bits and be hidden outside `mask`. */
  ghost predicate NoneHides(n: nat, mask: bv32)
    requires n <= 32
  {
    forall d :: Clear(d, mask) && Clear(Undone(d, n), Low(32 - n)) ==> d == 0
  }

  lemma NoTail3(d: bv32)
    requires Clear(d, 0x0700_0000) && Clear(Undo3(d), 0x1FFF_FFFF)
    ensures d == 0
  {}

  lemma NoTail6(d: bv32)
    requires Clear(d, 0x3F00_0000) && Clear(Undo6(d), 0x03FF_FFFF)
    ensures d == 0
  {}

  lemma NoTail9(d: bv32)
    requires Clear(d, 0xFF01_0000) && Clear(Undo3(Undo6(d)), 0x007F_FFFF)
    ensures d == 0
  {}

  lemma NoTail11(d: bv32)
    requires Clear(d, 0xFF07_0000) && Clear(Undo(Undo(Undo3(Undo6(d)))), 0x001F_FFFF)
    ensures d == 0
  {}

  lemma NoTail12(d: bv32)
    requires Clear(d, 0xFF1F_0000) && Clear(Undo6(Undo6(d)), 0x000F_FFFF)
    ensures d == 0
  {}

  lemma NoTail13(d: bv32)
    requires Clear(d, 0xFF7F_0000) && Clear(Undo(Undo6(Undo6(d))), 0x0007_FFFF)
    ensures d == 0
  {}

  lemma NoTail15(d: bv32)
    requires Clear(d, 0xFFFF_0000) && Clear(Undo3(Undo6(Undo6(d))), 0x0001_FFFF)
    ensures d == 0
  {}

  lemma NoTail17(d: bv32)
    requires Clear(d, 0xFFFF_0300) && Clear(Undo(Undo(Undo3(Undo6(Undo6(d))))), 0x0000_7FFF)
    ensures d == 0
  {}

  lemma NoTail19(d: bv32)
    requires Clear(d, 0xFFFF_0F00) && Clear(Undo(Undo6(Undo6(Undo6(d)))), 0x0000_1FFF)
    ensures d == 0
  {}

  lemma NoTail21(d: bv32)
    requires Clear(d, 0xFFFF_3F00) && Clear(Undo3(Undo6(Undo6(Undo6(d)))), 0x0000_07FF)
    ensures d == 0
  {}

  lemma NoTail23(d: bv32)
    requires Clear(d, 0xFFFF_FF00) && Clear(Undo(Undo(Undo3(Undo6(Undo6(Undo6(d)))))), 0x0000_01FF)
    ensures d == 0
  {}

  lemma NoTail25(d: bv32)
    requires Clear(d, 0xFFFF_FF03) && Clear(Undo(Undo6(Undo6(Undo6(Undo6(d))))), 0x0000_007F)
    ensures d == 0
  {}

  lemma NoTail27(d: bv32)
    requires Clear(d, 0xFFFF_FF0F) && Clear(Undo3(Undo6(Undo6(Undo6(Undo6(d))))), 0x0000_001F)
    ensures d == 0
  {}

  lemma NoTail29(d: bv32)
    requires Clear(d, 0xFFFF_FF3F) && Clear(Undo(Undo(Undo3(Undo6(Undo6(Undo6(Undo6(d))))))), 0x0000_0007)
    ensures d == 0
  {}

  lemma Tail3()
    ensures NoneHides(3, Behind(29))
  {
    LowIs();
    assert Behind(29) == 0x0700_0000;
    forall d | Clear(d, Behind(29)) && Clear(Undone(d, 3), Low(29))
      ensures d == 0
    {
      Undone3(d, 0);
      NoTail3(d);
    }
  }

  lemma Tail6()
    ensures NoneHides(6, Behind(26))
  {
    LowIs();
    assert Behind(26) == 0x3F00_0000;
    forall d | Clear(d, Behind(26)) && Clear(Undone(d, 6), Low(26))
      ensures d == 0
    {
      Undone6(d, 0);
      NoTail6(d);
    }
  }

  lemma Tail9()
    ensures NoneHides(9, Behind(23))
  {
    LowIs();
    assert Behind(23) == 0xFF01_0000;
    forall d | Clear(d, Behind(23)) && Clear(Undone(d, 9), Low(23))
      ensures d == 0
    {
      Undone6(d, 3);
      Undone3(Undo6(d), 0);
      NoTail9(d);
    }
  }

  lemma Tail11()
    ensures NoneHides(11, Behind(21))
  {
    LowIs();
    assert Behind(21) == 0xFF07_0000;
    forall d | Clear(d, Behind(21)) && Clear(Undone(d, 11), Low(21))
      ensures d == 0
    {
      Undone6(d, 5);
      Undone3(Undo6(d), 2);
      NoTail11(d);
    }
  }

  lemma Tail12()
    ensures NoneHides(12, Behind(19))
  {
    LowIs();
    assert Behind(19) == 0xFF1F_0000;
    forall d | Clear(d, Behind(19)) && Clear(Undone(d, 12), Low(20))
      ensures d == 0
    {
      Undone6(d, 6);
      Undone6(Undo6(d), 0);
      NoTail12(d);
    }
  }

  lemma Tail13()
    ensures NoneHides(13, Behind(17))
  {
    LowIs();
    assert Behind(17) == 0xFF7F_0000;
    forall d | Clear(d, Behind(17)) && Clear(Undone(d, 13), Low(19))
      ensures d == 0
    {
      Undone6(d, 7);
      Undone6(Undo6(d), 1);
      NoTail13(d);
    }
  }

  lemma Tail15()
    ensures NoneHides(15, Behind(16))
  {
    LowIs();
    assert Behind(16) == 0xFFFF_0000;
    forall d | Clear(d, Behind(16)) && Clear(Undone(d, 15), Low(17))
      ensures d == 0
    {
      Undone6(d, 9);
      Undone6(Undo6(d), 3);
      Undone3(Undo6(Undo6(d)), 0);
      NoTail15(d);
    }
  }

  lemma Tail17()
    ensures NoneHides(17, Behind(14))
  {
    LowIs();
    assert Behind(14) == 0xFFFF_0300;
    forall d | Clear(d, Behind(14)) && Clear(Undone(d, 17), Low(15))
      ensures d == 0
    {
      Undone6(d, 11);
      Undone6(Undo6(d), 5);
      Undone3(Undo6(Undo6(d)), 2);
      NoTail17(d);
    }
  }

  lemma Tail19()
    ensures NoneHides(19, Behind(12))
  {
    LowIs();
    assert Behind(12) == 0xFFFF_0F00;
    forall d | Clear(d, Behind(12)) && Clear(Undone(d, 19), Low(13))
      ensures d == 0
    {
      Undone6(d, 13);
      Undone6(Undo6(d), 7);
      Undone6(Undo6(Undo6(d)), 1);
      NoTail19(d);
    }
  }

  lemma Tail21()
    ensures NoneHides(21, Behind(10))
  {
    LowIs();
    assert Behind(10) == 0xFFFF_3F00;
    forall d | Clear(d, Behind(10)) && Clear(Undone(d, 21), Low(11))
      ensures d == 0
    {
      Undone6(d, 15);
      Undone6(Undo6(d), 9);
      Undone6(Undo6(Undo6(d)), 3);
      Undone3(Undo6(Undo6(Undo6(d))), 0);
      NoTail21(d);
    }
  }

  lemma Tail23()
    ensures NoneHides(23, Behind(8))
  {
    LowIs();
    assert Behind(8) == 0xFFFF_FF00;
    forall d | Clear(d, Behind(8)) && Clear(Undone(d, 23), Low(9))
      ensures d == 0
    {
      Undone6(d, 17);
      Undone6(Undo6(d), 11);
      Undone6(Undo6(Undo6(d)), 5);
      Undone3(Undo6(Undo6(Undo6(d))), 2);
      NoTail23(d);
    }
  }

  lemma Tail25()
    ensures NoneHides(25, Behind(6))
  {
    LowIs();
    assert Behind(6) == 0xFFFF_FF03;
    forall d | Clear(d, Behind(6)) && Clear(Undone(d, 25), Low(7))
      ensures d == 0
    {
      Undone6(d, 19);
      Undone6(Undo6(d), 13);
      Undone6(Undo6(Undo6(d)), 7);
      Undone6(Undo6(Undo6(Undo6(d))), 1);
      NoTail25(d);
    }
  }

  lemma Tail27()
    ensures NoneHides(27, Behind(4))
  {
    LowIs();
    assert Behind(4) == 0xFFFF_FF0F;
    forall d | Clear(d, Behind(4)) && Clear(Undone(d, 27), Low(5))
      ensures d == 0
    {
      Undone6(d, 21);
      Undone6(Undo6(d), 15);
      Undone6(Undo6(Undo6(d)), 9);
      Undone6(Undo6(Undo6(Undo6(d))), 3);
      Undone3(Undo6(Undo6(Undo6(Undo6(d)))), 0);
      NoTail27(d);
    }
  }

  lemma Tail29()
    ensures NoneHides(29, Behind(2))
  {
    LowIs();
    assert Behind(2) == 0xFFFF_FF3F;
    forall d | Clear(d, Behind(2)) && Clear(Undone(d, 29), Low(3))
      ensures d == 0
    {
      Undone6(d, 23);
      Undone6(Undo6(d), 17);
      Undone6(Undo6(Undo6(d)), 11);
      Undone6(Undo6(Undo6(Undo6(d))), 5);
      Undone3(Undo6(Undo6(Undo6(Undo6(d)))), 2);
      NoTail29(d);
    }
  }

  // --- bits of the block --------------------------------------------------------------------------------

  lemma {:induction false} TopBitIs(w: bv32, n: nat, j: nat)
    requires j < n
    ensures TopBits(MPEG2, w, n)[j] == Top(Doubled(MPEG2, w, j))
    decreases n
  {
    if j > 0 {
      TopBitIs(Double(w), n - 1, j - 1);
    }
  }

  /** Bit `j` of a byte, the highest first. */
  predicate BitAt(b: bv8, j: nat) {
    match j
    case 0 => b & 0x80 != 0
    case 1 => b & 0x40 != 0
    case 2 => b & 0x20 != 0
    case 3 => b & 0x10 != 0
    case 4 => b & 0x08 != 0
    case 5 => b & 0x04 != 0
    case 6 => b & 0x02 != 0
    case _ => b & 0x01 != 0
  }

  lemma ByteBitIs(b: bv8, j: nat)
    requires j < 8
    ensures ByteBits(b)[j] == BitAt(b, j)
  {
    TopBitIs(AtTop(b), 8, j);
    DoubledTop(b, j);
  }

  lemma DoubledTop(b: bv8, j: nat)
    requires j < 8
    ensures Top(Doubled(MPEG2, AtTop(b), j)) == BitAt(b, j)
  {
    match j
    case 0 => case 1 => case 2 => case 3 => case 4 => case 5 => case 6 => case 7 =>
  }

  lemma BlockBit(block: seq<bv8>, byte: nat, j: nat)
    requires byte < |block| && j < 8
    ensures Bits(block)[8 * byte + j] == BitAt(block[byte], j)
  {
    BitOf(block, byte, j);
    ByteBitIs(block[byte], j);
  }

  /** Bytes that agree from bit `r` on. */
  lemma BytesAgree(a: bv8, b: bv8, r: nat)
    requires r <= 8 && forall j: nat :: r <= j < 8 ==> BitAt(a, j) == BitAt(b, j)
    ensures (a ^ b) & LastBits(r) == 0
  {
    assert r <= 7 ==> BitAt(a, 7) == BitAt(b, 7);
    assert r <= 6 ==> BitAt(a, 6) == BitAt(b, 6);
    assert r <= 5 ==> BitAt(a, 5) == BitAt(b, 5);
    assert r <= 4 ==> BitAt(a, 4) == BitAt(b, 4);
    assert r <= 3 ==> BitAt(a, 3) == BitAt(b, 3);
    assert r <= 2 ==> BitAt(a, 2) == BitAt(b, 2);
    assert r <= 1 ==> BitAt(a, 1) == BitAt(b, 1);
    assert r <= 0 ==> BitAt(a, 0) == BitAt(b, 0);
  }

  lemma JoinXor(a0: bv8, a1: bv8, a2: bv8, a3: bv8, b0: bv8, b1: bv8, b2: bv8, b3: bv8)
    ensures Xor(ElfCheck.Join(a0, a1, a2, a3), ElfCheck.Join(b0, b1, b2, b3))
            == ElfCheck.Join(a0 ^ b0, a1 ^ b1, a2 ^ b2, a3 ^ b3)
  {}

  lemma JoinClear(d0: bv8, d1: bv8, d2: bv8, d3: bv8, m0: bv8, m1: bv8, m2: bv8, m3: bv8)
    requires d0 & m0 == 0 && d1 & m1 == 0 && d2 & m2 == 0 && d3 & m3 == 0
    ensures Clear(ElfCheck.Join(d0, d1, d2, d3), ElfCheck.Join(m0, m1, m2, m3))
  {}

  lemma StoredIs(block: seq<bv8>)
    requires |block| == 256
    ensures Rd32(block, 252) == ElfCheck.Join(block[252], block[253], block[254], block[255])
  {}

  lemma StoredXor(good: seq<bv8>, bad: seq<bv8>)
    requires |good| == |bad| == 256
    ensures Xor(Rd32(good, 252), Rd32(bad, 252)) == ElfCheck.Join(
              good[252] ^ bad[252], good[253] ^ bad[253], good[254] ^ bad[254], good[255] ^ bad[255])
  {
    StoredIs(good);
    StoredIs(bad);
    JoinXor(good[252], good[253], good[254], good[255], bad[252], bad[253], bad[254], bad[255]);
  }

  /** The bits of the two blocks are the same, but for those inside `from` to `from + w`. */
  ghost predicate SameOutside(good: seq<bv8>, bad: seq<bv8>, from: nat, w: nat) {
    && |good| == |bad| == 256
    && forall i {:trigger Bits(good)[i]} :: 0 <= i < 2048 && !(from <= i < from + w) ==> Bits(good)[i] == Bits(bad)[i]
  }

  /** The stored words agree on the places behind the damage. */
  lemma StoredAgrees(good: seq<bv8>, bad: seq<bv8>, from: nat, w: nat, k: nat)
    requires SameOutside(good, bad, from, w) && from + w <= 2016 + k && k <= 32
    ensures Clear(Xor(Rd32(good, 252), Rd32(bad, 252)), Behind(k))
  {
    PartAgrees(good, bad, from, w, k, 0);
    PartAgrees(good, bad, from, w, k, 1);
    PartAgrees(good, bad, from, w, k, 2);
    PartAgrees(good, bad, from, w, k, 3);
    StoredXor(good, bad);
    JoinClear(good[252] ^ bad[252], good[253] ^ bad[253], good[254] ^ bad[254], good[255] ^ bad[255],
              Part(k, 0), Part(k, 8), Part(k, 16), Part(k, 24));
  }

  lemma PartAgrees(good: seq<bv8>, bad: seq<bv8>, from: nat, w: nat, k: nat, i: nat)
    requires SameOutside(good, bad, from, w) && from + w <= 2016 + k && i < 4
    ensures (good[252 + i] ^ bad[252 + i]) & Part(k, 8 * i) == 0
  {
    var r := if k <= 8 * i then 0 else if k >= 8 * i + 8 then 8 else k - 8 * i;
    forall j: nat {:trigger BitAt(good[252 + i], j)} | r <= j < 8
      ensures BitAt(good[252 + i], j) == BitAt(bad[252 + i], j)
    {
      SameBitAt(good, bad, from, w, 252 + i, j);
    }
    BytesAgree(good[252 + i], bad[252 + i], r);
  }

  lemma SameBitAt(good: seq<bv8>, bad: seq<bv8>, from: nat, w: nat, byte: nat, j: nat)
    requires SameOutside(good, bad, from, w) && byte < 256 && j < 8 && from + w <= 8 * byte + j
    ensures BitAt(good[byte], j) == BitAt(bad[byte], j)
  {
    BlockBit(good, byte, j);
    BlockBit(bad, byte, j);
    assert Bits(good)[8 * byte + j] == Bits(bad)[8 * byte + j];
  }

  /** The codes differ in their last `n` bits at most. */
  lemma CodeTail(good: seq<bv8>, bad: seq<bv8>, from: nat, w: nat, n: nat)
    requires SameOutside(good, bad, from, w) && n <= 32 && from + n >= 2016
    ensures Tail(n, Crc32(good[..252]), Crc32(bad[..252]))
  {
    var x, y := Bits(good[..252]), Bits(bad[..252]);
    var at := 2016 - n;
    forall i | 0 <= i < at
      ensures x[i] == y[i]
    {
      BitsOfPrefix(good, i);
      BitsOfPrefix(bad, i);
      assert Bits(good)[i] == Bits(bad)[i];
    }
    assert x[..at] == y[..at];
    RegisterTail(good[..252], at);
    RegisterTail(bad[..252], at);
    TailFrom(AddBits(MPEG2, INIT, x[..at]), x[at..], y[at..], n);
  }

  lemma RegisterTail(code: seq<bv8>, at: nat)
    requires at <= 8 * |code|
    ensures Crc32(code) == AddBits(MPEG2, AddBits(MPEG2, INIT, Bits(code)[..at]), Bits(code)[at..])
  {
    RegisterIsBits(INIT, code);
    CutBits(INIT, Bits(code), at);
  }

  lemma CutBits(c: bv32, bits: seq<bool>, at: nat)
    requires at <= |bits|
    ensures AddBits(MPEG2, c, bits) == AddBits(MPEG2, AddBits(MPEG2, c, bits[..at]), bits[at..])
  {
    AddBitsAppend(MPEG2, c, bits[..at], bits[at..]);
    assert bits == bits[..at] + bits[at..];
  }

  lemma TailFrom(c: bv32, x: seq<bool>, y: seq<bool>, n: nat)
    requires |x| == |y| == n <= 32
    ensures Tail(n, AddBits(MPEG2, c, x), AddBits(MPEG2, c, y))
  {
    Mpeg2Tails();
    TailsAfter(MPEG2, (n: nat, a, b) => n <= 32 && Tail(n, a, b), 32, 0, c, c, x, y);
  }

  // --- damage to the block ------------------------------------------------------------------------------

  lemma SameCode(good: seq<bv8>, bad: seq<bv8>, from: nat, w: nat)
    requires SameOutside(good, bad, from, w) && w <= 32 && Crc32(good[..252]) == Crc32(bad[..252])
    ensures good[..252] == bad[..252]
  {
    var x, y := good[..252], bad[..252];
    if x != y {
      forall i | 0 <= i < 8 * |x| && !(from <= i < from + 32)
        ensures Bits(x)[i] == Bits(y)[i]
      {
        BitsOfPrefix(good, i);
        BitsOfPrefix(bad, i);
        assert Bits(good)[i] == Bits(bad)[i];
      }
      BitBurstDetected(x, y, from);
    }
  }

  /** Blocks that are both sealed, with the same checksum, are the same if the damage is short. */
  lemma SameBlock(good: seq<bv8>, bad: seq<bv8>, from: nat, w: nat)
    requires SameOutside(good, bad, from, w) && w <= 32 && Sealed(good) && Sealed(bad)
    requires Crc32(good[..252]) == Crc32(bad[..252])
    ensures good == bad
  {
    SameCode(good, bad, from, w);
    OneSealedBlock(good, bad);
  }

  lemma XorZero(x: bv32, y: bv32)
    requires Xor(x, y) == 0
    ensures x == y
  {}

  /** Nothing is hidden where `n` bits of code and the stored words outside `mask` are looked at. */
  lemma NothingHidden(good: seq<bv8>, bad: seq<bv8>, from: nat, w: nat, n: nat, mask: bv32)
    requires SameOutside(good, bad, from, w) && w <= 32 && Sealed(good) && Sealed(bad)
    requires n <= 32 && from + n >= 2016 && Clear(Xor(Rd32(good, 252), Rd32(bad, 252)), mask) && NoneHides(n, mask)
    ensures good == bad
  {
    CodeTail(good, bad, from, w, n);
    SealedIs(good);
    SealedIs(bad);
    Hidden(Crc32(good[..252]), Crc32(bad[..252]), n, mask);
    SameBlock(good, bad, from, w);
  }

  lemma SealedIs(block: seq<bv8>)
    requires |block| == 256 && Sealed(block)
    ensures Rd32(block, 252) == Crc32(block[..252])
  {}

  lemma Hidden(x: bv32, y: bv32, n: nat, mask: bv32)
    requires n <= 32 && Tail(n, x, y) && Clear(Xor(x, y), mask) && NoneHides(n, mask)
    ensures x == y
  {
    XorZero(x, y);
  }

  /** Damage inside 30 consecutive bits anywhere in a sealed block is found. */
  lemma ShortDamageUnseals(good: seq<bv8>, bad: seq<bv8>, from: nat)
    requires SameOutside(good, bad, from, 30) && good != bad && Sealed(good)
    ensures !Sealed(bad)
  {
    if Sealed(bad) {
      ShortDamage(good, bad, from);
    }
  }

  lemma ShortDamage(good: seq<bv8>, bad: seq<bv8>, from: nat)
    requires SameOutside(good, bad, from, 30) && Sealed(good) && Sealed(bad)
    ensures good == bad
  {
    if from + 30 <= 2016 {
      StoredSame(good, bad, from);
      SameBlock(good, bad, from, 30);
    } else if from >= 2016 {
      CodeSame(good, bad, from);
      SameBlock(good, bad, from, 30);
    } else {
      Straddling(good, bad, from, 2016 - from);
    }
  }

  lemma StoredSame(good: seq<bv8>, bad: seq<bv8>, from: nat)
    requires SameOutside(good, bad, from, 30) && from + 30 <= 2016 && Sealed(good) && Sealed(bad)
    ensures Crc32(good[..252]) == Crc32(bad[..252])
  {
    StoredAgrees(good, bad, from, 30, 0);
    Everything(Rd32(good, 252), Rd32(bad, 252));
  }

  lemma Everything(x: bv32, y: bv32)
    requires Clear(Xor(x, y), Behind(0))
    ensures x == y
  {
    assert Behind(0) == 0xFFFF_FFFF;
  }

  lemma CodeSame(good: seq<bv8>, bad: seq<bv8>, from: nat)
    requires SameOutside(good, bad, from, 30) && from >= 2016
    ensures Crc32(good[..252]) == Crc32(bad[..252])
  {
    CodeTail(good, bad, from, 30, 0);
    NoBits(Crc32(good[..252]), Crc32(bad[..252]));
  }

  lemma NoBits(x: bv32, y: bv32)
    requires Tail(0, x, y)
    ensures x == y
  {
    LowIs();
    assert Low(32) == 0xFFFF_FFFF;
  }

  /** Damage to the last `m` bits of the code and the first `30 - m` of the checksum. */
  lemma Straddling(good: seq<bv8>, bad: seq<bv8>, from: nat, m: nat)
    requires SameOutside(good, bad, from, 30) && from + m == 2016 && 1 <= m <= 29 && Sealed(good) && Sealed(bad)
    ensures good == bad
  {
    if m <= 11 {
      FewBits(good, bad, from, m);
    } else if m <= 17 {
      SomeBits(good, bad, from, m);
    } else if m <= 23 {
      ManyBits(good, bad, from, m);
    } else {
      MostBits(good, bad, from, m);
    }
  }

  lemma FewBits(good: seq<bv8>, bad: seq<bv8>, from: nat, m: nat)
    requires SameOutside(good, bad, from, 30) && from + m == 2016 && 1 <= m <= 11 && Sealed(good) && Sealed(bad)
    ensures good == bad
  {
    if m <= 3 {
      Tail3();
      StoredAgrees(good, bad, from, 30, 29);
      NothingHidden(good, bad, from, 30, 3, Behind(29));
    } else if m <= 6 {
      Tail6();
      StoredAgrees(good, bad, from, 30, 26);
      NothingHidden(good, bad, from, 30, 6, Behind(26));
    } else if m <= 9 {
      Tail9();
      StoredAgrees(good, bad, from, 30, 23);
      NothingHidden(good, bad, from, 30, 9, Behind(23));
    } else {
      Tail11();
      StoredAgrees(good, bad, from, 30, 21);
      NothingHidden(good, bad, from, 30, 11, Behind(21));
    }
  }

  lemma SomeBits(good: seq<bv8>, bad: seq<bv8>, from: nat, m: nat)
    requires SameOutside(good, bad, from, 30) && from + m == 2016 && 12 <= m <= 17 && Sealed(good) && Sealed(bad)
    ensures good == bad
  {
    if m <= 12 {
      Tail12();
      StoredAgrees(good, bad, from, 30, 19);
      NothingHidden(good, bad, from, 30, 12, Behind(19));
    } else if m <= 13 {
      Tail13();
      StoredAgrees(good, bad, from, 30, 17);
      NothingHidden(good, bad, from, 30, 13, Behind(17));
    } else if m <= 15 {
      Tail15();
      StoredAgrees(good, bad, from, 30, 16);
      NothingHidden(good, bad, from, 30, 15, Behind(16));
    } else {
      Tail17();
      StoredAgrees(good, bad, from, 30, 14);
      NothingHidden(good, bad, from, 30, 17, Behind(14));
    }
  }

  lemma ManyBits(good: seq<bv8>, bad: seq<bv8>, from: nat, m: nat)
    requires SameOutside(good, bad, from, 30) && from + m == 2016 && 18 <= m <= 23 && Sealed(good) && Sealed(bad)
    ensures good == bad
  {
    if m <= 19 {
      Tail19();
      StoredAgrees(good, bad, from, 30, 12);
      NothingHidden(good, bad, from, 30, 19, Behind(12));
    } else if m <= 21 {
      Tail21();
      StoredAgrees(good, bad, from, 30, 10);
      NothingHidden(good, bad, from, 30, 21, Behind(10));
    } else {
      Tail23();
      StoredAgrees(good, bad, from, 30, 8);
      NothingHidden(good, bad, from, 30, 23, Behind(8));
    }
  }

  lemma MostBits(good: seq<bv8>, bad: seq<bv8>, from: nat, m: nat)
    requires SameOutside(good, bad, from, 30) && from + m == 2016 && 24 <= m <= 29 && Sealed(good) && Sealed(bad)
    ensures good == bad
  {
    if m <= 25 {
      Tail25();
      StoredAgrees(good, bad, from, 30, 6);
      NothingHidden(good, bad, from, 30, 25, Behind(6));
    } else if m <= 27 {
      Tail27();
      StoredAgrees(good, bad, from, 30, 4);
      NothingHidden(good, bad, from, 30, 27, Behind(4));
    } else {
      Tail29();
      StoredAgrees(good, bad, from, 30, 2);
      NothingHidden(good, bad, from, 30, 29, Behind(2));
    }
  }

  // --- and no more than 30 ------------------------------------------------------------------------------

  /** The last bit of the code flipped, and the polynomial added to the checksum: five bytes change. */
  function FlipLast(b: bv8): bv8 {
    b ^ 1
  }

  function Flipped(block: seq<bv8>): (bad: seq<bv8>)
    requires |block| == 256
    ensures |bad| == 256
  {
    block[..251] + [FlipLast(block[251]), block[252] ^ 0xB7, block[253] ^ 0x1D, block[254] ^ 0xC1, block[255] ^ 0x04]
  }

  lemma FlippedBytes(block: seq<bv8>)
    requires |block| == 256
    ensures var bad := Flipped(block);
            && bad[251] == FlipLast(block[251]) && bad[252] == block[252] ^ 0xB7 && bad[253] == block[253] ^ 0x1D
            && bad[254] == block[254] ^ 0xC1 && bad[255] == block[255] ^ 0x04 && bad[..251] == block[..251]
  {}

  lemma ByteBack(a: bv8, b: bv8, m: bv8)
    requires b == a ^ m
    ensures a ^ b == m
  {}

  lemma PolynomialStored()
    ensures ElfCheck.Join(0xB7, 0x1D, 0xC1, 0x04) == 0x04C1_1DB7
  {}

  lemma FlippedXors(block: seq<bv8>)
    requires |block| == 256
    ensures var bad := Flipped(block);
            && block[252] ^ bad[252] == 0xB7 && block[253] ^ bad[253] == 0x1D
            && block[254] ^ bad[254] == 0xC1 && block[255] ^ bad[255] == 0x04
  {
    FlippedBytes(block);
    XorsOf(block, Flipped(block));
  }

  lemma XorsOf(block: seq<bv8>, bad: seq<bv8>)
    requires |block| == |bad| == 256
    requires bad[252] == block[252] ^ 0xB7 && bad[253] == block[253] ^ 0x1D
    requires bad[254] == block[254] ^ 0xC1 && bad[255] == block[255] ^ 0x04
    ensures block[252] ^ bad[252] == 0xB7 && block[253] ^ bad[253] == 0x1D
    ensures block[254] ^ bad[254] == 0xC1 && block[255] ^ bad[255] == 0x04
  {
    ByteBack(block[252], bad[252], 0xB7);
    ByteBack(block[253], bad[253], 0x1D);
    ByteBack(block[254], bad[254], 0xC1);
    ByteBack(block[255], bad[255], 0x04);
  }

  lemma FlippedStored(block: seq<bv8>, bad: seq<bv8>)
    requires |block| == |bad| == 256
    requires block[252] ^ bad[252] == 0xB7 && block[253] ^ bad[253] == 0x1D
    requires block[254] ^ bad[254] == 0xC1 && block[255] ^ bad[255] == 0x04
    ensures Xor(Rd32(block, 252), Rd32(bad, 252)) == 0x04C1_1DB7
  {
    StoredXor(block, bad);
    PolynomialStored();
  }

  function Toggle(x: bv32): bv32 {
    x ^ 0x04C1_1DB7
  }

  lemma FeedFlipsOff(c: bv32)
    ensures Feed(c, false) == Toggle(Feed(c, true))
  {}

  lemma FeedFlipsOn(c: bv32)
    ensures Feed(c, true) == Toggle(Feed(c, false))
  {}

  lemma LastBitFlips(c: bv32, x: bool)
    ensures AddBit(MPEG2, c, !x) == Toggle(AddBit(MPEG2, c, x))
  {
    AddBitOf(c, x);
    AddBitOf(c, !x);
    FeedFlips(c, Top(c) != x);
  }

  lemma FeedFlips(c: bv32, tap: bool)
    ensures Feed(c, !tap) == Toggle(Feed(c, tap))
  {
    if tap {
      FeedFlipsOff(c);
    } else {
      FeedFlipsOn(c);
    }
  }

  // the last byte of the code

  lemma SevenBits(a: bv8, j: nat)
    requires j < 8
    ensures BitAt(FlipLast(a), j) == if j == 7 then !BitAt(a, 7) else BitAt(a, j)
  {
    match j
    case 0 => case 1 => case 2 => case 3 => case 4 => case 5 => case 6 => case 7 =>
  }

  lemma FlippedByte(c: bv32, a: bv8)
    ensures AddByte(c, FlipLast(a)) == Toggle(AddByte(c, a))
  {
    var x, y := ByteBits(a), ByteBits(FlipLast(a));
    forall j | 0 <= j < 8
      ensures y[j] == if j == 7 then !x[7] else x[j]
    {
      ByteBitIs(a, j);
      ByteBitIs(FlipLast(a), j);
      SevenBits(a, j);
      ByteBitIs(a, 7);
    }
    ByteIsBits(c, a);
    ByteIsBits(c, FlipLast(a));
    FlippedEnd(c, x, y);
  }

  lemma FlippedEnd(c: bv32, x: seq<bool>, y: seq<bool>)
    requires |x| == |y| == 8 && forall j :: 0 <= j < 8 ==> y[j] == if j == 7 then !x[7] else x[j]
    ensures AddBits(MPEG2, c, y) == Toggle(AddBits(MPEG2, c, x))
  {
    assert x[..7] == y[..7];
    LastOf(c, x);
    LastOf(c, y);
    LastBitFlips(AddBits(MPEG2, c, x[..7]), x[7]);
  }

  lemma LastOf(c: bv32, x: seq<bool>)
    requires |x| == 8
    ensures AddBits(MPEG2, c, x) == AddBit(MPEG2, AddBits(MPEG2, c, x[..7]), x[7])
  {
    CutBits(c, x, 7);
    OneBit(AddBits(MPEG2, c, x[..7]), x[7..]);
  }

  lemma OneBit(c: bv32, x: seq<bool>)
    requires |x| == 1
    ensures AddBits(MPEG2, c, x) == AddBit(MPEG2, c, x[0])
  {
    assert x[1..] == [];
  }

  lemma FlippedCode(block: seq<bv8>, bad: seq<bv8>)
    requires |block| == |bad| == 256 && bad[..251] == block[..251] && bad[251] == FlipLast(block[251])
    ensures Crc32(bad[..252]) == Toggle(Crc32(block[..252]))
  {
    CodeIs(block);
    CodeIs(bad);
    FlippedByte(Crc32(block[..251]), block[251]);
  }

  lemma CodeIs(block: seq<bv8>)
    requires |block| == 256
    ensures Crc32(block[..252]) == AddByte(Crc32(block[..251]), block[251])
  {
    assert block[..252][..251] == block[..251];
  }

  lemma Unchanged(a: bv8, j: nat)
    requires j == 6 || j == 7
    ensures BitAt(a ^ 0x04, j) == BitAt(a, j)
  {
    match j
    case 6 =>
    case 7 =>
  }

  lemma FlippedOutside(block: seq<bv8>)
    requires |block| == 256
    ensures SameOutside(block, Flipped(block), 2015, 31)
  {
    var bad := Flipped(block);
    FlippedBytes(block);
    forall i {:trigger Bits(block)[i]} | 0 <= i < 2048 && !(2015 <= i < 2046)
      ensures Bits(block)[i] == Bits(bad)[i]
    {
      FlippedBit(block, bad, i, i / 8, i % 8);
    }
  }

  lemma FlippedBit(block: seq<bv8>, bad: seq<bv8>, i: nat, byte: nat, j: nat)
    requires |block| == |bad| == 256 && byte < 256 && j < 8 && i == 8 * byte + j && !(2015 <= i < 2046)
    requires bad[..251] == block[..251] && bad[251] == FlipLast(block[251]) && bad[255] == block[255] ^ 0x04
    ensures Bits(block)[i] == Bits(bad)[i]
  {
    BlockBit(block, byte, j);
    BlockBit(bad, byte, j);
    FlippedAt(block, bad, byte, j);
  }

  lemma FlippedAt(block: seq<bv8>, bad: seq<bv8>, byte: nat, j: nat)
    requires |block| == |bad| == 256 && byte < 256 && j < 8 && !(2015 <= 8 * byte + j < 2046)
    requires bad[..251] == block[..251] && bad[251] == FlipLast(block[251]) && bad[255] == block[255] ^ 0x04
    ensures BitAt(block[byte], j) == BitAt(bad[byte], j)
  {
    if byte < 251 {
      assert bad[byte] == bad[..251][byte] == block[..251][byte] == block[byte];
    } else if byte == 251 {
      SevenBits(block[251], j);
    } else {
      Unchanged(block[255], j);
    }
  }

  lemma FlipChanges(a: bv8)
    ensures FlipLast(a) != a
  {}

  /** Every sealed block can be damaged inside 31 consecutive bits and still be sealed. */
  lemma LongerDamageMissed(good: seq<bv8>)
    requires |good| == 256 && Sealed(good)
    ensures SameOutside(good, Flipped(good), 2015, 31) && Flipped(good) != good && Sealed(Flipped(good))
  {
    SealedIs(good);
    StillAgree(good);
    SealedIf(Flipped(good));
    FlippedOutside(good);
    FlippedChanges(good);
  }

  lemma FlippedChanges(block: seq<bv8>)
    requires |block| == 256
    ensures Flipped(block) != block
  {
    FlippedBytes(block);
    FlipChanges(block[251]);
  }

  lemma Toggled(x: bv32, y: bv32)
    requires Xor(x, y) == 0x04C1_1DB7
    ensures y == Toggle(x)
  {}

  lemma StoredToggles(good: seq<bv8>)
    requires |good| == 256
    ensures Rd32(Flipped(good), 252) == Toggle(Rd32(good, 252))
  {
    FlippedXors(good);
    WordToggles(good, Flipped(good));
  }

  lemma WordToggles(good: seq<bv8>, bad: seq<bv8>)
    requires |good| == |bad| == 256
    requires good[252] ^ bad[252] == 0xB7 && good[253] ^ bad[253] == 0x1D
    requires good[254] ^ bad[254] == 0xC1 && good[255] ^ bad[255] == 0x04
    ensures Rd32(bad, 252) == Toggle(Rd32(good, 252))
  {
    FlippedStored(good, bad);
    Toggled(Rd32(good, 252), Rd32(bad, 252));
  }

  lemma CodeToggles(good: seq<bv8>)
    requires |good| == 256
    ensures Crc32(Flipped(good)[..252]) == Toggle(Crc32(good[..252]))
  {
    FlippedBytes(good);
    FlippedCode(good, Flipped(good));
  }

  lemma StillAgree(good: seq<bv8>)
    requires |good| == 256 && Rd32(good, 252) == Crc32(good[..252])
    ensures Rd32(Flipped(good), 252) == Crc32(Flipped(good)[..252])
  {
    StoredToggles(good);
    CodeToggles(good);
  }

  lemma SealedIf(block: seq<bv8>)
    requires |block| == 256 && Rd32(block, 252) == Crc32(block[..252])
    ensures Sealed(block)
  {}

  lemma SomeSealed() returns (block: seq<bv8>)
    ensures |block| == 256 && Sealed(block)
  {
    var code: seq<bv8> := seq(252, _ => 0);
    var crc := Crc32(code);
    block := code + [ByteOf(crc, 0), ByteOf(crc, 1), ByteOf(crc, 2), ByteOf(crc, 3)];
    JoinBytes(crc);
    StoredIs(block);
    assert block[..252] == code;
  }

  /** A sealed block, damaged inside `w` consecutive bits, is never taken for sealed. */
  ghost predicate FindsAll(w: nat) {
    forall good, bad, from: nat :: SameOutside(good, bad, from, w) && good != bad && Sealed(good) ==> !Sealed(bad)
  }

  /** That is so exactly for damage of up to 30 bits. */
  lemma DamageExactly(w: nat)
    ensures FindsAll(w) <==> w <= 30
  {
    if w <= 30 {
      forall good, bad, from: nat | SameOutside(good, bad, from, w) && good != bad && Sealed(good)
        ensures !Sealed(bad)
      {
        assert SameOutside(good, bad, from, 30);
        ShortDamageUnseals(good, bad, from);
      }
    } else {
      var good := SomeSealed();
      LongerDamageMissed(good);
      assert SameOutside(good, Flipped(good), 2015, w);
    }
  }
}
