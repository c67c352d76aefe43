/**
  CRC-32/MPEG-2 of the boot block (Annex A of ISO/IEC 13818-1): the byte loop is a bit-serial register,
  and any error burst of at most 32 bits changes the result.
 */
module Crc {
  import opened ShiftRegister

  const INIT: bv32 := 0xFFFF_FFFF

  predicate Top(c: bv32) {
    c & 0x8000_0000 != 0
  }

  /** Shift left, and xor the polynomial in if there is a tap. */
  function Feed(c: bv32, tap: bool): bv32 {
    if tap then (c << 1) ^ 0x04C1_1DB7 else c << 1
  }

  function Xor(a: bv32, b: bv32): bv32 {
    a ^ b
  }

  function Double(w: bv32): bv32 {
    w << 1
  }

  const MPEG2: Ops<bv32> := Ops(Top, Feed, Xor, Double)

  /** One byte: it enters at the top, and eight shifts follow. */
  function AddByte(c: bv32, b: bv8): bv32 {
    Shifts(MPEG2, Xor(c, AtTop(b)), 8)
  }

  function AtTop(b: bv8): bv32 {
    (b as bv32) << 24
  }

  /** The register after `data`, from `c`. */
  function Register(c: bv32, data: seq<bv8>): bv32 {
    if data == [] then c else AddByte(Register(c, data[..|data| - 1]), data[|data| - 1])
  }

  function Crc32(data: seq<bv8>): bv32 {
    Register(INIT, data)
  }

  /** `crc32_mpeg2(data, length)`. */
  method Crc32Mpeg2(data: seq<bv8>, length: nat) returns (crc: bv32)
    requires length <= |data|
    ensures crc == Crc32(data[..length]) == Register(0xFFFF_FFFF, data[..length])
  {
    crc := 0xFFFF_FFFF;
    for i := 0 to length
      invariant crc == Register(0xFFFF_FFFF, data[..i])
    {
      var word := (data[i] as bv32) << 24;
      crc := AddOne(crc, word, data[i]);
      assert data[..i + 1][..i] == data[..i];
    }
  }

  /** The body of the outer loop, for the byte at the top of `word`. */
  method AddOne(c: bv32, word: bv32, ghost b: bv8) returns (crc: bv32)
    requires word == AtTop(b)
    ensures crc == AddByte(c, b)
  {
    crc := c ^ word;
    assert crc == Xor(c, AtTop(b));
    for k := 0 to 8
      invariant crc == Shifts(MPEG2, Xor(c, AtTop(b)), k)
    {
      crc := ShiftOnce(crc);
    }
  }

  /** The body of the inner loop. */
  method ShiftOnce(c: bv32) returns (crc: bv32)
    ensures crc == Shift(MPEG2, c)
  {
    if c & 0x8000_0000 != 0 {
      crc := (c << 1) ^ 0x04C1_1DB7;
    } else {
      crc := c << 1;
    }
  }

  /** Byte `k` of a word, the lowest first: `(v >> (8 * k)) & 0xFF`. */
  function ByteOf(v: bv32, k: nat): bv8
    requires k < 4
  {
    match k
    case 0 => (v & 0xFF) as bv8
    case 1 => ((v >> 8) & 0xFF) as bv8
    case 2 => ((v >> 16) & 0xFF) as bv8
    case 3 => ((v >> 24) & 0xFF) as bv8
  }

  // --- the byte loop is a bit-serial register -----------------------------------------------------

  function ByteBits(b: bv8): (bits: seq<bool>)
    ensures |bits| == 8
  {
    TopBits(MPEG2, AtTop(b), 8)
  }

  /** The bits of a message, each byte's most significant bit first. */
  function Bits(data: seq<bv8>): (bits: seq<bool>)
    ensures |bits| == 8 * |data|
  {
    if data == [] then [] else Bits(data[..|data| - 1]) + ByteBits(data[|data| - 1])
  }

  lemma TopXor(c: bv32, w: bv32)
    ensures Top(Xor(c, w)) == (Top(c) != Top(w))
  {}

  lemma FeedXorTap(c: bv32, w: bv32)
    ensures Feed(Xor(c, w), true) == Xor(Feed(c, true), Double(w))
  {}

  lemma FeedXorNoTap(c: bv32, w: bv32)
    ensures Feed(Xor(c, w), false) == Xor(Feed(c, false), Double(w))
  {}

  lemma FeedXor(c: bv32, w: bv32, tap: bool)
    ensures Feed(Xor(c, w), tap) == Xor(Feed(c, tap), Double(w))
  {
    if tap {
      FeedXorTap(c, w);
    } else {
      FeedXorNoTap(c, w);
    }
  }

  lemma TopOf(c: bv32)
    ensures MPEG2.top(c) == Top(c)
  {}

  lemma XorOf(c: bv32, w: bv32)
    ensures MPEG2.top(MPEG2.xor(c, w)) == Top(Xor(c, w))
  {}

  lemma TopLinear(c: bv32, w: bv32)
    ensures MPEG2.top(MPEG2.xor(c, w)) == (MPEG2.top(c) != MPEG2.top(w))
  {
    TopXor(c, w);
    TopOf(c);
    TopOf(w);
    XorOf(c, w);
  }

  lemma FeedLinear(c: bv32, w: bv32, tap: bool)
    ensures MPEG2.feed(MPEG2.xor(c, w), tap) == MPEG2.xor(MPEG2.feed(c, tap), MPEG2.double(w))
  {
    FeedXor(c, w, tap);
  }

  lemma Mpeg2Linear()
    ensures Linear(MPEG2)
  {
    forall c, w
      ensures MPEG2.top(MPEG2.xor(c, w)) == (MPEG2.top(c) != MPEG2.top(w))
    {
      TopLinear(c, w);
    }
    forall c, w, tap
      ensures MPEG2.feed(MPEG2.xor(c, w), tap) == MPEG2.xor(MPEG2.feed(c, tap), MPEG2.double(w))
    {
      FeedLinear(c, w, tap);
    }
  }

  lemma ByteLeaves(b: bv8)
    ensures Doubled(MPEG2, AtTop(b), 8) == 0
  {}

  lemma XorZero(c: bv32)
    ensures Xor(c, 0) == c
  {}

  lemma ByteIsBits(c: bv32, b: bv8)
    ensures AddByte(c, b) == AddBits(MPEG2, c, ByteBits(b))
  {
    Mpeg2Linear();
    ShiftsAreBits(MPEG2, c, AtTop(b), 8);
    ByteLeaves(b);
    XorZero(AddBits(MPEG2, c, ByteBits(b)));
  }

  /** The byte loop feeds the message to the register bit by bit. */
  lemma {:induction false} RegisterIsBits(c: bv32, data: seq<bv8>)
    ensures Register(c, data) == AddBits(MPEG2, c, Bits(data))
  {
    if data != [] {
      var init, last := data[..|data| - 1], data[|data| - 1];
      RegisterIsBits(c, init);
      ByteIsBits(Register(c, init), last);
      AddBitsAppend(MPEG2, c, Bits(init), ByteBits(last));
    }
  }

  // --- the start value ----------------------------------------------------------------------------

  function Complement(data: seq<bv8>): (r: seq<bv8>)
    ensures |r| == |data|
  {
    seq(|data|, i requires 0 <= i < |data| => !data[i])
  }

  /** A word below the byte that is being fed in is shifted up by one byte. */
  lemma LowMoves(c: bv32, w: bv32)
    requires w <= 0x00FF_FFFF
    ensures Shifts(MPEG2, Xor(c, w), 8) == Xor(Shifts(MPEG2, c, 8), Up(w))
  {
    Mpeg2Linear();
    forall k: nat | k < 8
      ensures !MPEG2.top(Doubled(MPEG2, w, k))
    {
      ClearAt(w, k);
      TopOf(Doubled(MPEG2, w, k));
    }
    QuietShifts(MPEG2, c, w, 8);
    EightDoubles(w);
  }

  function Up(w: bv32): bv32 {
    w << 8
  }

  lemma ClearAt(w: bv32, k: nat)
    requires w <= 0x00FF_FFFF && k < 8
    ensures !Top(Doubled(MPEG2, w, k))
  {
    match k
    case 0 => case 1 => case 2 => case 3 => case 4 => case 5 => case 6 => case 7 =>
  }

  lemma EightDoubles(w: bv32)
    ensures Doubled(MPEG2, w, 8) == Up(w)
  {}

  /** All ones above a byte complement it; those below it move up. */
  lemma OnesSplit(c: bv32, ones: bv32, b: bv8)
    requires ones >= 0xFF00_0000
    ensures Xor(Xor(c, ones), AtTop(b)) == Xor(Xor(c, AtTop(!b)), Below(ones))
    ensures Below(ones) <= 0x00FF_FFFF && Up(Below(ones)) == Up(ones)
  {}

  function Below(ones: bv32): bv32 {
    ones & 0x00FF_FFFF
  }

  lemma ByteComplements(c: bv32, ones: bv32, b: bv8)
    requires ones >= 0xFF00_0000
    ensures AddByte(Xor(c, ones), b) == Xor(AddByte(c, !b), Up(ones))
  {
    OnesSplit(c, ones, b);
    LowMoves(Xor(c, AtTop(!b)), Below(ones));
  }

  lemma {:induction false} RegisterAppend(c: bv32, a: seq<bv8>, b: seq<bv8>)
    ensures Register(c, a + b) == Register(Register(c, a), b)
  {
    if b == [] {
      assert a + b == a;
    } else {
      RegisterAppend(c, a, b[..|b| - 1]);
      assert (a + b)[..|a + b| - 1] == a + b[..|b| - 1];
    }
  }

  /** Of the ones that have not met a byte yet, byte `n` takes the upper eight. */
  lemma OneMore(data: seq<bv8>, n: nat, start: bv32, ones: bv32)
    requires n < |data| && ones >= 0xFF00_0000
    requires Register(start, data[..n]) == Xor(Register(0, Complement(data)[..n]), ones)
    ensures Register(start, data[..n + 1]) == Xor(Register(0, Complement(data)[..n + 1]), Up(ones))
  {
    assert data[..n + 1][..n] == data[..n];
    assert Complement(data)[..n + 1][..n] == Complement(data)[..n];
    ByteComplements(Register(0, Complement(data)[..n]), ones, data[n]);
  }

  lemma {:induction false} ManyBytes(data: seq<bv8>, ones: seq<bv32>, n: nat)
    requires n <= |data| && n < |ones| && ones[0] == Xor(0, ones[0])
    requires forall k :: 0 <= k < n ==> ones[k] >= 0xFF00_0000 && ones[k + 1] == Up(ones[k])
    ensures Register(ones[0], data[..n]) == Xor(Register(0, Complement(data)[..n]), ones[n])
  {
    if n > 0 {
      ManyBytes(data, ones, n - 1);
      OneMore(data, n - 1, ones[0], ones[n - 1]);
    }
  }

  lemma FirstFour(data: seq<bv8>)
    requires |data| == 4
    ensures Register(0xFFFF_FFFF, data) == Register(0, Complement(data))
  {
    ManyBytes(data, [0xFFFF_FFFF, 0xFFFF_FF00, 0xFFFF_0000, 0xFF00_0000, 0], |data|);
    XorZero(Register(0, Complement(data)));
    assert data[..|data|] == data && Complement(data)[..|data|] == Complement(data);
  }

  /** The checksum is that of a register of zeros over the message with its first 32 bits complemented. */
  lemma StartComplements(data: seq<bv8>)
    requires |data| >= 4
    ensures Crc32(data) == Register(0, Complement(data[..4]) + data[4..])
  {
    FirstFour(data[..4]);
    assert data == data[..4] + data[4..];
    RegisterAppend(0xFFFF_FFFF, data[..4], data[4..]);
    RegisterAppend(0, Complement(data[..4]), data[4..]);
  }

  lemma {:induction false} ZeroShifts(n: nat)
    ensures Shifts(MPEG2, 0, n) == 0
  {
    if n > 0 {
      ZeroShifts(n - 1);
    }
  }

  lemma ZeroByte()
    ensures AddByte(0, 0) == 0
  {
    ZeroShifts(8);
  }

  lemma {:induction false} ZeroStays(data: seq<bv8>)
    requires forall i :: 0 <= i < |data| ==> data[i] == 0
    ensures Register(0, data) == 0
  {
    if data != [] {
      ZeroStays(data[..|data| - 1]);
      ZeroByte();
    }
  }

  // --- burst errors -------------------------------------------------------------------------------

  /** The low `k` bits. */
  function Mask(k: nat): bv32 {
    if k <= 32 then 0xFFFF_FFFF >> (32 - k) else 0xFFFF_FFFF
  }

  lemma MaskStep(k: nat)
    requires k < 32
    ensures Mask(k) & 0x8000_0000 == 0 && Mask(k + 1) == (Mask(k) << 1) | 1
  {
    match k
    case 0 => case 1 => case 2 => case 3 => case 4 => case 5 => case 6 => case 7 =>
    case 8 => case 9 => case 10 => case 11 => case 12 => case 13 => case 14 => case 15 =>
    case 16 => case 17 => case 18 => case 19 => case 20 => case 21 => case 22 => case 23 =>
    case 24 => case 25 => case 26 => case 27 => case 28 => case 29 => case 30 => case 31 =>
  }

  /** The registers differ in one of their low `k` bits. */
  predicate Apart(k: nat, a: bv32, b: bv32) {
    Differ(a, b, Mask(k))
  }

  predicate Differ(a: bv32, b: bv32, mask: bv32) {
    (a ^ b) & mask != 0
  }

  /** The polynomial is odd: a tap shows in bit 0. */
  lemma TapShows(a: bv32, b: bv32, mask: bv32)
    requires mask & 1 == 1
    ensures Differ(Feed(a, true), Feed(b, false), mask) && Differ(Feed(a, false), Feed(b, true), mask)
  {}

  lemma TapMoves(a: bv32, b: bv32, mask: bv32)
    requires Differ(a, b, mask) && mask & 0x8000_0000 == 0
    ensures Differ(Feed(a, true), Feed(b, true), (mask << 1) | 1)
  {}

  lemma NoTapMoves(a: bv32, b: bv32, mask: bv32)
    requires Differ(a, b, mask) && mask & 0x8000_0000 == 0
    ensures Differ(Feed(a, false), Feed(b, false), (mask << 1) | 1)
  {}

  lemma FeedInjective(a: bv32, b: bv32, tap: bool)
    requires Top(a) == Top(b) && Feed(a, tap) == Feed(b, tap)
    ensures a == b
  {}

  lemma SameNotDiffer(a: bv32, mask: bv32)
    ensures !Differ(a, a, mask)
  {}

  lemma OddMask(mask: bv32)
    ensures ((mask << 1) | 1) & 1 == 1
  {}

  lemma DifferingBitShows(c: bv32, x: bool)
    ensures Apart(1, AddBit(MPEG2, c, x), AddBit(MPEG2, c, !x))
  {
    MaskStep(0);
    OddMask(Mask(0));
    TapShows(c, c, Mask(1));
  }

  lemma FeedsDiffer(a: bv32, b: bv32, s: bool, t: bool, mask: bv32)
    requires Differ(a, b, mask) && mask & 0x8000_0000 == 0
    ensures Differ(Feed(a, s), Feed(b, t), (mask << 1) | 1)
  {
    if s != t {
      OddMask(mask);
      TapShows(a, b, (mask << 1) | 1);
    } else if s {
      TapMoves(a, b, mask);
    } else {
      NoTapMoves(a, b, mask);
    }
  }

  lemma AddBitOf(c: bv32, x: bool)
    ensures AddBit(MPEG2, c, x) == Feed(c, Top(c) != x)
  {}

  lemma OneMorePlace(k: nat, a: bv32, b: bv32, x: bool, y: bool)
    requires k < 32 && Apart(k, a, b)
    ensures Apart(k + 1, AddBit(MPEG2, a, x), AddBit(MPEG2, b, y))
  {
    MaskStep(k);
    FeedsDiffer(a, b, Top(a) != x, Top(b) != y, Mask(k));
    AddBitOf(a, x);
    AddBitOf(b, y);
  }

  lemma StepLosesNothing(a: bv32, b: bv32, x: bool)
    requires a != b
    ensures AddBit(MPEG2, a, x) != AddBit(MPEG2, b, x)
  {
    if Top(a) == Top(b) {
      if Feed(a, Top(a) != x) == Feed(b, Top(a) != x) {
        FeedInjective(a, b, Top(a) != x);
      }
    } else {
      SameNotDiffer(AddBit(MPEG2, a, x), 1);
      TapShows(a, b, 1);
    }
  }

  lemma Mpeg2Separates()
    ensures Separates(MPEG2, Apart, 32)
  {
    forall c, x
      ensures Apart(1, AddBit(MPEG2, c, x), AddBit(MPEG2, c, !x))
    {
      DifferingBitShows(c, x);
    }
    forall k: nat, a, b, x, y | k < 32 && Apart(k, a, b)
      ensures Apart(k + 1, AddBit(MPEG2, a, x), AddBit(MPEG2, b, y))
    {
      OneMorePlace(k, a, b, x, y);
    }
    forall k: nat, a, b | Apart(k, a, b)
      ensures a != b
    {
      SameNotDiffer(a, Mask(k));
    }
    forall a, b, x | a != b
      ensures AddBit(MPEG2, a, x) != AddBit(MPEG2, b, x)
    {
      StepLosesNothing(a, b, x);
    }
  }

  // --- bytes and their bits -----------------------------------------------------------------------

  lemma AtTopInjective(a: bv8, b: bv8)
    requires a != b
    ensures Xor(0, AtTop(a)) != Xor(0, AtTop(b))
  {}

  /** Different bytes have different bits. */
  lemma ByteBitsInjective(a: bv8, b: bv8)
    requires a != b
    ensures ByteBits(a) != ByteBits(b)
  {
    AtTopInjective(a, b);
    Mpeg2Separates();
    ShiftsKeepApart(MPEG2, Apart, 32, Xor(0, AtTop(a)), Xor(0, AtTop(b)), 8);
    ByteIsBits(0, a);
    ByteIsBits(0, b);
  }

  lemma {:induction false} BitOf(data: seq<bv8>, i: nat, j: nat)
    requires i < |data| && j < 8
    ensures Bits(data)[8 * i + j] == ByteBits(data[i])[j]
  {
    if i < |data| - 1 {
      BitOf(data[..|data| - 1], i, j);
    }
  }

  lemma BitsInjective(x: seq<bv8>, y: seq<bv8>)
    requires |x| == |y| && x != y
    ensures Bits(x) != Bits(y)
  {
    var i :| 0 <= i < |x| && x[i] != y[i];
    ByteBitsInjective(x[i], y[i]);
    var j :| 0 <= j < 8 && ByteBits(x[i])[j] != ByteBits(y[i])[j];
    BitOf(x, i, j);
    BitOf(y, i, j);
  }

  /** Equally long messages that differ, and only inside 32 consecutive bits, have different checksums. */
  lemma BitBurstDetected(x: seq<bv8>, y: seq<bv8>, from: nat)
    requires |x| == |y| && x != y
    requires forall i :: 0 <= i < 8 * |x| && !(from <= i < from + 32) ==> Bits(x)[i] == Bits(y)[i]
    ensures Crc32(x) != Crc32(y)
  {
    BitsInjective(x, y);
    Mpeg2Separates();
    ShiftRegister.BurstDetected(MPEG2, Apart, 32, INIT, Bits(x), Bits(y), from);
    RegisterIsBits(INIT, x);
    RegisterIsBits(INIT, y);
  }

  /** No number of zero bytes has the checksum 0. */
  lemma ZerosShow(data: seq<bv8>)
    requires forall i :: 0 <= i < |data| ==> data[i] == 0
    ensures Crc32(data) != 0
  {
    Mpeg2Separates();
    TailKeepsApart(MPEG2, Apart, 32, 0xFFFF_FFFF, 0, Bits(data));
    RegisterIsBits(0xFFFF_FFFF, data);
    RegisterIsBits(0, data);
    ZeroStays(data);
  }

  lemma SameBit(x: seq<bv8>, y: seq<bv8>, byte: nat, j: nat)
    requires |x| == |y| && byte < |x| && j < 8 && x[byte] == y[byte]
    ensures Bits(x)[8 * byte + j] == Bits(y)[8 * byte + j]
  {
    BitOf(x, byte, j);
    BitOf(y, byte, j);
  }

  lemma SameByteSameBit(x: seq<bv8>, y: seq<bv8>, i: nat)
    requires |x| == |y| && i < 8 * |x| && x[i / 8] == y[i / 8]
    ensures Bits(x)[i] == Bits(y)[i]
  {
    SameBit(x, y, i / 8, i % 8);
    assert i == 8 * (i / 8) + i % 8;
  }

  /** In particular, messages that differ only inside four consecutive bytes. */
  lemma ByteBurstDetected(x: seq<bv8>, y: seq<bv8>, from: nat)
    requires |x| == |y| && x != y
    requires forall i :: 0 <= i < |x| && !(from <= i < from + 4) ==> x[i] == y[i]
    ensures Crc32(x) != Crc32(y)
  {
    forall i | 0 <= i < 8 * |x| && !(8 * from <= i < 8 * from + 32)
      ensures Bits(x)[i] == Bits(y)[i]
    {
      assert !(from <= i / 8 < from + 4);
      SameByteSameBit(x, y, i);
    }
    BitBurstDetected(x, y, 8 * from);
  }
}
