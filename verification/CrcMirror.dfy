/**
  The benchmark's CRC-32: the same register mirrored, so that it shifts right, takes each byte at the
  bottom, and needs no branch.
 */
module CrcMirror {
  import opened ShiftRegister
  import Crc

  predicate Bottom(c: bv32) {
    c & 1 != 0
  }

  function FeedRight(c: bv32, tap: bool): bv32 {
    if tap then (c >> 1) ^ 0xEDB8_8320 else c >> 1
  }

  function Halve(w: bv32): bv32 {
    w >> 1
  }

  const REFLECTED: Ops<bv32> := Ops(Bottom, FeedRight, Crc.Xor, Halve)

  /** The bits of a word, and of a byte, in the opposite order. */
  function Mirror(c: bv32): bv32 {
    var a := ((c >> 1) & 0x5555_5555) | ((c & 0x5555_5555) << 1);
    var b := ((a >> 2) & 0x3333_3333) | ((a & 0x3333_3333) << 2);
    var d := ((b >> 4) & 0x0F0F_0F0F) | ((b & 0x0F0F_0F0F) << 4);
    var e := ((d >> 8) & 0x00FF_00FF) | ((d & 0x00FF_00FF) << 8);
    (e >> 16) | (e << 16)
  }

  function MirrorByte(b: bv8): bv8 {
    var a := ((b >> 1) & 0x55) | ((b & 0x55) << 1);
    var c := ((a >> 2) & 0x33) | ((a & 0x33) << 2);
    (c >> 4) | (c << 4)
  }

  function MirrorBytes(data: seq<bv8>): seq<bv8> {
    seq(|data|, i requires 0 <= i < |data| => MirrorByte(data[i]))
  }

  function AtBottom(b: bv8): bv32 {
    b as bv32
  }

  function AddByteRight(c: bv32, b: bv8): bv32 {
    Shifts(REFLECTED, Crc.Xor(c, AtBottom(b)), 8)
  }

  function RegisterRight(c: bv32, data: seq<bv8>): bv32 {
    if data == [] then c else AddByteRight(RegisterRight(c, data[..|data| - 1]), data[|data| - 1])
  }

  // --- the mirror is exact --------------------------------------------------------------------------

  /** Bit `i` of the mirror is bit `31 - i` of the word. */
  lemma MirrorReverses(c: bv32, i: bv32)
    requires i <= 31
    ensures (Mirror(c) >> i) & 1 == (c >> (31 - i)) & 1
  {
    if i & 16 == 0 {
      if i & 8 == 0 {} else {}
    } else {
      if i & 8 == 0 {} else {}
    }
  }

  lemma MirrorByteReverses(b: bv8, i: bv8)
    requires i <= 7
    ensures (MirrorByte(b) >> i) & 1 == (b >> (7 - i)) & 1
  {}

  lemma MirrorTop(c: bv32)
    ensures Bottom(Mirror(c)) == Crc.Top(c)
  {}

  lemma MirrorShiftFact(c: bv32)
    ensures Mirror(c << 1) == Mirror(c) >> 1
  {}

  lemma MirrorTapFact(c: bv32)
    ensures Mirror((c << 1) ^ 0x04C1_1DB7) == (Mirror(c) >> 1) ^ 0xEDB8_8320
  {}

  lemma MirrorNoTap(c: bv32)
    ensures FeedRight(Mirror(c), false) == Mirror(Crc.Feed(c, false))
  {
    MirrorShiftFact(c);
  }

  lemma MirrorTap(c: bv32)
    ensures FeedRight(Mirror(c), true) == Mirror(Crc.Feed(c, true))
  {
    MirrorTapFact(c);
  }

  lemma MirrorXor(a: bv32, b: bv32)
    ensures Mirror(Crc.Xor(a, b)) == Crc.Xor(Mirror(a), Mirror(b))
  {}

  lemma MirrorAtTop(b: bv8)
    ensures Mirror(Crc.AtTop(b)) == AtBottom(MirrorByte(b))
  {}

  lemma TopMirrors(c: bv32)
    ensures REFLECTED.top(Mirror(c)) == Crc.MPEG2.top(c)
  {
    MirrorTop(c);
    BottomOf(Mirror(c));
    Crc.TopOf(c);
  }

  lemma BottomOf(c: bv32)
    ensures REFLECTED.top(c) == Bottom(c)
  {}

  lemma FeedMirrors(c: bv32, tap: bool)
    ensures REFLECTED.feed(Mirror(c), tap) == Mirror(Crc.MPEG2.feed(c, tap))
  {
    if tap {
      MirrorTap(c);
    } else {
      MirrorNoTap(c);
    }
  }

  lemma XorMirrors(c: bv32, w: bv32)
    ensures REFLECTED.xor(Mirror(c), Mirror(w)) == Mirror(Crc.MPEG2.xor(c, w))
  {
    MirrorXor(c, w);
  }

  lemma DoubleMirrors(w: bv32)
    ensures REFLECTED.double(Mirror(w)) == Mirror(Crc.MPEG2.double(w))
  {
    HalveMirror(w);
  }

  lemma HalveMirror(w: bv32)
    ensures Halve(Mirror(w)) == Mirror(Crc.Double(w))
  {
    MirrorShiftFact(w);
  }

  lemma RegistersMirror()
    ensures Mirrors(Crc.MPEG2, REFLECTED, Mirror)
  {
    forall c
      ensures REFLECTED.top(Mirror(c)) == Crc.MPEG2.top(c)
    {
      TopMirrors(c);
    }
    forall c, tap
      ensures REFLECTED.feed(Mirror(c), tap) == Mirror(Crc.MPEG2.feed(c, tap))
    {
      FeedMirrors(c, tap);
    }
    forall c, w
      ensures REFLECTED.xor(Mirror(c), Mirror(w)) == Mirror(Crc.MPEG2.xor(c, w))
    {
      XorMirrors(c, w);
    }
    forall w
      ensures REFLECTED.double(Mirror(w)) == Mirror(Crc.MPEG2.double(w))
    {
      DoubleMirrors(w);
    }
  }

  lemma AddByteMirrors(c: bv32, b: bv8)
    ensures AddByteRight(Mirror(c), MirrorByte(b)) == Mirror(Crc.AddByte(c, b))
  {
    RegistersMirror();
    MirrorAtTop(b);
    MirrorXor(c, Crc.AtTop(b));
    ShiftsMirror(Crc.MPEG2, REFLECTED, Mirror, Crc.Xor(c, Crc.AtTop(b)), 8);
  }

  /** The reflected register over mirrored bytes is the mirror image of the MPEG-2 register. */
  lemma {:induction false} RegisterMirrors(c: bv32, data: seq<bv8>)
    ensures RegisterRight(Mirror(c), MirrorBytes(data)) == Mirror(Crc.Register(c, data))
  {
    if data != [] {
      var init, last := data[..|data| - 1], data[|data| - 1];
      RegisterMirrors(c, init);
      AddByteMirrors(Crc.Register(c, init), last);
      assert MirrorBytes(data)[..|data| - 1] == MirrorBytes(init);
    }
  }

  lemma MirrorInit()
    ensures Mirror(Crc.INIT) == Crc.INIT
  {}

  /** With the common start value, the benchmark's register is the mirror image of the boot checksum. */
  lemma CrcMirrors(data: seq<bv8>)
    ensures RegisterRight(Crc.INIT, MirrorBytes(data)) == Mirror(Crc.Crc32(data))
  {
    MirrorInit();
    RegisterMirrors(Crc.INIT, data);
  }

  // --- the benchmark kernel -------------------------------------------------------------------------

  function WordBytes(w: bv32): (bytes: seq<bv8>)
    ensures |bytes| == 4
  {
    seq(4, b requires 0 <= b < 4 => Crc.ByteOf(w, b))
  }

  function BufferBytes(words: seq<bv32>): seq<bv8> {
    if words == [] then [] else BufferBytes(words[..|words| - 1]) + WordBytes(words[|words| - 1])
  }

  /** The body of the innermost loop. */
  method ShiftRight(c: bv32) returns (crc: bv32)
    ensures crc == Shift(REFLECTED, c)
  {
    BranchFree(c);
    crc := (c >> 1) ^ (0xEDB8_8320 & (0 - (c & 1)));
  }

  /** The branch-free step is the conditional one. */
  lemma BranchFree(c: bv32)
    ensures (c >> 1) ^ (0xEDB8_8320 & (0 - (c & 1))) == FeedRight(c, Bottom(c))
  {
    LastBit(c);
    if Bottom(c) {
      MaskOn(c & 1);
    } else {
      MaskOff(c & 1, c >> 1);
    }
  }

  lemma LastBit(c: bv32)
    ensures c & 1 == if Bottom(c) then 1 else 0
  {}

  lemma MaskOn(bit: bv32)
    requires bit == 1
    ensures 0xEDB8_8320 & (0 - bit) == 0xEDB8_8320
  {}

  lemma MaskOff(bit: bv32, half: bv32)
    requires bit == 0
    ensures half ^ (0xEDB8_8320 & (0 - bit)) == half
  {}

  lemma PartIs(w: bv32, b: nat)
    requires b < 4
    ensures (w >> (8 * b)) & 0xFF == AtBottom(Crc.ByteOf(w, b))
  {
    match b
    case 0 => case 1 => case 2 => case 3 =>
  }

  /** One byte of a word: the xor and the innermost loop. */
  method AddPart(c: bv32, part: bv32, ghost b: bv8) returns (crc: bv32)
    requires part == AtBottom(b)
    ensures crc == AddByteRight(c, b)
  {
    crc := c ^ part;
    assert crc == Crc.Xor(c, AtBottom(b));
    for r := 0 to 8
      invariant crc == Shifts(REFLECTED, Crc.Xor(c, AtBottom(b)), r)
    {
      crc := ShiftRight(crc);
    }
  }

  /** `(w >> (8 * b)) & 0xFF`. */
  method Part(w: bv32, b: nat) returns (part: bv32)
    requires b < 4
    ensures part == AtBottom(WordBytes(w)[b])
  {
    PartIs(w, b);
    part := (w >> (8 * b)) & 0xFF;
  }

  /** The loop over the bytes of one word. */
  method AddWord(c: bv32, w: bv32) returns (crc: bv32)
    ensures crc == RegisterRight(c, WordBytes(w))
  {
    crc := c;
    for b := 0 to 4
      invariant crc == RegisterRight(c, WordBytes(w)[..b])
    {
      var part := Part(w, b);
      crc := AddPart(crc, part, WordBytes(w)[b]);
      assert WordBytes(w)[..b + 1][..b] == WordBytes(w)[..b];
    }
    assert WordBytes(w)[..4] == WordBytes(w);
  }

  lemma {:induction false} RegisterRightAppend(c: bv32, a: seq<bv8>, b: seq<bv8>)
    ensures RegisterRight(c, a + b) == RegisterRight(RegisterRight(c, a), b)
  {
    if b == [] {
      assert a + b == a;
    } else {
      RegisterRightAppend(c, a, b[..|b| - 1]);
      assert (a + b)[..|a + b| - 1] == a + b[..|b| - 1];
    }
  }

  /** The loop over the words. */
  method AddBuffer(c: bv32, buf: array<bv32>) returns (crc: bv32)
    ensures crc == RegisterRight(c, BufferBytes(buf[..]))
  {
    crc := c;
    for i := 0 to buf.Length
      invariant crc == RegisterRight(c, BufferBytes(buf[..i]))
    {
      crc := AddWord(crc, buf[i]);
      assert buf[..i + 1][..i] == buf[..i];
      RegisterRightAppend(c, BufferBytes(buf[..i]), WordBytes(buf[i]));
    }
    assert buf[..buf.Length] == buf[..];
  }

  /** `0xFFFFFFFF ^ k`. */
  function Start(k: nat): bv32
    requires k < 4
  {
    match k
    case 0 => 0xFFFF_FFFF ^ 0
    case 1 => 0xFFFF_FFFF ^ 1
    case 2 => 0xFFFF_FFFF ^ 2
    case 3 => 0xFFFF_FFFF ^ 3
  }

  /** `acc ^ ~crc`. */
  function Joined(acc: bv32, crc: bv32): bv32 {
    acc ^ !crc
  }

  /** What `bm_crc32` accumulates in `n` passes over the same bytes, pass k starting from 0xFFFFFFFF ^ k. */
  function Passes(data: seq<bv8>, n: nat): bv32
    requires n <= 4
  {
    if n == 0 then 0 else Joined(Passes(data, n - 1), RegisterRight(Start(n - 1), data))
  }

  /** The four passes, by their start values. */
  lemma FourPasses(data: seq<bv8>)
    ensures Passes(data, 4)
            == Joined(Joined(Joined(Joined(0, RegisterRight(0xFFFF_FFFF, data)), RegisterRight(0xFFFF_FFFE, data)),
                             RegisterRight(0xFFFF_FFFD, data)), RegisterRight(0xFFFF_FFFC, data))
  {
    Starts();
    assert Passes(data, 1) == Joined(0, RegisterRight(Start(0), data));
    assert Passes(data, 2) == Joined(Passes(data, 1), RegisterRight(Start(1), data));
    assert Passes(data, 3) == Joined(Passes(data, 2), RegisterRight(Start(2), data));
  }

  lemma Starts()
    ensures Start(0) == 0xFFFF_FFFF && Start(1) == 0xFFFF_FFFE
    ensures Start(2) == 0xFFFF_FFFD && Start(3) == 0xFFFF_FFFC
  {}

  /** One pass over the buffer. */
  method OnePass(acc0: bv32, start: bv32, buf: array<bv32>) returns (acc: bv32)
    ensures acc == Joined(acc0, RegisterRight(start, BufferBytes(buf[..])))
  {
    var crc := AddBuffer(start, buf);
    acc := acc0 ^ !crc;
  }

  method BmCrc32(buf: array<bv32>) returns (acc: bv32)
    ensures acc == Passes(BufferBytes(buf[..]), 4)
  {
    acc := 0;
    for k := 0 to 4
      invariant acc == Passes(BufferBytes(buf[..]), k)
    {
      acc := OnePass(acc, Start(k), buf);
    }
  }
}
