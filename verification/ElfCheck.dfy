/**
  The firmware checker on the sections of an ELF file, and the builder of the boot block it checks.
 */
module ElfCheck {
  import opened Words
  import opened Crc
  import opened ElfLayout

  const BOOT_SIZE: nat := 252

  datatype Result<T> = Ok(value: T) | Err(tooLong: nat)

  // --- words in memory ----------------------------------------------------------------------------

  /** `_rd32`: four bytes, the lowest first. */
  function Join(b0: bv8, b1: bv8, b2: bv8, b3: bv8): bv32 {
    (b0 as bv32) | ((b1 as bv32) << 8) | ((b2 as bv32) << 16) | ((b3 as bv32) << 24)
  }

  function Rd32(d: seq<bv8>, off: nat): bv32
    requires off + 4 <= |d|
  {
    Join(d[off], d[off + 1], d[off + 2], d[off + 3])
  }

  /** The four bytes of a word, the lowest first. */
  predicate Little(bytes: seq<bv8>, v: bv32) {
    && |bytes| == 4
    && bytes[0] as bv32 == v & 0xFF && bytes[1] as bv32 == (v >> 8) & 0xFF
    && bytes[2] as bv32 == (v >> 16) & 0xFF && bytes[3] as bv32 == (v >> 24) & 0xFF
  }

  lemma BytesAre(v: bv32)
    ensures Little([ByteOf(v, 0), ByteOf(v, 1), ByteOf(v, 2), ByteOf(v, 3)], v)
  {}

  lemma JoinBytes(v: bv32)
    ensures Join(ByteOf(v, 0), ByteOf(v, 1), ByteOf(v, 2), ByteOf(v, 3)) == v
  {}

  lemma BytesOfJoin(b0: bv8, b1: bv8, b2: bv8, b3: bv8)
    ensures ByteOf(Join(b0, b1, b2, b3), 0) == b0 && ByteOf(Join(b0, b1, b2, b3), 1) == b1
    ensures ByteOf(Join(b0, b1, b2, b3), 2) == b2 && ByteOf(Join(b0, b1, b2, b3), 3) == b3
  {}

  // --- the boot block -----------------------------------------------------------------------------

  /** The checksum the mask ROM demands: of the first 252 bytes, in the last four. */
  predicate Sealed(block: seq<bv8>)
    requires |block| == 256
  {
    Rd32(block, BOOT_SIZE) == Crc32(block[..BOOT_SIZE])
  }

  /** `build_boot2` from the raw code: the one sealed block that holds the code and then zeros. */
  method BuildBoot2(raw: seq<bv8>) returns (r: Result<seq<bv8>>)
    ensures r.Err? <==> |raw| > 252
    ensures r.Ok? ==>
      && |r.value| == 256 && raw <= r.value && Sealed(r.value)
      && (forall i :: |raw| <= i < 252 ==> r.value[i] == 0)
      && Little(r.value[252..], Register(0xFFFF_FFFF, r.value[..252]))
  {
    if |raw| > 252 {
      return Err(|raw|);
    }
    var blob: seq<bv8> := raw;
    while |blob| < 252
      invariant raw <= blob && |blob| <= 252
      invariant forall i :: |raw| <= i < |blob| ==> blob[i] == 0
    {
      blob := blob + [0];
    }
    var crc := Crc32Mpeg2(blob, 252);
    var block := blob + [ByteOf(crc, 0), ByteOf(crc, 1), ByteOf(crc, 2), ByteOf(crc, 3)];
    JoinBytes(crc);
    BytesAre(crc);
    assert block[252..] == [ByteOf(crc, 0), ByteOf(crc, 1), ByteOf(crc, 2), ByteOf(crc, 3)];
    assert blob[..252] == blob == block[..252];
    r := Ok(block);
  }

  lemma SameWordSameBytes(a: seq<bv8>, b: seq<bv8>, off: nat)
    requires off + 4 <= |a| && off + 4 <= |b| && Rd32(a, off) == Rd32(b, off)
    ensures a[off..off + 4] == b[off..off + 4]
  {
    BytesOfJoin(a[off], a[off + 1], a[off + 2], a[off + 3]);
    BytesOfJoin(b[off], b[off + 1], b[off + 2], b[off + 3]);
  }

  /** The code and the padding leave no choice: there is one block to build. */
  lemma OneSealedBlock(a: seq<bv8>, b: seq<bv8>)
    requires |a| == |b| == 256 && a[..252] == b[..252] && Sealed(a) && Sealed(b)
    ensures a == b
  {
    SameWordSameBytes(a, b, 252);
    assert a == a[..252] + a[252..256] && b == b[..252] + b[252..256];
  }

  /** Erased to zeros, a boot block is not sealed. */
  lemma ZerosUnsealed(block: seq<bv8>)
    requires |block| == 256 && forall i :: 0 <= i < 256 ==> block[i] == 0
    ensures !Sealed(block)
  {
    ZerosShow(block[..BOOT_SIZE]);
    JoinZero();
  }

  lemma JoinZero()
    ensures Join(0, 0, 0, 0) == 0
  {}

  lemma BitsOfPrefix(block: seq<bv8>, i: nat)
    requires |block| == 256 && i < 8 * 252
    ensures Bits(block[..252])[i] == Bits(block)[i]
  {
    assert i == 8 * (i / 8) + i % 8;
    BitOf(block[..252], i / 8, i % 8);
    BitOf(block, i / 8, i % 8);
  }

  /** A sealed block damaged inside 32 consecutive bits of its code is no longer sealed. */
  lemma DamageUnseals(good: seq<bv8>, bad: seq<bv8>, from: nat)
    requires |good| == |bad| == 256 && good != bad && good[252..] == bad[252..] && Sealed(good)
    requires forall i :: 0 <= i < 8 * 256 && !(from <= i < from + 32) ==> Bits(good)[i] == Bits(bad)[i]
    ensures !Sealed(bad)
  {
    var x, y := good[..252], bad[..252];
    assert good == x + good[252..] && bad == y + bad[252..];
    forall i | 0 <= i < 8 * |x| && !(from <= i < from + 32)
      ensures Bits(x)[i] == Bits(y)[i]
    {
      BitsOfPrefix(good, i);
      BitsOfPrefix(bad, i);
    }
    BitBurstDetected(x, y, from);
    assert forall k :: 252 <= k < 256 ==> good[k] == good[252..][k - 252] && bad[k] == bad[252..][k - 252];
  }

  // --- the checks on boot2 and the vector table ---------------------------------------------------

  /** The bytes the checker reads are in the file. */
  predicate Readable(raw: seq<bv8>, s: Sect) {
    && (s.name == ".boot2" && s.size == 256 ==> s.offset + 256 <= |raw|)
    && (s.name == ".vector_table" ==> s.offset + 8 <= |raw|)
  }

  /** The mask ROM accepts the boot block. */
  predicate BootsUp(raw: seq<bv8>, s: Sect) {
    s.addr == 0x1000_0000 && s.size == 256 && s.offset + 256 <= |raw| && Sealed(raw[s.offset..s.offset + 256])
  }

  predicate StackInRam(sp: bv32) {
    0x2000_0000 < sp <= 0x2004_0000 && sp & 3 == 0
  }

  /** A thumb address in flash. */
  predicate CodeInFlash(reset: bv32) {
    0x1000_0000 < reset < 0x1020_0000 && reset & 1 == 1
  }

  predicate Starts(raw: seq<bv8>, s: Sect) {
    && s.addr == 0x1000_0100 && s.offset + 8 <= |raw|
    && StackInRam(Rd32(raw, s.offset)) && CodeInFlash(Rd32(raw, s.offset + 4))
  }

  predicate GoodSection(raw: seq<bv8>, s: Sect) {
    && (s.name == ".boot2" ==> BootsUp(raw, s))
    && (s.name == ".vector_table" ==> Starts(raw, s))
  }

  predicate Has(sects: seq<Sect>, name: string) {
    exists i :: 0 <= i < |sects| && sects[i].name == name
  }

  predicate GoodImage(raw: seq<bv8>, sects: seq<Sect>) {
    && Has(sects, ".boot2") && Has(sects, ".vector_table")
    && forall i :: 0 <= i < |sects| ==> GoodSection(raw, sects[i])
  }

  lemma AlignedByMask(sp: bv32)
    ensures sp % 4 == 0 <==> sp & 3 == 0
  {}

  lemma ThumbRange(reset: bv32)
    requires reset & 1 == 1
    ensures 0x1000_0000 <= reset & 0xFFFF_FFFE < 0x1020_0000 <==> 0x1000_0000 < reset < 0x1020_0000
  {}

  lemma ThumbBit(reset: bv32)
    ensures reset & 1 == 0 || reset & 1 == 1
  {}

  /** `None` stands for a read past the end of the file, which stops the checker. */
  method CheckBoot2(raw: seq<bv8>, s: Sect) returns (r: Option<seq<Failure>>)
    requires s.name == ".boot2"
    ensures r.None? <==> !Readable(raw, s)
    ensures r == Some([]) <==> BootsUp(raw, s)
    ensures r.Some? ==> (Boot2Address(s.addr) in r.value <==> s.addr != 0x1000_0000)
    ensures r.Some? ==> (Boot2Size(s.size) in r.value <==> s.size != 256)
    ensures r.Some? && s.size == 256 ==>
      var block := raw[s.offset..s.offset + 256];
      Boot2Checksum(Rd32(block, 252), Crc32(block[..252])) in r.value <==> !Sealed(block)
    ensures r.Some? ==> forall want, got :: Boot2Checksum(want, got) in r.value ==>
      s.size == 256 && want == Rd32(raw[s.offset..s.offset + 256], 252)
      && got == Crc32(raw[s.offset..s.offset + 256][..252])
  {
    var fails: seq<Failure> := [];
    if s.addr != FLASH_ORIGIN {
      fails := fails + [Boot2Address(s.addr)];
    }
    if s.size != 256 {
      fails := fails + [Boot2Size(s.size)];
    } else {
      if s.offset + 256 > |raw| {
        return None;
      }
      var blob := raw[s.offset..s.offset + 256];
      var want := Rd32(blob, 252);
      var got := Crc32Mpeg2(blob, 252);
      if want != got {
        fails := fails + [Boot2Checksum(want, got)];
      }
    }
    r := Some(fails);
  }

  /** The first two words of the vector table. */
  method CheckStart(sp: bv32, reset: bv32) returns (fails: seq<Failure>)
    ensures fails == [] <==> StackInRam(sp) && CodeInFlash(reset)
    ensures BadStack(sp) in fails <==> !StackInRam(sp)
    ensures NoThumbBit(reset) in fails <==> reset & 1 == 0
    ensures ResetOutside(reset) in fails <==> !(0x1000_0000 <= reset & 0xFFFF_FFFE < 0x1020_0000)
    ensures NoThumbBit(reset) in fails || ResetOutside(reset) in fails <==> !CodeInFlash(reset)
    ensures forall addr :: VectorsAddress(addr) !in fails
  {
    fails := [];
    AlignedByMask(sp);
    if !(0x2000_0000 < sp && sp <= 0x2004_0000) || sp % 4 != 0 {
      fails := fails + [BadStack(sp)];
    }
    ThumbBit(reset);
    if reset & 1 == 0 {
      fails := fails + [NoThumbBit(reset)];
    } else {
      ThumbRange(reset);
    }
    var resetA := reset & 0xFFFF_FFFE;
    if !(0x1000_0000 <= resetA && resetA < 0x1020_0000) {
      fails := fails + [ResetOutside(reset)];
    }
  }

  method CheckVectors(raw: seq<bv8>, s: Sect) returns (r: Option<seq<Failure>>)
    requires s.name == ".vector_table"
    ensures r.None? <==> !Readable(raw, s)
    ensures r == Some([]) <==> Starts(raw, s)
    ensures r.Some? ==> (VectorsAddress(s.addr) in r.value <==> s.addr != 0x1000_0100)
    ensures r.Some? ==> (BadStack(Rd32(raw, s.offset)) in r.value <==> !StackInRam(Rd32(raw, s.offset)))
    ensures r.Some? ==>
      var reset := Rd32(raw, s.offset + 4);
      NoThumbBit(reset) in r.value || ResetOutside(reset) in r.value <==> !CodeInFlash(reset)
  {
    var fails: seq<Failure> := [];
    if s.addr != 0x1000_0100 {
      fails := fails + [VectorsAddress(s.addr)];
    }
    if s.offset + 8 > |raw| {
      return None;
    }
    var sp := Rd32(raw, s.offset);
    var reset := Rd32(raw, s.offset + 4);
    var more := CheckStart(sp, reset);
    r := Some(fails + more);
  }

  /** What the loop does with one section. */
  method CheckSection(raw: seq<bv8>, s: Sect) returns (r: Option<seq<Failure>>)
    ensures r.None? <==> !Readable(raw, s)
    ensures r == Some([]) <==> GoodSection(raw, s)
  {
    if s.name == ".boot2" {
      r := CheckBoot2(raw, s);
    } else if s.name == ".vector_table" {
      r := CheckVectors(raw, s);
    } else {
      r := Some([]);
    }
  }

  /** The loop over the sections: silent exactly on a bootable image. */
  method CheckImage(raw: seq<bv8>, sects: seq<Sect>) returns (r: Option<seq<Failure>>)
    ensures r.None? <==> exists i :: 0 <= i < |sects| && !Readable(raw, sects[i])
    ensures r == Some([]) <==> GoodImage(raw, sects)
  {
    var fails: seq<Failure> := [];
    var haveBoot2, haveVt := false, false;
    for k := 0 to |sects|
      invariant haveBoot2 <==> exists i :: 0 <= i < k && sects[i].name == ".boot2"
      invariant haveVt <==> exists i :: 0 <= i < k && sects[i].name == ".vector_table"
      invariant fails == [] <==> forall i :: 0 <= i < k ==> GoodSection(raw, sects[i])
      invariant forall i :: 0 <= i < k ==> Readable(raw, sects[i])
    {
      haveBoot2 := haveBoot2 || sects[k].name == ".boot2";
      haveVt := haveVt || sects[k].name == ".vector_table";
      var more := CheckSection(raw, sects[k]);
      if more.None? {
        return None;
      }
      fails := fails + more.value;
    }
    if !haveBoot2 {
      fails := fails + [MissingBoot2];
    }
    if !haveVt {
      fails := fails + [MissingVectors];
    }
    r := Some(fails);
  }

  /**
    `check` on the sections: no failure exactly when the image boots and its layout is good, as long as no
    section wraps around the address space. It never complains about a good firmware.
   */
  method Check(raw: seq<bv8>, sects: seq<Sect>) returns (r: Option<seq<Failure>>)
    ensures r.None? <==> exists i :: 0 <= i < |sects| && !Readable(raw, sects[i])
    ensures GoodImage(raw, sects) && SafeLayout(sects) <==> r == Some([]) && Unwrapped(sects)
  {
    r := CheckImage(raw, sects);
    if r.Some? {
      var more, flash, ram;
      ghost var order;
      more, flash, ram, order := CheckLayout(sects);
      r := Some(r.value + more);
    }
  }
}
