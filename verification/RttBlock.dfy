/**
  The RTT control block, as 12 words from its base on. A host finds it by scanning memory for the magic in
  words 0 to 3, at any moment while `init` builds it.
 */
module RttBlock {
  import opened Words

  const BUF: u32 := 0x2003_8040

  type Block = b: seq<u32> | |b| == 12 witness seq(12, _ => 0)

  /** "SEGGER RTT" and six zeros. */
  predicate Found(b: Block) {
    b[0] == 0x4747_4553 && b[1] == 0x5220_5245 && b[2] == 0x5454 && b[3] == 0
  }

  /** Byte `i` of the block, the lowest byte of a word first. */
  function ByteAt(b: Block, i: nat): nat
    requires i < 48
  {
    var word := b[i / 4];
    match i % 4
    case 0 => word % 256
    case 1 => word / 256 % 256
    case 2 => word / 65536 % 256
    case _ => word / 16777216
  }

  /** The magic a host scans for reads "SEGGER RTT", and six zeros follow. */
  lemma FoundReads(b: Block)
    requires Found(b)
    ensures ByteAt(b, 0) == 'S' as int && ByteAt(b, 1) == 'E' as int && ByteAt(b, 2) == 'G' as int
    ensures ByteAt(b, 3) == 'G' as int && ByteAt(b, 4) == 'E' as int && ByteAt(b, 5) == 'R' as int
    ensures ByteAt(b, 6) == ' ' as int && ByteAt(b, 7) == 'R' as int && ByteAt(b, 8) == 'T' as int
    ensures ByteAt(b, 9) == 'T' as int && forall i :: 10 <= i < 16 ==> ByteAt(b, i) == 0
  {}

  /** One up channel over an empty ring of 1024 bytes, and no down channel. */
  predicate Built(b: Block) {
    && b[4] == 1 && b[5] == 0 && b[6] == 0 && b[7] == BUF && b[8] == 1024
    && b[9] == 0 && b[10] == 0 && b[11] == 0
  }

  datatype Store = Store(word: nat, value: u32)

  /** The stores of `init`: the fields, and then the magic from its end to its start. */
  const STORES: seq<Store> :=
    [Store(4, 1), Store(5, 0), Store(6, 0), Store(7, BUF), Store(8, 1024), Store(9, 0), Store(10, 0), Store(11, 0),
     Store(3, 0), Store(2, 0x5454), Store(1, 0x5220_5245), Store(0, 0x4747_4553)]

  /** The block after the first `k` stores. */
  function After(b: Block, k: nat): Block
    requires k <= 12
  {
    if k == 0 then b else After(b, k - 1)[STORES[k - 1].word := STORES[k - 1].value]
  }

  /** Every word holds what it held, or what its store put there. */
  lemma {:induction false} AfterIs(b: Block, k: nat, j: nat)
    requires k <= 12 && j < 12
    ensures After(b, k)[STORES[j].word] == if j < k then STORES[j].value else b[STORES[j].word]
  {
    if k > 0 {
      AfterIs(b, k - 1, j);
      assert STORES[j].word == STORES[k - 1].word ==> j == k - 1;
    }
  }

  lemma AllAfter(b: Block, k: nat)
    requires k <= 12
    ensures forall j :: 0 <= j < 12 ==>
      After(b, k)[STORES[j].word] == if j < k then STORES[j].value else b[STORES[j].word]
  {
    forall j | 0 <= j < 12
      ensures After(b, k)[STORES[j].word] == if j < k then STORES[j].value else b[STORES[j].word]
    {
      AfterIs(b, k, j);
    }
  }

  lemma FieldsAfter(b: Block, k: nat)
    requires k <= 12
    ensures k >= 8 || Built(b) ==> Built(After(b, k))
    ensures k < 9 ==> (Found(After(b, k)) <==> Found(b))
    ensures k == 12 ==> Found(After(b, k))
  {
    AllAfter(b, k);
    assert STORES[0].word == 4 && STORES[1].word == 5 && STORES[2].word == 6 && STORES[3].word == 7;
    assert STORES[4].word == 8 && STORES[5].word == 9 && STORES[6].word == 10 && STORES[7].word == 11;
    assert STORES[8].word == 3 && STORES[9].word == 2 && STORES[10].word == 1 && STORES[11].word == 0;
  }

  /**
    A host that scans at any moment finds only a built block exactly when memory held no block before, or a
    freshly built one: an old block with offsets in it is found while its offsets are being cleared.
   */
  lemma NeverHalfBuilt(b: Block)
    ensures (forall k: nat :: k <= 12 && Found(After(b, k)) ==> Built(After(b, k))) <==> (Found(b) ==> Built(b))
  {
    forall k: nat | k <= 12 && (Found(b) ==> Built(b))
      ensures Found(After(b, k)) ==> Built(After(b, k))
    {
      FieldsAfter(b, k);
    }
    assert After(b, 0) == b;
  }

  /** `init`. */
  method Init(mem: array<u32>)
    requires mem.Length == 12
    modifies mem
    ensures mem[..] == After(old(mem[..]), 12) && Found(mem[..]) && Built(mem[..])
    ensures mem[7] == 0x2003_8040
  {
    ghost var was := mem[..];
    mem[4] := 1;
    mem[5] := 0;
    mem[6] := 0;
    mem[7] := BUF;
    mem[8] := 1024;
    mem[9] := 0;
    mem[10] := 0;
    mem[11] := 0;
    mem[3] := 0;
    mem[2] := 0x0000_5454;
    mem[1] := 0x5220_5245;
    mem[0] := 0x4747_4553;
    FieldsAfter(was, 12);
    SameBlock(mem[..], After(was, 12));
  }

  lemma SameBlock(a: Block, b: Block)
    requires Found(a) && Built(a) && Found(b) && Built(b)
    ensures a == b
  {}
}
