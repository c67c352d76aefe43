/**
  The host half of `tools/rtt_rp2350.mojo`, which does not keep the order of a conforming RTT host: it copies
  the first 40 bytes of the ring, one after the other, then loads WrOff, and stores that value into RdOff. The
  writer goes on all the while.
 */
module RttScript {
  import opened Words
  import opened Rtt

  const COPIED: nat := 40

  function Flat(parts: seq<seq<u8>>): seq<u8> {
    if parts == [] then [] else Flat(parts[..|parts| - 1]) + parts[|parts| - 1]
  }

  lemma FlatNext(parts: seq<seq<u8>>, j: nat)
    requires j < |parts|
    ensures Flat(parts[..j + 1]) == Flat(parts[..j]) + parts[j]
  {
    assert parts[..j + 1][..j] == parts[..j];
  }

  lemma {:induction false} FlatGrows(parts: seq<seq<u8>>, i: nat, j: nat)
    requires i <= j <= |parts|
    ensures Flat(parts[..i]) <= Flat(parts[..j])
    decreases j
  {
    if i < j {
      FlatNext(parts, j - 1);
      FlatGrows(parts, i, j - 1);
    }
  }

  /** How many bytes from RdOff on are stored when byte `j` is copied: those pending at first, and those stored since. */
  function StoredBy(pending: nat, stores: seq<seq<u8>>, j: nat): nat
    requires j < |stores|
  {
    pending + |Flat(stores[..j + 1])|
  }

  /** Byte `k` from RdOff on was stored, in the part of the ring that is copied, before its place was. */
  predicate Copied(rd: Offset, pending: nat, stores: seq<seq<u8>>, k: nat)
    requires |stores| == 41
  {
    var at := (rd + k) % SIZE;
    at < COPIED && k < StoredBy(pending, stores, at)
  }

  /** All the bytes that are consumed, by moving RdOff over `n` of them, were so. */
  predicate AllCopied(rd: Offset, pending: nat, stores: seq<seq<u8>>, n: nat)
    requires |stores| == 41
  {
    forall k: nat :: k < n ==> Copied(rd, pending, stores, k)
  }

  /** The writer is ahead of the copy at each of these bytes. */
  predicate WriterAhead(rd: Offset, pending: nat, stores: seq<seq<u8>>, n: nat)
    requires |stores| == 41 && rd + n <= COPIED
  {
    forall k: nat :: k < n ==> InTime(rd, pending, stores, k)
  }

  predicate InTime(rd: Offset, pending: nat, stores: seq<seq<u8>>, k: nat)
    requires |stores| == 41 && rd + k < 41
  {
    k < StoredBy(pending, stores, rd + k)
  }

  /** That is so exactly when they lie inside the copy and the writer stays ahead of it. */
  lemma CopiedExactly(rd: Offset, pending: nat, stores: seq<seq<u8>>, n: nat)
    requires |stores| == 41 && n < SIZE
    ensures AllCopied(rd, pending, stores, n) <==>
              n == 0 || (rd + n <= COPIED && WriterAhead(rd, pending, stores, n))
  {
    if n > 0 && rd + n <= COPIED {
      forall k: nat | k < n
        ensures Copied(rd, pending, stores, k) <==> InTime(rd, pending, stores, k)
      {
        SmallMod(rd + k, SIZE);
      }
    } else if n > 0 {
      var k := if rd < COPIED then COPIED - rd else 0;
      SmallMod(rd + k, SIZE);
      assert !Copied(rd, pending, stores, k);
    }
  }

  /** With a writer at rest, exactly when what was pending lies inside the copy. */
  lemma CopiedAtRest(rd: Offset, pending: nat, stores: seq<seq<u8>>)
    requires |stores| == 41 && pending < SIZE && Flat(stores) == []
    ensures AllCopied(rd, pending, stores, pending) <==> pending == 0 || rd + pending <= COPIED
  {
    CopiedExactly(rd, pending, stores, pending);
  }

  /** The writer stores some bytes past the `n` that are there from RdOff on. */
  method StoresOn(ring: array<u8>, rdOff: Offset, n: nat, bytes: seq<u8>)
    requires ring.Length == SIZE && n + |bytes| < SIZE
    modifies ring
    ensures Slice(ring[..], rdOff, n + |bytes|) == Slice(old(ring[..]), rdOff, n) + bytes
  {
    for i := 0 to |bytes|
      invariant Slice(ring[..], rdOff, n + i) == Slice(old(ring[..]), rdOff, n) + bytes[..i]
    {
      StoreAhead(ring[..], rdOff, n + i, bytes[i]);
      ghost var after := ring[..][(rdOff + (n + i)) % SIZE := bytes[i]];
      ring[(rdOff + n + i) % SIZE] := bytes[i];
      assert ring[..] == after && bytes[..i + 1] == bytes[..i] + [bytes[i]];
    }
    assert bytes[..|bytes|] == bytes;
  }

  /** The copy holds each byte of the stream that was stored in time. */
  predicate Holds(copy: seq<u8>, rd: Offset, pending: nat, stores: seq<seq<u8>>, stream: seq<u8>)
    requires |stores| == 41 && |copy| <= COPIED
  {
    forall k: nat :: k < |stream| && (rd + k) % SIZE < |copy| && Copied(rd, pending, stores, k) ==>
      copy[(rd + k) % SIZE] == stream[k]
  }

  lemma HoldsOneMore(copy: seq<u8>, rd: Offset, pending: nat, stores: seq<seq<u8>>, stream: seq<u8>, ring: seq<u8>)
    requires |stores| == 41 && |copy| < COPIED && |ring| == SIZE && Holds(copy, rd, pending, stores, stream)
    requires |stream| == pending + |Flat(stores[..|copy|])|
    requires Slice(ring, rd, |stream| + |stores[|copy|]|) == stream + stores[|copy|]
    ensures Holds(copy + [ring[|copy|]], rd, pending, stores, stream + stores[|copy|])
  {
    var j, more := |copy|, stream + stores[|copy|];
    forall k: nat | k < |more| && (rd + k) % SIZE < j + 1 && Copied(rd, pending, stores, k)
      ensures (copy + [ring[j]])[(rd + k) % SIZE] == more[k]
    {
      var at := (rd + k) % SIZE;
      if at < j {
        FlatGrows(stores, at + 1, j);
      } else {
        assert Slice(ring, rd, |more|)[k] == ring[at];
      }
    }
  }

  /**
    One pass of the script: the writer stores `stores[j]` before byte `j` is copied, and `stores[40]` before
    WrOff is loaded. By then it has published `n` of the bytes from RdOff on.
   */
  method ScriptPass(ring: array<u8>, rdOff: Offset, pending: nat, stores: seq<seq<u8>>, n: nat)
    returns (copy: seq<u8>, rd: Offset, ghost consumed: seq<u8>)
    requires ring.Length == SIZE && |stores| == 41 && pending <= n <= pending + |Flat(stores)| < SIZE
    modifies ring
    ensures |copy| == COPIED && rd == (rdOff + n) % SIZE
    ensures consumed == (Slice(old(ring[..]), rdOff, pending) + Flat(stores))[..n]
    ensures consumed == Slice(ring[..], rdOff, n)
    ensures forall k: nat :: k < n && Copied(rdOff, pending, stores, k) ==> copy[(rdOff + k) % SIZE] == consumed[k]
    ensures AllCopied(rdOff, pending, stores, n) <==>
              n == 0 || (rdOff + n <= COPIED && WriterAhead(rdOff, pending, stores, n))
  {
    copy := [];
    ghost var first := Slice(ring[..], rdOff, pending);
    var stored := pending;
    for j := 0 to 40
      invariant |copy| == j && stored == pending + |Flat(stores[..j])| < SIZE
      invariant Slice(ring[..], rdOff, stored) == first + Flat(stores[..j])
      invariant Holds(copy, rdOff, pending, stores, first + Flat(stores[..j]))
    {
      ghost var stream := first + Flat(stores[..j]);
      Fits(pending, stores, j);
      StoresOn(ring, rdOff, stored, stores[j]);
      HoldsOneMore(copy, rdOff, pending, stores, stream, ring[..]);
      copy := copy + [ring[j]];
      stored := stored + |stores[j]|;
      FlatNext(stores, j);
      assert stream + stores[j] == first + Flat(stores[..j + 1]);
    }
    Fits(pending, stores, 40);
    StoresOn(ring, rdOff, stored, stores[40]);
    FlatNext(stores, 40);
    assert stores[..41] == stores;
    rd := (rdOff + n) % SIZE;
    consumed := Slice(ring[..], rdOff, n);
    Consumes(ring[..], rdOff, n, first + Flat(stores[..40]), stores[40], first, Flat(stores));
    CopiedExactly(rdOff, pending, stores, n);
    HoldsConsumed(copy, rdOff, pending, stores, first + Flat(stores[..40]), consumed, n);
  }

  lemma Fits(pending: nat, stores: seq<seq<u8>>, j: nat)
    requires j < |stores| && pending + |Flat(stores)| < SIZE
    ensures pending + |Flat(stores[..j])| + |stores[j]| < SIZE
  {
    FlatNext(stores, j);
    FlatGrows(stores, j + 1, |stores|);
    assert stores[..|stores|] == stores;
  }

  lemma Consumes(ring: seq<u8>, rd: Offset, n: nat, stream: seq<u8>, last: seq<u8>, first: seq<u8>, flat: seq<u8>)
    requires |ring| == SIZE && n <= |stream| + |last|
    requires Slice(ring, rd, |stream| + |last|) == stream + last == first + flat
    ensures Slice(ring, rd, n) == (stream + last)[..n] == (first + flat)[..n]
  {
    SlicePrefix(ring, rd, n, |stream| + |last|);
  }

  /** A byte that was copied is one that was stored before the last copy. */
  lemma HoldsConsumed(copy: seq<u8>, rd: Offset, pending: nat, stores: seq<seq<u8>>, stream: seq<u8>,
                      consumed: seq<u8>, n: nat)
    requires |stores| == 41 && |copy| == COPIED && Holds(copy, rd, pending, stores, stream)
    requires |stream| == pending + |Flat(stores[..40])| && |consumed| == n
    requires forall k :: 0 <= k < |stream| && k < n ==> consumed[k] == stream[k]
    ensures forall k: nat :: k < n && Copied(rd, pending, stores, k) ==> copy[(rd + k) % SIZE] == consumed[k]
  {
    forall k: nat | k < n && Copied(rd, pending, stores, k)
      ensures copy[(rd + k) % SIZE] == consumed[k]
    {
      FlatGrows(stores, (rd + k) % SIZE + 1, 40);
    }
  }

  function Nothing(): seq<seq<u8>> {
    seq(40, _ => [])
  }

  lemma {:induction false} FlatNothing(parts: seq<seq<u8>>)
    requires forall i :: 0 <= i < |parts| ==> parts[i] == []
    ensures Flat(parts) == []
  {
    if parts != [] {
      FlatNothing(parts[..|parts| - 1]);
    }
  }

  /** A losing interleaving: an empty ring, and a byte published right after the copy. It is consumed unread. */
  method ByteLost() returns (copy: seq<u8>, rd: Offset, ghost consumed: seq<u8>)
    ensures consumed == [7] && rd == 1 && !AllCopied(0, 0, Nothing() + [[7]], 1)
  {
    var ring := new u8[1024](_ => 0);
    var stores := Nothing() + [[7]];
    FlatNothing(stores[..40]);
    FlatNext(stores, 40);
    assert stores[..41] == stores && Flat(stores) == [7];
    copy, rd, consumed := ScriptPass(ring, 0, 0, stores, 1);
    FlatNothing(stores[..1]);
    assert !Copied(0, 0, stores, 0);
  }
}
