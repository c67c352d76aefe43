/**
  The RTT up channel: a 1024-byte ring with one writer, which drops a message whole when there is no
  room, and a host that reads over the debug probe at any time. Every load and store of the writer may
  find the host at any point of its own sequence: observe WrOff, read the bytes, write RdOff.
 */
module Rtt {
  import opened Words
  import opened Numerals

  const SIZE: nat := 1024

  type Offset = n: nat | n < 1024

  /** Bytes from `from` up to `to`, going round. */
  function Distance(from: Offset, to: Offset): Offset {
    (to - from) % SIZE
  }

  /** The `n` bytes from `from`, going round. */
  function Slice(buf: seq<u8>, from: Offset, n: nat): (bytes: seq<u8>)
    requires |buf| == SIZE
  {
    seq(n, k requires 0 <= k < n => buf[(from + k) % SIZE])
  }

  /** `_room`, in UInt32 arithmetic. */
  function Room(rd: u32, wr: u32): u32 {
    if rd > wr then Sub32(Sub32(rd, wr), 1) else Trunc(Sub32(SIZE - 1, wr) + rd)
  }

  /** The ring always keeps one byte free. */
  lemma RoomIsFree(rd: Offset, wr: Offset)
    ensures Room(rd, wr) == SIZE - 1 - Distance(rd, wr)
  {
    DistanceIs(rd, wr);
    if rd > wr {
      SmallMod(rd - wr, W32);
      SmallMod(rd - wr - 1, W32);
    } else {
      SmallMod(SIZE - 1 - wr, W32);
      SmallMod(SIZE - 1 - wr + rd, W32);
    }
  }

  lemma DistanceIs(from: Offset, to: Offset)
    ensures Distance(from, to) == if from > to then to - from + SIZE else to - from
  {
    if from > to {
      DivMod(to - from, SIZE, -1, to - from + SIZE);
    } else {
      SmallMod(to - from, SIZE);
    }
  }

  lemma Ahead(from: Offset, n: nat)
    requires n < SIZE
    ensures Distance(from, (from + n) % SIZE) == n
  {}

  lemma Reaches(from: Offset, to: Offset)
    ensures (from + Distance(from, to)) % SIZE == to
  {}

  lemma DistanceSplit(from: Offset, mid: Offset, to: Offset)
    requires Distance(from, mid) <= Distance(from, to)
    ensures Distance(mid, to) == Distance(from, to) - Distance(from, mid)
  {}

  lemma Onward(from: Offset, m: nat, n: nat)
    ensures ((from + m) % SIZE + n) % SIZE == (from + m + n) % SIZE
  {}

  lemma SliceSplit(buf: seq<u8>, from: Offset, m: nat, n: nat)
    requires |buf| == SIZE
    ensures Slice(buf, from, m + n) == Slice(buf, from, m) + Slice(buf, (from + m) % SIZE, n)
  {
    var back := Slice(buf, (from + m) % SIZE, n);
    forall k | 0 <= k < n
      ensures back[k] == Slice(buf, from, m + n)[m + k]
    {
      Onward(from, m, k);
    }
  }

  /** A store at the end of a slice extends it and leaves the rest of it alone. */
  lemma StoreAhead(buf: seq<u8>, from: Offset, n: nat, byte: u8)
    requires |buf| == SIZE && n < SIZE
    ensures Slice(buf[(from + n) % SIZE := byte], from, n + 1) == Slice(buf, from, n) + [byte]
  {
    var after := Slice(buf[(from + n) % SIZE := byte], from, n + 1);
    forall k | 0 <= k < n
      ensures after[k] == Slice(buf, from, n)[k]
    {
      Ahead(from, k);
      Ahead(from, n);
    }
  }

  lemma SlicePrefix(buf: seq<u8>, from: Offset, m: nat, n: nat)
    requires |buf| == SIZE && m <= n
    ensures Slice(buf, from, m) == Slice(buf, from, n)[..m]
  {}

  /** Where the host is: `got` are the bytes it has read of those below the observed WrOff. */
  datatype Host = Idle | Reading(upTo: Offset, pos: Offset, got: seq<u8>)

  /** What the host holds is a prefix of the pending bytes. */
  predicate HostOk(buf: seq<u8>, rd: Offset, wr: Offset, h: Host)
    requires |buf| == SIZE
  {
    h.Reading? ==>
      && Distance(rd, h.pos) == |h.got|
      && |h.got| <= Distance(rd, h.upTo) <= Distance(rd, wr)
      && h.got == Slice(buf, rd, |h.got|)
  }

  lemma ReadOn(buf: seq<u8>, rd: Offset, wr: Offset, h: Host)
    requires |buf| == SIZE && HostOk(buf, rd, wr, h) && h.Reading? && h.pos != h.upTo
    ensures HostOk(buf, rd, wr, h.(pos := (h.pos + 1) % SIZE, got := h.got + [buf[h.pos]]))
  {
    var n := |h.got|;
    Reaches(rd, h.pos);
    Reaches(rd, h.upTo);
    Onward(rd, n, 1);
    Ahead(rd, n + 1);
    SliceSplit(buf, rd, n, 1);
  }

  lemma ReadDone(buf: seq<u8>, rd: Offset, wr: Offset, h: Host)
    requires |buf| == SIZE && HostOk(buf, rd, wr, h) && h.Reading? && h.pos == h.upTo
    ensures Distance(h.upTo, wr) == Distance(rd, wr) - |h.got|
    ensures Slice(buf, rd, Distance(rd, wr)) == h.got + Slice(buf, h.upTo, Distance(h.upTo, wr))
  {
    DistanceSplit(rd, h.upTo, wr);
    Reaches(rd, h.upTo);
    SliceSplit(buf, rd, |h.got|, Distance(h.upTo, wr));
  }

  /** `part` of a message of `total` bytes is stored past WrOff, there is room for all of it, and `wr` comes next. */
  predicate Staged(buf: seq<u8>, rd: Offset, wrOff: Offset, wr: Offset, part: seq<u8>, total: nat)
    requires |buf| == SIZE
  {
    && wr == (wrOff + |part|) % SIZE && |part| <= total && Distance(rd, wrOff) + total < SIZE
    && Slice(buf, wrOff, |part|) == part
  }

  lemma PutOn(buf: seq<u8>, rd: Offset, wrOff: Offset, wr: Offset, part: seq<u8>, total: nat, byte: u8, h: Host)
    requires |buf| == SIZE && Staged(buf, rd, wrOff, wr, part, total) && |part| < total
    requires HostOk(buf, rd, wrOff, h)
    ensures var after := buf[wr := byte];
            && Staged(after, rd, wrOff, (wr + 1) % SIZE, part + [byte], total)
            && Slice(after, rd, Distance(rd, wrOff)) == Slice(buf, rd, Distance(rd, wrOff))
            && HostOk(after, rd, wrOff, h)
  {
    var d, n := Distance(rd, wrOff), |part|;
    var after := buf[wr := byte];
    Onward(wrOff, n, 1);
    StoreAhead(buf, wrOff, n, byte);
    Reaches(rd, wrOff);
    Onward(rd, d, n);
    StoreAhead(buf, rd, d + n, byte);
    SlicePrefix(after, rd, d, d + n + 1);
    SlicePrefix(buf, rd, d, d + n);
    if h.Reading? {
      SlicePrefix(after, rd, |h.got|, d);
      SlicePrefix(buf, rd, |h.got|, d);
    }
  }

  lemma PublishOn(buf: seq<u8>, rd: Offset, wrOff: Offset, wr: Offset, part: seq<u8>, h: Host)
    requires |buf| == SIZE && Staged(buf, rd, wrOff, wr, part, |part|) && HostOk(buf, rd, wrOff, h)
    ensures Distance(rd, wr) == Distance(rd, wrOff) + |part|
    ensures Slice(buf, rd, Distance(rd, wr)) == Slice(buf, rd, Distance(rd, wrOff)) + part
    ensures HostOk(buf, rd, wr, h)
  {
    var d := Distance(rd, wrOff);
    Reaches(rd, wrOff);
    Onward(rd, d, |part|);
    Ahead(rd, d + |part|);
    SliceSplit(buf, rd, d, |part|);
  }

  /** The digit the loop of `write_hex` stores for `i`. */
  method Nibble(v: u32, i: nat) returns (digit: u8)
    requires i < 8
    ensures |HexText(v)| == 10 && digit == HexText(v)[2 + i]
  {
    NibbleAt(v, 8, i);
    var nib := Shr(v, (7 - i) * 4) % 16;
    digit := if nib < 10 then 48 + nib else 87 + nib;
  }

  class Channel {
    const buf: array<u8>
    var wrOff: Offset
    var rdOff: Offset
    var host: Host

    /** The concatenation of the accepted messages, and the bytes that the host has consumed. */
    ghost var accepted: seq<u8>
    ghost var consumed: seq<u8>

    ghost function Pending(): seq<u8>
      requires buf.Length == SIZE
      reads this, buf
    {
      Slice(buf[..], rdOff, Distance(rdOff, wrOff))
    }

    /** Nothing is lost, nothing is made up, and what the host holds so far is genuine. */
    ghost predicate Valid()
      reads this, buf
    {
      && buf.Length == SIZE
      && accepted == consumed + Pending()
      && HostOk(buf[..], rdOff, wrOff, host)
    }

    /** `init`: an empty ring. */
    constructor ()
      ensures Valid() && fresh(buf) && accepted == [] && consumed == [] && host == Idle
    {
      buf := new u8[1024](_ => 0);
      wrOff, rdOff := 0, 0;
      host := Idle;
      accepted, consumed := [], [];
    }

    // --- the host ------------------------------------------------------------------------------

    method HostObserves()
      requires Valid() && host == Idle
      modifies this`host
      ensures Valid() && host == Reading(wrOff, rdOff, [])
    {
      host := Reading(wrOff, rdOff, []);
    }

    method HostReads()
      requires Valid() && host.Reading? && host.pos != host.upTo
      modifies this`host
      ensures Valid() && host.Reading? && host.upTo == old(host).upTo && |host.got| == |old(host).got| + 1
    {
      ReadOn(buf[..], rdOff, wrOff, host);
      host := host.(pos := (host.pos + 1) % SIZE, got := host.got + [buf[host.pos]]);
    }

    method HostPublishes()
      requires Valid() && host.Reading? && host.pos == host.upTo
      modifies this`host, this`rdOff, this`consumed
      ensures Valid() && host == Idle && rdOff == old(host).upTo && consumed == old(consumed) + old(host).got
      ensures Distance(rdOff, wrOff) == old(Distance(rdOff, wrOff)) - |old(host).got|
    {
      ReadDone(buf[..], rdOff, wrOff, host);
      consumed := consumed + host.got;
      rdOff := host.upTo;
      host := Idle;
    }

    /** What the writer can rely on while the host does what it likes. */
    twostate predicate HostOnly()
      reads this, buf
    {
      Valid() && buf.Length == SIZE && Distance(rdOff, wrOff) <= old(Distance(rdOff, wrOff)) && old(consumed) <= consumed
    }

    /** Any number of host steps. */
    method HostRuns()
      requires Valid()
      modifies this`host, this`rdOff, this`consumed
      ensures HostOnly()
    {
      var steps: nat := *;
      while steps > 0
        invariant HostOnly()
      {
        if host == Idle {
          HostObserves();
        } else if host.pos != host.upTo {
          HostReads();
        } else {
          HostPublishes();
        }
        steps := steps - 1;
      }
    }

    // --- the writer ----------------------------------------------------------------------------

    /** The part of a message that is stored but not published. */
    ghost predicate StagedHere(wr: Offset, part: seq<u8>, total: nat)
      requires buf.Length == SIZE
      reads this, buf
    {
      Staged(buf[..], rdOff, wrOff, wr, part, total)
    }

    /** Load WrOff and RdOff, at different times, and see whether `n` bytes fit. */
    method Reserve(n: u32) returns (wr: Offset, fits: bool)
      requires Valid()
      modifies this`host, this`rdOff, this`consumed
      ensures HostOnly() && wr == wrOff
      ensures fits ==> StagedHere(wr, [], n)
      ensures !fits ==> n + |old(Pending())| > SIZE - 1
    {
      HostRuns();
      wr := wrOff;
      HostRuns();
      RoomIsFree(rdOff, wr);
      fits := n <= Room(rdOff, wr);
    }

    /** `_put`: store one byte, and give the next position. */
    method Put(wr: Offset, byte: u8, ghost part: seq<u8>, ghost total: nat) returns (next: Offset)
      requires Valid() && StagedHere(wr, part, total) && |part| < total
      modifies this`host, this`rdOff, this`consumed, buf
      ensures HostOnly() && StagedHere(next, part + [byte], total)
    {
      HostRuns();
      PutOn(buf[..], rdOff, wrOff, wr, part, total, byte, host);
      ghost var after := buf[..][wr := byte];
      buf[wr] := byte;
      assert buf[..] == after;
      next := if wr + 1 == SIZE then 0 else wr + 1;
    }

    /** Store WrOff: the message becomes visible to the host in one step. */
    method Publish(wr: Offset, ghost part: seq<u8>)
      requires Valid() && StagedHere(wr, part, |part|)
      modifies this`host, this`rdOff, this`consumed, this`wrOff, this`accepted
      ensures Valid() && accepted == old(accepted) + part && old(consumed) <= consumed
    {
      HostRuns();
      PublishOn(buf[..], rdOff, wrOff, wr, part, host);
      wrOff := wr;
      accepted := accepted + part;
    }

    /** `write`: the message is accepted whole, or not at all when it did not fit. */
    method Write(bytes: seq<u8>) returns (ghost taken: bool)
      requires Valid() && |bytes| < W32
      modifies this`host, this`rdOff, this`consumed, this`wrOff, this`accepted, buf
      ensures Valid() && old(consumed) <= consumed
      ensures accepted == old(accepted) + if taken then bytes else []
      ensures !taken ==> |bytes| + |old(Pending())| > SIZE - 1
    {
      var wr, fits := Reserve(|bytes|);
      taken := fits;
      if !fits {
        return;
      }
      for i := 0 to |bytes|
        invariant HostOnly() && accepted == old(accepted) && wrOff == old(wrOff)
        invariant StagedHere(wr, bytes[..i], |bytes|)
      {
        assert bytes[..i + 1] == bytes[..i] + [bytes[i]];
        wr := Put(wr, bytes[i], bytes[..i], |bytes|);
      }
      Publish(wr, bytes);
    }

    /** `write_u32`: the decimal form of `v`, built backwards in a scratch array. */
    method WriteU32(v: u32) returns (ghost taken: bool)
      requires Valid()
      modifies this`host, this`rdOff, this`consumed, this`wrOff, this`accepted, buf
      ensures Valid() && old(consumed) <= consumed
      ensures accepted == old(accepted) + if taken then Decimal(v) else []
      ensures !taken ==> |Decimal(v)| + |old(Pending())| > SIZE - 1
    {
      ghost var text := Decimal(v);
      var digits, count := DecimalDigits(v);
      ghost var all := digits[..];
      var wr, fits := Reserve(count);
      taken := fits;
      if !fits {
        return;
      }
      for i := 0 to count
        invariant HostOnly() && accepted == old(accepted) && wrOff == old(wrOff)
        invariant StagedHere(wr, text[..i], count) && digits[..] == all
      {
        assert digits[count - 1 - i] == all[count - 1 - i] == text[i];
        assert text[..i + 1] == text[..i] + [text[i]];
        wr := Put(wr, digits[count - 1 - i], text[..i], count);
      }
      assert text[..count] == text;
      Publish(wr, text);
    }

    /** `write_hex`: "0x" and the eight nibbles of `v`, most significant first. */
    method WriteHex(v: u32) returns (ghost taken: bool)
      requires Valid()
      modifies this`host, this`rdOff, this`consumed, this`wrOff, this`accepted, buf
      ensures Valid() && old(consumed) <= consumed
      ensures accepted == old(accepted) + if taken then HexText(v) else []
      ensures !taken ==> 10 + |old(Pending())| > SIZE - 1
    {
      var wr, fits := Reserve(10);
      taken := fits;
      if fits {
        wr := PutHex(wr, v);
        Publish(wr, HexText(v));
      }
    }

    /** The ten stores of `write_hex`. */
    method PutHex(wr: Offset, v: u32) returns (next: Offset)
      requires Valid() && StagedHere(wr, [], 10)
      modifies this`host, this`rdOff, this`consumed, buf
      ensures HostOnly() && StagedHere(next, HexText(v), 10) && |HexText(v)| == 10
    {
      ghost var text := HexText(v);
      next := Put(wr, 48, [], 10);
      next := Put(next, 120, [48], 10);
      assert text[..2] == [48, 120];
      for i := 0 to 8
        invariant HostOnly() && StagedHere(next, text[..2 + i], 10)
      {
        var digit := Nibble(v, i);
        assert text[..2 + (i + 1)] == text[..2 + i] + [digit];
        next := Put(next, digit, text[..2 + i], 10);
      }
      assert text[..10] == text;
    }

    /** The host's whole pass, with the writer quiet: it reads back all that is pending. */
    method HostDrains() returns (read: seq<u8>)
      requires Valid() && host == Idle
      modifies this`host, this`rdOff, this`consumed
      ensures Valid() && host == Idle && rdOff == wrOff
      ensures read == old(Pending()) && consumed == accepted
    {
      HostObserves();
      while host.pos != host.upTo
        invariant Valid() && host.Reading? && host.upTo == wrOff
        invariant rdOff == old(rdOff) && consumed == old(consumed)
        decreases SIZE - |host.got|
      {
        HostReads();
      }
      read := host.got;
      ReadDone(buf[..], rdOff, wrOff, host);
      HostPublishes();
      assert Pending() == [];
    }
  }

  /** A hex number that was accepted last and not consumed is what the host parses from the end of the ring. */
  lemma HexReadsBack(ch: Channel, before: seq<u8>, v: u32)
    requires ch.Valid() && ch.accepted == before + HexText(v) && |ch.Pending()| >= 10
    ensures var pending := ch.Pending(); HexValue(Body(pending[|pending| - 10..])) == Some(v)
  {
    var pending := ch.Pending();
    assert pending[|pending| - 10..] == (ch.consumed + pending)[|ch.accepted| - 10..] == HexText(v);
    HexRoundTrip(v);
  }

  /** The first loop of `write_u32`: the digits from the last to the first, in an array of ten. */
  method DecimalDigits(v: u32) returns (digits: array<u8>, count: nat)
    ensures fresh(digits) && digits.Length == 10 && count == |Decimal(v)| <= 10
    ensures forall j :: 0 <= j < count ==> digits[count - 1 - j] == Decimal(v)[j]
  {
    U32Length(v);
    digits := new u8[10](_ => 0);
    var n := v;
    count := 0;
    ghost var tail := [];
    while true
      invariant count == |tail| && count + |Decimal(n)| <= 10
      invariant Decimal(v) == Decimal(n) + tail
      invariant forall i :: 0 <= i < count ==> digits[i] == tail[count - 1 - i]
      decreases n, 10 - count
    {
      LastDigit(n);
      digits[count] := 48 + n % 10;
      count := count + 1;
      tail := [48 + n % 10] + tail;
      if n / 10 == 0 {
        break;
      }
      n := n / 10;
    }
  }

  lemma LastDigit(n: nat)
    ensures Decimal(n) == (if n / 10 == 0 then [] else Decimal(n / 10)) + [48 + n % 10]
  {}
}
