/**
  The memory half of the firmware checker: every allocated section inside flash or RAM, no two of them
  overlapping, and room left for the stack. The overlap check sorts three parallel lists in place.
 */
module ElfLayout {
  import opened Words

  const FLASH_ORIGIN: u32 := 0x1000_0000
  const FLASH_END: u32 := 0x1020_0000
  const RAM_ORIGIN: u32 := 0x2000_0000
  const RAM_END: u32 := 0x2004_0000
  const STACK_MARGIN: u32 := 4096

  datatype Sect = Sect(name: string, shType: u32, flags: u32, addr: u32, offset: u32, size: u32) {
    /** `(flags & SHF_ALLOC) != 0` and not empty. */
    predicate Placed() { flags / 2 % 2 == 1 && size != 0 }
  }

  datatype Failure =
    | Boot2Address(addr: u32) | Boot2Size(size: u32) | Boot2Checksum(want: bv32, got: bv32)
    | VectorsAddress(addr: u32) | BadStack(sp: bv32) | NoThumbBit(reset: bv32) | ResetOutside(reset: bv32)
    | MissingBoot2 | MissingVectors
    | OverflowsFlash(name: string) | OverflowsRam(name: string) | Outside(name: string, lo: u32)
    | Overlap(first: string, second: string) | NoStackRoom(ram: u32)

  /** One entry of the three parallel lists. */
  datatype Span = Span(lo: int, hi: int, name: string)

  /** The addresses each placed section really takes up, in file order. */
  function Spans(sects: seq<Sect>): seq<Span> {
    if sects == [] then []
    else
      var last := sects[|sects| - 1];
      Spans(sects[..|sects| - 1]) + if last.Placed() then [Span(last.addr, last.addr + last.size, last.name)] else []
  }

  /** What the checker puts in its lists: the same, with the ends in UInt32. */
  function Listed(spans: seq<Span>): (r: seq<Span>)
    ensures |r| == |spans|
  {
    seq(|spans|, i requires 0 <= i < |spans| => Span(spans[i].lo, Trunc(spans[i].hi), spans[i].name))
  }

  /** No placed section reaches the top of the address space. */
  predicate NoWrap(spans: seq<Span>) {
    forall s :: s in spans ==> s.hi < W32
  }

  predicate Within(s: Span, origin: u32, end: u32) {
    origin <= s.lo < end && s.hi <= end
  }

  predicate InRegion(s: Span) {
    Within(s, FLASH_ORIGIN, FLASH_END) || Within(s, RAM_ORIGIN, RAM_END)
  }

  predicate Meet(s: Span, t: Span) {
    s.lo < t.hi && t.lo < s.hi
  }

  predicate Disjoint(spans: seq<Span>) {
    forall i, j :: 0 <= i < j < |spans| ==> !Meet(spans[i], spans[j])
  }

  /** Bytes of the spans that start in a region. */
  function Used(spans: seq<Span>, origin: u32, end: u32): int {
    if spans == [] then 0
    else
      var last := spans[|spans| - 1];
      Used(spans[..|spans| - 1], origin, end) + if origin <= last.lo < end then last.hi - last.lo else 0
  }

  predicate Fits(spans: seq<Span>) {
    forall s :: s in spans ==> InRegion(s)
  }

  /** The layout the checker is there to guarantee. */
  predicate GoodLayout(spans: seq<Span>) {
    && Fits(spans)
    && Disjoint(spans)
    && Used(spans, RAM_ORIGIN, RAM_END) <= RAM_END - RAM_ORIGIN - STACK_MARGIN
  }

  predicate Proper(spans: seq<Span>) {
    forall s :: s in spans ==> s.lo < s.hi
  }

  // --- the layout in terms of the sections ----------------------------------------------------------

  /** Inside the 2 MB of flash or the 256 KB of RAM. */
  predicate Inside(s: Sect) {
    || (0x1000_0000 <= s.addr && s.addr + s.size <= 0x1020_0000)
    || (0x2000_0000 <= s.addr && s.addr + s.size <= 0x2004_0000)
  }

  /** One ends before the other begins. */
  predicate Clear(s: Sect, t: Sect) {
    s.addr + s.size <= t.addr || t.addr + t.size <= s.addr
  }

  /** Bytes of the allocated sections that start in [origin, end). */
  function Bytes(sects: seq<Sect>, origin: int, end: int): int {
    if sects == [] then 0
    else
      var last := sects[|sects| - 1];
      Bytes(sects[..|sects| - 1], origin, end)
      + if last.flags / 2 % 2 == 1 && origin <= last.addr < end then last.size else 0
  }

  predicate AllInside(sects: seq<Sect>) {
    forall i :: 0 <= i < |sects| && sects[i].flags / 2 % 2 == 1 && sects[i].size > 0 ==> Inside(sects[i])
  }

  predicate Apart(sects: seq<Sect>) {
    forall i, j :: 0 <= i < j < |sects| ==>
      (sects[i].flags / 2 % 2 == 1 && sects[i].size > 0 && sects[j].flags / 2 % 2 == 1 && sects[j].size > 0 ==>
         Clear(sects[i], sects[j]))
  }

  predicate Unwrapped(sects: seq<Sect>) {
    forall i :: 0 <= i < |sects| && sects[i].flags / 2 % 2 == 1 && sects[i].size > 0
                ==> sects[i].addr + sects[i].size < 0x1_0000_0000
  }

  /** Allocated sections lie in flash or RAM, none meets another, and 4096 bytes are left for the stack. */
  predicate SafeLayout(sects: seq<Sect>) {
    AllInside(sects) && Apart(sects) && Bytes(sects, 0x2000_0000, 0x2004_0000) <= 262144 - 4096
  }

  /** The complaint a section calls for by itself. */
  predicate CallsFor(s: Sect, f: Failure) {
    match f
    case OverflowsFlash(name) => name == s.name && 0x1000_0000 <= s.addr < 0x1020_0000 < s.addr + s.size
    case OverflowsRam(name) => name == s.name && 0x2000_0000 <= s.addr < 0x2004_0000 < s.addr + s.size
    case Outside(name, addr) =>
      && name == s.name && addr == s.addr
      && (addr < 0x1000_0000 || 0x1020_0000 <= addr < 0x2000_0000 || 0x2004_0000 <= addr)
    case _ => false
  }

  /** `fails` complains about the sections that lie wrong, each as it calls for, and about the stack. */
  ghost predicate Complete(sects: seq<Sect>, ram: u32, fails: seq<Failure>) {
    && (forall f: Failure :: f.OverflowsFlash? || f.OverflowsRam? || f.Outside? ==>
          (f in fails <==> exists i :: 0 <= i < |sects| && sects[i].flags / 2 % 2 == 1 && sects[i].size > 0
                                       && CallsFor(sects[i], f)))
    && (forall f: Failure :: f.NoStackRoom? ==> (f in fails <==> f.ram == ram && ram > 262144 - 4096))
  }

  function SpanOf(s: Sect): Span {
    Span(s.addr, s.addr + s.size, s.name)
  }

  /** The spans are those of the allocated sections that are not empty. */
  lemma {:induction false} SpanFrom(sects: seq<Sect>, i: nat)
    requires i < |sects| && sects[i].flags / 2 % 2 == 1 && sects[i].size > 0
    ensures SpanOf(sects[i]) in Spans(sects)
  {
    if i < |sects| - 1 {
      SpanFrom(sects[..|sects| - 1], i);
    }
  }

  lemma {:induction false} SectFor(sects: seq<Sect>, t: Span) returns (i: nat)
    requires t in Spans(sects)
    ensures i < |sects| && sects[i].flags / 2 % 2 == 1 && sects[i].size > 0 && SpanOf(sects[i]) == t
  {
    if t in Spans(sects[..|sects| - 1]) {
      i := SectFor(sects[..|sects| - 1], t);
    } else {
      i := |sects| - 1;
    }
  }

  lemma SameFit(s: Sect)
    requires s.size > 0
    ensures Inside(s) <==> InRegion(SpanOf(s))
  {}

  lemma SameClear(s: Sect, t: Sect)
    ensures Clear(s, t) <==> !Meet(SpanOf(s), SpanOf(t))
  {}

  lemma InsideIsFits(sects: seq<Sect>)
    ensures AllInside(sects) <==> Fits(Spans(sects))
  {
    if AllInside(sects) {
      forall t | t in Spans(sects)
        ensures InRegion(t)
      {
        var i := SectFor(sects, t);
        SameFit(sects[i]);
      }
    }
    if Fits(Spans(sects)) {
      forall i | 0 <= i < |sects| && sects[i].flags / 2 % 2 == 1 && sects[i].size > 0
        ensures Inside(sects[i])
      {
        SpanFrom(sects, i);
        SameFit(sects[i]);
      }
    }
  }

  lemma UnwrappedIsNoWrap(sects: seq<Sect>)
    ensures Unwrapped(sects) <==> NoWrap(Spans(sects))
  {
    if Unwrapped(sects) {
      forall t | t in Spans(sects)
        ensures t.hi < W32
      {
        var i := SectFor(sects, t);
      }
    }
    if NoWrap(Spans(sects)) {
      forall i | 0 <= i < |sects| && sects[i].flags / 2 % 2 == 1 && sects[i].size > 0
        ensures sects[i].addr + sects[i].size < 0x1_0000_0000
      {
        SpanFrom(sects, i);
      }
    }
  }

  lemma {:induction false} BytesIsUsed(sects: seq<Sect>, origin: u32, end: u32)
    ensures Bytes(sects, origin, end) == Used(Spans(sects), origin, end)
  {
    if sects != [] {
      var init, last := sects[..|sects| - 1], sects[|sects| - 1];
      BytesIsUsed(init, origin, end);
      if last.Placed() {
        UsedStep(Spans(init), SpanOf(last), origin, end);
      } else {
        assert Spans(sects) == Spans(init);
      }
    }
  }

  /** A section meets no span of the others exactly when it is clear of the allocated ones. */
  lemma ClearOfAll(sects: seq<Sect>, last: Sect)
    ensures (forall i :: 0 <= i < |sects| && sects[i].flags / 2 % 2 == 1 && sects[i].size > 0 ==> Clear(sects[i], last))
            <==> (forall k :: 0 <= k < |Spans(sects)| ==> !Meet(Spans(sects)[k], SpanOf(last)))
  {
    if forall i :: 0 <= i < |sects| && sects[i].flags / 2 % 2 == 1 && sects[i].size > 0 ==> Clear(sects[i], last) {
      forall k | 0 <= k < |Spans(sects)|
        ensures !Meet(Spans(sects)[k], SpanOf(last))
      {
        var i := SectFor(sects, Spans(sects)[k]);
        assert Clear(sects[i], last);
        SameClear(sects[i], last);
      }
    }
    if forall k :: 0 <= k < |Spans(sects)| ==> !Meet(Spans(sects)[k], SpanOf(last)) {
      forall i | 0 <= i < |sects| && sects[i].flags / 2 % 2 == 1 && sects[i].size > 0
        ensures Clear(sects[i], last)
      {
        SpanFrom(sects, i);
        var k :| 0 <= k < |Spans(sects)| && Spans(sects)[k] == SpanOf(sects[i]);
        SameClear(sects[i], last);
      }
    }
  }

  lemma DisjointStep(spans: seq<Span>, t: Span)
    ensures Disjoint(spans + [t]) <==> Disjoint(spans) && forall k :: 0 <= k < |spans| ==> !Meet(spans[k], t)
  {
    var all := spans + [t];
    assert forall k :: 0 <= k < |spans| ==> all[k] == spans[k];
    if Disjoint(all) {
      forall k | 0 <= k < |spans|
        ensures !Meet(spans[k], t)
      {
        assert !Meet(all[k], all[|spans|]);
      }
      forall i, j | 0 <= i < j < |spans|
        ensures !Meet(spans[i], spans[j])
      {
        assert !Meet(all[i], all[j]);
      }
    }
  }

  lemma ApartStep(sects: seq<Sect>)
    requires sects != []
    ensures var init, last := sects[..|sects| - 1], sects[|sects| - 1];
            Apart(sects) <==> Apart(init) && (last.flags / 2 % 2 == 1 && last.size > 0 ==>
              forall i :: 0 <= i < |init| && init[i].flags / 2 % 2 == 1 && init[i].size > 0 ==> Clear(init[i], last))
  {}

  lemma {:induction false} ApartIsDisjoint(sects: seq<Sect>)
    ensures Apart(sects) <==> Disjoint(Spans(sects))
  {
    if sects != [] {
      var init, last := sects[..|sects| - 1], sects[|sects| - 1];
      ApartIsDisjoint(init);
      ApartStep(sects);
      if last.Placed() {
        ClearOfAll(init, last);
        DisjointStep(Spans(init), SpanOf(last));
      } else {
        assert Spans(sects) == Spans(init);
      }
    }
  }

  lemma SafeIsGood(sects: seq<Sect>)
    ensures SafeLayout(sects) <==> GoodLayout(Spans(sects))
  {
    InsideIsFits(sects);
    ApartIsDisjoint(sects);
    BytesIsUsed(sects, RAM_ORIGIN, RAM_END);
  }

  // --- sorting the three lists together -------------------------------------------------------------

  function Zip(lo: seq<u32>, hi: seq<u32>, name: seq<string>): (z: seq<Span>)
    requires |lo| == |hi| == |name|
    ensures |z| == |lo|
  {
    seq(|lo|, i requires 0 <= i < |lo| => Span(lo[i], hi[i], name[i]))
  }

  function Swap<T>(s: seq<T>, j: nat): (t: seq<T>)
    requires 1 <= j < |s|
    ensures |t| == |s|
  {
    s[j - 1 := s[j]][j := s[j - 1]]
  }

  lemma SwapParts<T>(s: seq<T>, j: nat)
    requires 1 <= j < |s|
    ensures s == s[..j - 1] + [s[j - 1], s[j]] + s[j + 1..]
    ensures Swap(s, j) == s[..j - 1] + [s[j], s[j - 1]] + s[j + 1..]
  {}

  lemma SwapKeepsMultiset<T>(s: seq<T>, j: nat)
    requires 1 <= j < |s|
    ensures multiset(Swap(s, j)) == multiset(s)
  {
    SwapParts(s, j);
    var a, b := s[..j - 1], s[j + 1..];
    assert multiset(s) == multiset(a) + multiset([s[j - 1], s[j]]) + multiset(b);
    assert multiset(Swap(s, j)) == multiset(a) + multiset([s[j], s[j - 1]]) + multiset(b);
  }

  lemma SwapKeepsDisjoint(s: seq<Span>, j: nat)
    requires 1 <= j < |s|
    ensures Disjoint(Swap(s, j)) == Disjoint(s)
  {
    var t := Swap(s, j);
    if Disjoint(s) {
      forall a, b | 0 <= a < b < |t|
        ensures !Meet(t[a], t[b])
      {
        var c, d := Swapped(a, j), Swapped(b, j);
        assert t[a] == s[c] && t[b] == s[d];
        assert if c < d then !Meet(s[c], s[d]) else !Meet(s[d], s[c]);
      }
    } else {
      var a, b :| 0 <= a < b < |s| && Meet(s[a], s[b]);
      var c, d := Swapped(a, j), Swapped(b, j);
      assert s[a] == t[c] && s[b] == t[d];
      assert if c < d then Meet(t[c], t[d]) else Meet(t[d], t[c]);
    }
  }

  function Swapped(k: int, j: int): int {
    if k == j then j - 1 else if k == j - 1 then j else k
  }

  lemma {:induction false} UsedAppend(a: seq<Span>, b: seq<Span>, origin: u32, end: u32)
    ensures Used(a + b, origin, end) == Used(a, origin, end) + Used(b, origin, end)
  {
    if b == [] {
      assert a + b == a;
    } else {
      UsedAppend(a, b[..|b| - 1], origin, end);
      assert (a + b)[..|a + b| - 1] == a + b[..|b| - 1];
    }
  }

  lemma SwapKeepsUsed(s: seq<Span>, j: nat, origin: u32, end: u32)
    requires 1 <= j < |s|
    ensures Used(Swap(s, j), origin, end) == Used(s, origin, end)
  {
    SwapParts(s, j);
    var a, x, y, b := s[..j - 1], s[j - 1], s[j], s[j + 1..];
    UsedAppend(a + [x, y], b, origin, end);
    UsedAppend(a + [y, x], b, origin, end);
    UsedAppend(a, [x, y], origin, end);
    UsedAppend(a, [y, x], origin, end);
    assert [x, y][..1] == [x] && [y, x][..1] == [y];
  }

  /** What sorting must not change. */
  ghost predicate SameSpans(s: seq<Span>, t: seq<Span>) {
    && multiset(s) == multiset(t) && Disjoint(s) == Disjoint(t)
    && Used(s, FLASH_ORIGIN, FLASH_END) == Used(t, FLASH_ORIGIN, FLASH_END)
    && Used(s, RAM_ORIGIN, RAM_END) == Used(t, RAM_ORIGIN, RAM_END)
  }

  lemma SwapKeepsSpans(s: seq<Span>, t: seq<Span>, j: nat)
    requires 1 <= j < |t| && SameSpans(s, t)
    ensures SameSpans(s, Swap(t, j))
  {
    SwapKeepsMultiset(t, j);
    SwapKeepsDisjoint(t, j);
    SwapKeepsUsed(t, j, FLASH_ORIGIN, FLASH_END);
    SwapKeepsUsed(t, j, RAM_ORIGIN, RAM_END);
  }

  predicate Sorted(lo: seq<u32>) {
    forall a, b :: 0 <= a < b < |lo| ==> lo[a] <= lo[b]
  }

  lemma ZipSwaps(lo: seq<u32>, hi: seq<u32>, name: seq<string>, j: nat)
    requires |lo| == |hi| == |name| && 1 <= j < |lo|
    ensures Zip(Swap(lo, j), Swap(hi, j), Swap(name, j)) == Swap(Zip(lo, hi, name), j)
  {}

  /** The first `i + 1` are in order, but for the entry at `j`, which belongs at `j` or before. */
  predicate SortedBut(lo: seq<u32>, i: nat, j: nat)
    requires i < |lo|
  {
    forall a, b :: 0 <= a < b <= i && b != j ==> lo[a] <= lo[b]
  }

  lemma SwapsDown(lo: seq<u32>, i: nat, j: nat)
    requires 1 <= j <= i < |lo| && SortedBut(lo, i, j) && lo[j - 1] > lo[j]
    ensures SortedBut(Swap(lo, j), i, j - 1)
  {}

  lemma InPlace(lo: seq<u32>, i: nat, j: nat)
    requires j <= i < |lo| && SortedBut(lo, i, j)
    requires j > 0 ==> lo[j - 1] <= lo[j]
    ensures Sorted(lo[..i + 1])
  {
    forall a, b | 0 <= a < b <= i
      ensures lo[a] <= lo[b]
    {
      if b == j && a < j - 1 {
        assert lo[a] <= lo[j - 1];
      }
    }
  }

  /** One round: entry `i` moves down to its place, in all three lists. */
  method Insert(lo0: seq<u32>, hi0: seq<u32>, name0: seq<string>, i: nat, ghost spans: seq<Span>)
    returns (lo: seq<u32>, hi: seq<u32>, name: seq<string>)
    requires |lo0| == |hi0| == |name0| && 1 <= i < |lo0| && Sorted(lo0[..i])
    requires SameSpans(spans, Zip(lo0, hi0, name0))
    ensures |lo| == |hi| == |name| == |lo0| && Sorted(lo[..i + 1])
    ensures SameSpans(spans, Zip(lo, hi, name))
  {
    lo, hi, name := lo0, hi0, name0;
    var j := i;
    assert SortedBut(lo, i, j) by {
      assert forall a :: 0 <= a < i ==> lo0[..i][a] == lo0[a];
    }
    while j > 0 && lo[j - 1] > lo[j]
      invariant 0 <= j <= i && |lo| == |hi| == |name| == |lo0|
      invariant SortedBut(lo, i, j)
      invariant SameSpans(spans, Zip(lo, hi, name))
    {
      SwapsDown(lo, i, j);
      ZipSwaps(lo, hi, name, j);
      SwapKeepsSpans(spans, Zip(lo, hi, name), j);
      lo := Swap(lo, j);
      hi := Swap(hi, j);
      name := Swap(name, j);
      j := j - 1;
    }
    InPlace(lo, i, j);
  }

  /** Insertion sort by `lo`: the three lists move together. */
  method SortSpans(lo0: seq<u32>, hi0: seq<u32>, name0: seq<string>)
    returns (lo: seq<u32>, hi: seq<u32>, name: seq<string>)
    requires |lo0| == |hi0| == |name0|
    ensures |lo| == |hi| == |name| == |lo0| && Sorted(lo)
    ensures SameSpans(Zip(lo0, hi0, name0), Zip(lo, hi, name))
  {
    lo, hi, name := lo0, hi0, name0;
    var i := 1;
    while i < |lo|
      invariant 1 <= i && |lo| == |hi| == |name| == |lo0| && Sorted(lo[..Min(i, |lo|)])
      invariant SameSpans(Zip(lo0, hi0, name0), Zip(lo, hi, name))
    {
      lo, hi, name := Insert(lo, hi, name, i, Zip(lo0, hi0, name0));
      i := i + 1;
    }
    assert lo[..|lo|] == lo;
  }

  // --- regions ------------------------------------------------------------------------------------

  /** The complaint a listed span deserves by itself. */
  predicate Complains(s: Span, f: Failure) {
    match f
    case OverflowsFlash(name) => name == s.name && FLASH_ORIGIN <= s.lo < FLASH_END < s.hi
    case OverflowsRam(name) => name == s.name && RAM_ORIGIN <= s.lo < RAM_END < s.hi
    case Outside(name, lo) =>
      name == s.name && lo == s.lo && !(FLASH_ORIGIN <= lo < FLASH_END) && !(RAM_ORIGIN <= lo < RAM_END)
    case _ => false
  }

  /** Exactly the complaints the spans deserve. */
  ghost predicate Reported(fails: seq<Failure>, spans: seq<Span>) {
    && (forall f :: f in fails ==> exists s :: s in spans && Complains(s, f))
    && (forall s, f :: s in spans && Complains(s, f) ==> f in fails)
  }

  lemma ReportedNone(s: Span)
    requires InRegion(s)
    ensures forall f :: !Complains(s, f)
  {}

  function Complaint(s: Span): (c: seq<Failure>)
    requires 0 <= s.lo < W32
    ensures forall f :: f in c <==> Complains(s, f)
    ensures c == [] <==> InRegion(s)
  {
    if FLASH_ORIGIN <= s.lo < FLASH_END then if s.hi > FLASH_END then [OverflowsFlash(s.name)] else []
    else if RAM_ORIGIN <= s.lo < RAM_END then if s.hi > RAM_END then [OverflowsRam(s.name)] else []
    else [Outside(s.name, s.lo)]
  }

  lemma ReportedStep(fails: seq<Failure>, spans: seq<Span>, s: Span)
    requires Reported(fails, spans) && 0 <= s.lo < W32
    ensures Reported(fails + Complaint(s), spans + [s])
  {
    forall f | f in fails + Complaint(s)
      ensures exists t :: t in spans + [s] && Complains(t, f)
    {
      if f in fails {
        var t :| t in spans && Complains(t, f);
        assert t in spans + [s];
      } else {
        assert s in spans + [s];
      }
    }
  }

  lemma ReportedFits(fails: seq<Failure>, spans: seq<Span>)
    requires Reported(fails, spans) && forall s :: s in spans ==> 0 <= s.lo < W32
    ensures fails == [] <==> Fits(spans)
  {
    forall s | s in spans
      ensures InRegion(s) || fails != []
    {
      if !InRegion(s) {
        assert Complains(s, Complaint(s)[0]);
      }
    }
    if fails != [] && Fits(spans) {
      assert fails[0] in fails;
      var s :| s in spans && Complains(s, fails[0]);
      ReportedNone(s);
      assert false;
    }
  }

  lemma ListedStep(spans: seq<Span>, s: Span)
    ensures Listed(spans + [s]) == Listed(spans) + [Span(s.lo, Trunc(s.hi), s.name)]
  {}

  lemma UsedStep(spans: seq<Span>, s: Span, origin: u32, end: u32)
    ensures Used(spans + [s], origin, end) == Used(spans, origin, end) + if origin <= s.lo < end then s.hi - s.lo else 0
  {
    assert (spans + [s])[..|spans|] == spans;
  }

  lemma AddWraps(a: int, b: int)
    ensures Trunc(Trunc(a) + b) == Trunc(a + b)
  {}

  lemma ListsStep(lo: seq<u32>, hi: seq<u32>, name: seq<string>, l: u32, h: u32, n: string)
    requires |lo| == |hi| == |name|
    ensures Zip(lo + [l], hi + [h], name + [n]) == Zip(lo, hi, name) + [Span(l, h, n)]
  {}

  /** What the region loop builds. */
  datatype Lists = Lists(lo: seq<u32>, hi: seq<u32>, name: seq<string>, flash: u32, ram: u32, fails: seq<Failure>)

  function Add(g: Lists, s: Span): Lists
    requires 0 <= s.lo < W32
  {
    Lists(g.lo + [s.lo], g.hi + [Trunc(s.hi)], g.name + [s.name],
      if FLASH_ORIGIN <= s.lo < FLASH_END then Trunc(g.flash + (s.hi - s.lo)) else g.flash,
      if RAM_ORIGIN <= s.lo < RAM_END then Trunc(g.ram + (s.hi - s.lo)) else g.ram,
      g.fails + Complaint(Span(s.lo, Trunc(s.hi), s.name)))
  }

  function Gather(sects: seq<Sect>): Lists {
    if sects == [] then Lists([], [], [], 0, 0, []) else After(Gather(sects[..|sects| - 1]), sects[|sects| - 1])
  }

  function After(g: Lists, s: Sect): Lists {
    if s.Placed() then Add(g, Span(s.addr, s.addr + s.size, s.name)) else g
  }

  /** The lists describe these spans. */
  ghost predicate Describes(g: Lists, spans: seq<Span>) {
    && |g.lo| == |g.hi| == |g.name| && Zip(g.lo, g.hi, g.name) == Listed(spans)
    && g.flash == Trunc(Used(spans, FLASH_ORIGIN, FLASH_END))
    && g.ram == Trunc(Used(spans, RAM_ORIGIN, RAM_END))
    && Reported(g.fails, Listed(spans))
  }

  lemma AddDescribes(g: Lists, spans: seq<Span>, s: Span)
    requires Describes(g, spans) && 0 <= s.lo < W32
    ensures Describes(Add(g, s), spans + [s])
  {
    ListsStep(g.lo, g.hi, g.name, s.lo, Trunc(s.hi), s.name);
    ListedStep(spans, s);
    UsedStep(spans, s, FLASH_ORIGIN, FLASH_END);
    UsedStep(spans, s, RAM_ORIGIN, RAM_END);
    AddWraps(Used(spans, FLASH_ORIGIN, FLASH_END), s.hi - s.lo);
    AddWraps(Used(spans, RAM_ORIGIN, RAM_END), s.hi - s.lo);
    ReportedStep(g.fails, Listed(spans), Span(s.lo, Trunc(s.hi), s.name));
  }

  lemma {:induction false} GatherDescribes(sects: seq<Sect>)
    ensures Describes(Gather(sects), Spans(sects))
  {
    if sects != [] {
      var last, init := sects[|sects| - 1], sects[..|sects| - 1];
      GatherDescribes(init);
      if last.Placed() {
        AddDescribes(Gather(init), Spans(init), Span(last.addr, last.addr + last.size, last.name));
      } else {
        assert Spans(sects) == Spans(init);
      }
    }
  }

  /** One placed section: the region tests, and the running totals. */
  method Account(s: Sect, end: u32, flash0: u32, ram0: u32) returns (flash: u32, ram: u32, complaint: seq<Failure>)
    ensures complaint == Complaint(Span(s.addr, end, s.name))
    ensures flash == if FLASH_ORIGIN <= s.addr < FLASH_END then Trunc(flash0 + s.size) else flash0
    ensures ram == if RAM_ORIGIN <= s.addr < RAM_END then Trunc(ram0 + s.size) else ram0
  {
    flash, ram, complaint := flash0, ram0, [];
    if FLASH_ORIGIN <= s.addr < FLASH_END {
      if end > FLASH_END {
        complaint := [OverflowsFlash(s.name)];
      }
      flash := Trunc(flash + s.size);
    } else if RAM_ORIGIN <= s.addr < RAM_END {
      if end > RAM_END {
        complaint := [OverflowsRam(s.name)];
      }
      ram := Trunc(ram + s.size);
    } else {
      complaint := [Outside(s.name, s.addr)];
    }
  }

  lemma GatherStep(sects: seq<Sect>, i: nat)
    requires i < |sects|
    ensures Gather(sects[..i + 1]) == After(Gather(sects[..i]), sects[i])
  {
    assert sects[..i + 1][..i] == sects[..i];
  }

  /** The body of the region loop. */
  method Record(s: Sect, g: Lists) returns (r: Lists)
    ensures r == After(g, s)
  {
    if s.flags / 2 % 2 == 0 || s.size == 0 {
      return g;
    }
    var end := Trunc(s.addr + s.size);
    var flash, ram, complaint := Account(s, end, g.flash, g.ram);
    r := Lists(g.lo + [s.addr], g.hi + [end], g.name + [s.name], flash, ram, g.fails + complaint);
  }

  /** The region loop. */
  method Regions(sects: seq<Sect>) returns (g: Lists)
    ensures g == Gather(sects)
  {
    g := Lists([], [], [], 0, 0, []);
    for i := 0 to |sects|
      invariant g == Gather(sects[..i])
    {
      g := Record(sects[i], g);
      GatherStep(sects, i);
    }
    assert sects[..|sects|] == sects;
  }

  // --- overlaps -----------------------------------------------------------------------------------

  predicate Ordered(spans: seq<Span>) {
    forall a, b :: 0 <= a < b < |spans| ==> spans[a].lo <= spans[b].lo
  }

  predicate Collides(spans: seq<Span>, i: int)
    requires 1 <= i < |spans|
  {
    spans[i - 1].hi > spans[i].lo
  }

  predicate Chained(spans: seq<Span>) {
    forall i :: 1 <= i < |spans| ==> !Collides(spans, i)
  }

  /** For sections in order, comparing neighbours finds every intersection. */
  lemma NeighboursSuffice(spans: seq<Span>)
    requires Ordered(spans) && Proper(spans)
    ensures Chained(spans) <==> Disjoint(spans)
  {
    if Chained(spans) {
      forall i, j | 0 <= i < j < |spans|
        ensures !Meet(spans[i], spans[j])
      {
        assert !Collides(spans, i + 1);
        assert spans[i + 1].lo <= spans[j].lo;
      }
    }
    if Disjoint(spans) {
      forall i | 1 <= i < |spans|
        ensures !Collides(spans, i)
      {
        assert !Meet(spans[i - 1], spans[i]);
        assert spans[i] in spans && spans[i - 1] in spans;
      }
    }
  }

  function NamesAt(spans: seq<Span>, i: int): Failure
    requires 1 <= i < |spans|
  {
    Overlap(spans[i - 1].name, spans[i].name)
  }

  /** The comparison of neighbours: each collision is named, and nothing else. */
  method Overlaps(lo: seq<u32>, hi: seq<u32>, name: seq<string>) returns (fails: seq<Failure>)
    requires |lo| == |hi| == |name|
    ensures fails == [] <==> Chained(Zip(lo, hi, name))
    ensures forall k :: 0 <= k < |fails| ==>
      exists i :: 1 <= i < |lo| && Collides(Zip(lo, hi, name), i) && fails[k] == NamesAt(Zip(lo, hi, name), i)
    ensures forall i :: 1 <= i < |lo| && Collides(Zip(lo, hi, name), i) ==> NamesAt(Zip(lo, hi, name), i) in fails
  {
    fails := [];
    ghost var z := Zip(lo, hi, name);
    var i := 1;
    while i < |lo|
      invariant 1 <= i && (i <= |lo| || |lo| == 0)
      invariant fails == [] <==> forall k :: 1 <= k < i && k < |z| ==> !Collides(z, k)
      invariant forall k :: 0 <= k < |fails| ==>
        exists m :: 1 <= m < |z| && Collides(z, m) && fails[k] == NamesAt(z, m)
      invariant forall m :: 1 <= m < i && m < |z| && Collides(z, m) ==> NamesAt(z, m) in fails
    {
      if hi[i - 1] > lo[i] {
        assert Collides(z, i) && NamesAt(z, i) == Overlap(name[i - 1], name[i]);
        fails := fails + [Overlap(name[i - 1], name[i])];
      }
      i := i + 1;
    }
  }

  // --- the totals ---------------------------------------------------------------------------------

  /** `h` cut to the region, measured from its origin. */
  function Reach(h: int, origin: u32, end: u32): int {
    if h <= origin then 0 else if h >= end then end - origin else h - origin
  }

  /** Sections in a chain, none straddling the region's edge, fill at most the region. */
  lemma {:induction false} ChainFits(z: seq<Span>, origin: u32, end: u32)
    requires Ordered(z) && Proper(z) && Chained(z) && origin <= end
    requires forall s :: s in z ==> Within(s, origin, end) || s.hi <= origin || s.lo >= end
    ensures 0 <= Used(z, origin, end) <= if z == [] then 0 else Reach(z[|z| - 1].hi, origin, end)
  {
    if z != [] {
      var init := z[..|z| - 1];
      assert forall i :: 1 <= i < |init| ==> Collides(init, i) == Collides(z, i);
      ChainFits(init, origin, end);
      assert z[|z| - 1] in z;
      if init != [] {
        assert !Collides(z, |z| - 1);
      }
    }
  }

  lemma SameMembers(a: seq<Span>, b: seq<Span>)
    requires multiset(a) == multiset(b)
    ensures forall s :: s in a <==> s in b
  {
    forall s
      ensures s in a <==> s in b
    {
      assert s in a <==> s in multiset(a);
    }
  }

  lemma {:induction false} SpansProper(sects: seq<Sect>)
    ensures Proper(Spans(sects)) && forall s :: s in Spans(sects) ==> 0 <= s.lo < W32
  {
    if sects != [] {
      SpansProper(sects[..|sects| - 1]);
    }
  }

  lemma ListedExact(spans: seq<Span>)
    requires NoWrap(spans) && Proper(spans) && forall s :: s in spans ==> 0 <= s.lo
    ensures Listed(spans) == spans
  {
    forall i | 0 <= i < |spans|
      ensures Listed(spans)[i] == spans[i]
    {
      assert spans[i] in spans;
    }
  }

  /** What the three checks mean, on spans that do not wrap. */
  lemma CheckedIsGood(spans: seq<Span>, order: seq<Span>)
    requires Proper(spans) && Ordered(order) && SameSpans(spans, order)
    ensures Chained(order) <==> Disjoint(spans)
    ensures Fits(spans) && Disjoint(spans) ==>
      && 0 <= Used(spans, FLASH_ORIGIN, FLASH_END) <= FLASH_END - FLASH_ORIGIN
      && 0 <= Used(spans, RAM_ORIGIN, RAM_END) <= RAM_END - RAM_ORIGIN
  {
    SameMembers(spans, order);
    NeighboursSuffice(order);
    if Fits(spans) && Disjoint(spans) {
      ChainFits(order, FLASH_ORIGIN, FLASH_END);
      ChainFits(order, RAM_ORIGIN, RAM_END);
    }
  }

  /** The code's three tests on the spans it listed, in the order it sorted them into. */
  predicate Passes(listed: seq<Span>, order: seq<Span>, ram: u32) {
    Fits(listed) && Chained(order) && ram <= RAM_END - RAM_ORIGIN - STACK_MARGIN
  }

  lemma GoodNeverWraps(spans: seq<Span>)
    requires GoodLayout(spans)
    ensures NoWrap(spans)
  {}

  lemma Verdict(fits: bool, disjoint: bool, used: int, limit: u32, total: u32)
    requires fits && disjoint ==> 0 <= used < W32
    requires total == Trunc(used)
    ensures fits && disjoint && used <= limit <==> fits && disjoint && total <= limit
    ensures fits && disjoint ==> total == used
  {}

  lemma PassesExact(spans: seq<Span>, order: seq<Span>, flash: u32, ram: u32)
    requires Proper(spans) && Ordered(order) && SameSpans(spans, order)
    requires flash == Trunc(Used(spans, FLASH_ORIGIN, FLASH_END))
    requires ram == Trunc(Used(spans, RAM_ORIGIN, RAM_END))
    ensures GoodLayout(spans) <==> Passes(spans, order, ram)
    ensures Chained(order) <==> Disjoint(spans)
    ensures GoodLayout(spans) ==> flash == Used(spans, FLASH_ORIGIN, FLASH_END)
    ensures GoodLayout(spans) ==> ram == Used(spans, RAM_ORIGIN, RAM_END)
  {
    CheckedIsGood(spans, order);
    var fits, disjoint := Fits(spans), Disjoint(spans);
    Verdict(fits, disjoint, Used(spans, RAM_ORIGIN, RAM_END), RAM_END - RAM_ORIGIN - STACK_MARGIN, ram);
    Verdict(fits, disjoint, Used(spans, FLASH_ORIGIN, FLASH_END), 0, flash);
  }

  /** A layout is good exactly when it passes and nothing wraps. */
  lemma PassesIsGood(spans: seq<Span>, order: seq<Span>, flash: u32, ram: u32)
    requires Proper(spans) && forall s :: s in spans ==> 0 <= s.lo
    requires Ordered(order) && SameSpans(Listed(spans), order)
    requires flash == Trunc(Used(spans, FLASH_ORIGIN, FLASH_END))
    requires ram == Trunc(Used(spans, RAM_ORIGIN, RAM_END))
    ensures GoodLayout(spans) <==> NoWrap(spans) && Passes(Listed(spans), order, ram)
    ensures NoWrap(spans) ==> (Chained(order) <==> Disjoint(spans))
    ensures GoodLayout(spans) ==> flash == Used(spans, FLASH_ORIGIN, FLASH_END)
    ensures GoodLayout(spans) ==> ram == Used(spans, RAM_ORIGIN, RAM_END)
  {
    if NoWrap(spans) {
      ListedExact(spans);
      PassesExact(spans, order, flash, ram);
    } else if GoodLayout(spans) {
      GoodNeverWraps(spans);
    }
  }

  predicate ReportsOverlap(fails: seq<Failure>) {
    exists i :: 0 <= i < |fails| && fails[i].Overlap?
  }

  lemma OverlapsAmong(a: seq<Failure>, b: seq<Failure>, c: seq<Failure>)
    requires !ReportsOverlap(a) && !ReportsOverlap(c) && forall i :: 0 <= i < |b| ==> b[i].Overlap?
    ensures ReportsOverlap(a + b + c) <==> b != []
  {
    if b != [] {
      assert (a + b + c)[|a|] == b[0];
    }
  }

  lemma RegionsReportNoOverlap(fails: seq<Failure>, spans: seq<Span>)
    requires Reported(fails, spans)
    ensures !ReportsOverlap(fails)
  {
    forall i | 0 <= i < |fails|
      ensures !fails[i].Overlap?
    {
      assert fails[i] in fails;
    }
  }

  /** The memory checks. `order` is the order the sections were sorted into. */
  method CheckLayout(sects: seq<Sect>)
    returns (fails: seq<Failure>, flash: u32, ram: u32, ghost order: seq<Span>)
    ensures Ordered(order) && multiset(order) == multiset(Listed(Spans(sects)))
    ensures fails == [] <==> Passes(Listed(Spans(sects)), order, ram)
    ensures SafeLayout(sects) <==> fails == [] && Unwrapped(sects)
    ensures Unwrapped(sects) ==> Complete(sects, ram, fails)
    ensures Unwrapped(sects) ==> (ReportsOverlap(fails) <==> !Apart(sects))
    ensures ram == Bytes(sects, 0x2000_0000, 0x2004_0000) % 0x1_0000_0000
    ensures SafeLayout(sects) ==> flash == Bytes(sects, 0x1000_0000, 0x1020_0000)
    ensures SafeLayout(sects) ==> ram == Bytes(sects, 0x2000_0000, 0x2004_0000)
  {
    var g := Regions(sects);
    GatherDescribes(sects);
    flash, ram := g.flash, g.ram;
    var lo, hi, name := SortSpans(g.lo, g.hi, g.name);
    order := Zip(lo, hi, name);
    var overlaps := Overlaps(lo, hi, name);
    var room: seq<Failure> := [];
    if ram > RAM_END - RAM_ORIGIN - STACK_MARGIN {
      room := [NoStackRoom(ram)];
    }
    fails := g.fails + overlaps + room;
    SpansProper(sects);
    Checked(Spans(sects), order, flash, ram, g.fails, overlaps, room);
    InTermsOfSections(sects);
    if Unwrapped(sects) {
      ListedExact(Spans(sects));
      Complaints(sects, ram, g.fails, overlaps, room);
    }
  }

  lemma Complaints(sects: seq<Sect>, ram: u32, outside: seq<Failure>, overlaps: seq<Failure>, room: seq<Failure>)
    requires Reported(outside, Spans(sects))
    requires forall i :: 0 <= i < |overlaps| ==> overlaps[i].Overlap?
    requires room == if ram > RAM_END - RAM_ORIGIN - STACK_MARGIN then [NoStackRoom(ram)] else []
    ensures Complete(sects, ram, outside + overlaps + room)
  {
    var fails := outside + overlaps + room;
    forall f: Failure | f.OverflowsFlash? || f.OverflowsRam? || f.Outside?
      ensures f in fails <==> exists i :: 0 <= i < |sects| && sects[i].flags / 2 % 2 == 1 && sects[i].size > 0
                                          && CallsFor(sects[i], f)
    {
      OneComplaint(sects, outside, f);
    }
  }

  lemma OneComplaint(sects: seq<Sect>, outside: seq<Failure>, f: Failure)
    requires Reported(outside, Spans(sects))
    ensures f in outside <==> exists i :: 0 <= i < |sects| && sects[i].flags / 2 % 2 == 1 && sects[i].size > 0
                                          && CallsFor(sects[i], f)
  {
    if f in outside {
      var t :| t in Spans(sects) && Complains(t, f);
      var i := SectFor(sects, t);
      assert CallsFor(sects[i], f);
    }
    if i :| 0 <= i < |sects| && sects[i].flags / 2 % 2 == 1 && sects[i].size > 0 && CallsFor(sects[i], f) {
      SpanFrom(sects, i);
      assert Complains(SpanOf(sects[i]), f);
    }
  }

  lemma InTermsOfSections(sects: seq<Sect>)
    ensures SafeLayout(sects) <==> GoodLayout(Spans(sects))
    ensures Unwrapped(sects) <==> NoWrap(Spans(sects))
    ensures Apart(sects) <==> Disjoint(Spans(sects))
    ensures Bytes(sects, 0x2000_0000, 0x2004_0000) == Used(Spans(sects), RAM_ORIGIN, RAM_END)
    ensures Bytes(sects, 0x1000_0000, 0x1020_0000) == Used(Spans(sects), FLASH_ORIGIN, FLASH_END)
  {
    SafeIsGood(sects);
    UnwrappedIsNoWrap(sects);
    ApartIsDisjoint(sects);
    BytesIsUsed(sects, RAM_ORIGIN, RAM_END);
    BytesIsUsed(sects, FLASH_ORIGIN, FLASH_END);
  }

  lemma Checked(spans: seq<Span>, order: seq<Span>, flash: u32, ram: u32,
                outside: seq<Failure>, overlaps: seq<Failure>, room: seq<Failure>)
    requires Proper(spans) && forall s :: s in spans ==> 0 <= s.lo < W32
    requires Reported(outside, Listed(spans))
    requires flash == Trunc(Used(spans, FLASH_ORIGIN, FLASH_END))
    requires ram == Trunc(Used(spans, RAM_ORIGIN, RAM_END))
    requires Ordered(order) && SameSpans(Listed(spans), order)
    requires overlaps == [] <==> Chained(order)
    requires forall i :: 0 <= i < |overlaps| ==> overlaps[i].Overlap?
    requires room == if ram > RAM_END - RAM_ORIGIN - STACK_MARGIN then [NoStackRoom(ram)] else []
    ensures outside + overlaps + room == [] <==> Passes(Listed(spans), order, ram)
    ensures GoodLayout(spans) <==> outside + overlaps + room == [] && NoWrap(spans)
    ensures NoWrap(spans) ==> (ReportsOverlap(outside + overlaps + room) <==> !Disjoint(spans))
    ensures GoodLayout(spans) ==> flash == Used(spans, FLASH_ORIGIN, FLASH_END)
    ensures GoodLayout(spans) ==> ram == Used(spans, RAM_ORIGIN, RAM_END)
  {
    ReportedFits(outside, Listed(spans));
    RegionsReportNoOverlap(outside, Listed(spans));
    OverlapsAmong(outside, overlaps, room);
    PassesIsGood(spans, order, flash, ram);
  }

  lemma OneSection(s: Sect)
    ensures Spans([s]) == if s.Placed() then [Span(s.addr, s.addr + s.size, s.name)] else []
  {
    assert [s][..0] == [];
  }

  lemma OneUsed(s: Span, origin: u32, end: u32)
    ensures Used([s], origin, end) == if origin <= s.lo < end then s.hi - s.lo else 0
  {
    assert [s][..0] == [];
  }

  lemma LoneListed(s: Span, order: seq<Span>, ram: u32)
    requires multiset(order) == multiset(Listed([s])) && InRegion(Span(s.lo, Trunc(s.hi), s.name)) && ram == 0
    ensures Passes(Listed([s]), order, ram)
  {
    assert |order| == |multiset(order)| == 1;
  }

  /** A section of flash that is so long that its end wraps passes, though it leaves flash. */
  lemma LongPasses(s: Sect, order: seq<Span>, ram: u32)
    requires s.flags == 2 && s.addr == 0x1000_0000 && s.size == 0xF000_0010
    requires multiset(order) == multiset(Listed(Spans([s])))
    requires ram == Trunc(Used(Spans([s]), RAM_ORIGIN, RAM_END))
    ensures Passes(Listed(Spans([s])), order, ram)
  {
    OneSection(s);
    OneUsed(SpanOf(s), RAM_ORIGIN, RAM_END);
    LoneListed(SpanOf(s), order, ram);
  }

  lemma LongLeaves(s: Sect)
    requires s.flags == 2 && s.addr == 0x1000_0000 && s.size == 0xF000_0010
    ensures !SafeLayout([s])
  {
    assert [s][0].flags / 2 % 2 == 1 && !Inside([s][0]);
  }

  /** Such a section is accepted. */
  method WrapAccepted() returns (sects: seq<Sect>, fails: seq<Failure>)
    ensures fails == [] && !SafeLayout(sects)
  {
    var long := Sect("a", 1, 2, 0x1000_0000, 0, 0xF000_0010);
    sects := [long];
    var flash, ram;
    ghost var order;
    fails, flash, ram, order := CheckLayout(sects);
    BytesIsUsed([long], RAM_ORIGIN, RAM_END);
    LongPasses(long, order, ram);
    LongLeaves(long);
  }
}
