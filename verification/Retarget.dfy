/**
  The IR retargeting pass: line by line, with a scanning rewriter for quoted attributes. Text is a
  sequence of bytes; the model writes them as characters.
 */
module Retarget {
  import opened Words

  const QUOTE: string := "\""
  const CPU := "cortex-m0plus"
  const DATALAYOUT_MCU := "e-m:e-p:32:32-Fi8" + "-i64:64-v128:64:128" + "-a:0:32-n32-S64"
  const TRIPLE_MCU := "thumbv6m-unknown-none-eabi"
  const LAYOUT_LINE := "target datalayout = \"" + DATALAYOUT_MCU + QUOTE
  const TRIPLE_LINE := "target triple = \"" + TRIPLE_MCU + QUOTE

  predicate OccursAt(s: string, t: string, i: nat) {
    i + |t| <= |s| && s[i..i + |t|] == t
  }

  /** `s.find(t, from)`. */
  function Find(s: string, t: string, from: nat): (i: int)
    ensures i == -1 || from <= i <= i + |t| <= |s|
    decreases |s| - from
  {
    if from + |t| > |s| then -1
    else if OccursAt(s, t, from) then from
    else Find(s, t, from + 1)
  }

  /** It is the first occurrence, and -1 means there is none. */
  lemma {:induction false} FindIsFirst(s: string, t: string, from: nat)
    ensures Find(s, t, from) != -1 ==> OccursAt(s, t, Find(s, t, from))
    ensures forall j: nat :: from <= j && (Find(s, t, from) == -1 || j < Find(s, t, from)) ==> !OccursAt(s, t, j)
    decreases |s| - from
  {
    if from + |t| <= |s| && !OccursAt(s, t, from) {
      FindIsFirst(s, t, from + 1);
    }
  }

  /** `="value"`. */
  function Attr(value: string): string {
    "=\"" + value + QUOTE
  }

  predicate StartsAttr(s: string) {
    |s| >= 2 && s[0] == '=' && s[1] == '"'
  }

  /** Where the attribute text that starts at `after` ends; none if its quote is never closed. */
  function AttrEnd(s: string, after: nat): (end: Option<nat>)
    requires after <= |s|
    ensures end.Some? ==> after <= end.value <= |s|
  {
    if StartsAttr(s[after..]) then
      var close := Find(s, QUOTE, after + 2);
      if close == -1 then None else Some(close + 1)
    else Some(after)
  }

  /** Nothing more to rewrite: no key, or a key whose attribute is never closed. */
  predicate Ended(line: string, q: string) {
    var idx := Find(line, q, 0);
    idx == -1 || AttrEnd(line, idx + |q|).None?
  }

  /** Where the next key is, and where its attribute ends. */
  function Next(line: string, q: string): (r: Option<(nat, nat)>)
    requires q != ""
    ensures r.Some? ==> r.value.0 + |q| <= r.value.1 <= |line|
    ensures r.None? <==> Ended(line, q)
  {
    var idx := Find(line, q, 0);
    if idx == -1 then None
    else
      match AttrEnd(line, idx + |q|)
      case None => None
      case Some(end) => Some((idx, end))
  }

  /** Give every scanned occurrence of the quoted key `q` the attribute text `a`. */
  function Rewrite(line: string, q: string, a: string): string
    requires q != ""
    decreases |line|
  {
    match Next(line, q)
    case None => line
    case Some((idx, end)) => line[..idx] + q + a + Rewrite(line[end..], q, a)
  }

  lemma NextIs(line: string, q: string, idx: nat, end: nat)
    requires q != "" && Find(line, q, 0) == idx && AttrEnd(line, idx + |q|) == Some(end)
    ensures Next(line, q) == Some((idx, end))
  {}

  lemma RewriteUnfolds(line: string, q: string, a: string, idx: nat, end: nat)
    requires q != "" && Find(line, q, 0) == idx && AttrEnd(line, idx + |q|) == Some(end)
    ensures Rewrite(line, q, a) == line[..idx] + q + a + Rewrite(line[end..], q, a)
  {
    NextIs(line, q, idx, end);
    RewriteNext(line, q, a, idx, end);
  }

  lemma RewriteNext(line: string, q: string, a: string, idx: nat, end: nat)
    requires q != "" && Next(line, q) == Some((idx, end))
    ensures Rewrite(line, q, a) == line[..idx] + q + a + Rewrite(line[end..], q, a)
  {}

  lemma RewriteRound(out: string, rest: string, q: string, a: string, idx: nat, end: nat)
    requires q != "" && Find(rest, q, 0) == idx && AttrEnd(rest, idx + |q|) == Some(end)
    ensures out + Rewrite(rest, q, a) == out + (rest[..idx] + q + a) + Rewrite(rest[end..], q, a)
  {
    RewriteUnfolds(rest, q, a, idx, end);
    Regroup(out, rest[..idx] + q + a, Rewrite(rest[end..], q, a));
  }

  lemma Regroup(out: string, a: string, rest: string)
    ensures (out + a) + rest == out + (a + rest)
  {}

  lemma RewriteEnds(line: string, q: string, a: string)
    requires q != "" && Ended(line, q)
    ensures Rewrite(line, q, a) == line
  {}

  /** One round of the loop finds the end of the attribute. */
  method FindEnd(rest: string, after: nat) returns (end: Option<nat>)
    requires after <= |rest|
    ensures end == AttrEnd(rest, after)
  {
    if after + 1 < |rest| && rest[after] == '=' && rest[after + 1] == '"' {
      var close := Find(rest, QUOTE, after + 2);
      if close == -1 {
        return None;
      }
      return Some(close + 1);
    }
    return Some(after);
  }

  function Quoted(key: string): string {
    QUOTE + key + QUOTE
  }

  function SetAttr(line: string, key: string, value: string): string {
    Rewrite(line, Quoted(key), Attr(value))
  }

  /** The next key to rewrite, and where its attribute ends. */
  method NextKey(rest: string, q: string) returns (idx: int, end: Option<nat>)
    ensures end.None? <==> Ended(rest, q)
    ensures end.Some? ==> idx == Find(rest, q, 0) && idx != -1 && end == AttrEnd(rest, idx + |q|)
  {
    idx := Find(rest, q, 0);
    if idx == -1 {
      return idx, None;
    }
    end := FindEnd(rest, idx + |q|);
  }

  /** `_set_quoted_attr`, for the quoted key and the attribute text it builds. */
  method RewriteLoop(line: string, q: string, a: string) returns (r: string)
    requires q != ""
    ensures r == Rewrite(line, q, a)
  {
    var out := "";
    var rest := line;
    ghost var goal := Rewrite(line, q, a);
    while true
      invariant out + Rewrite(rest, q, a) == goal
      decreases |rest|
    {
      var idx, end := NextKey(rest, q);
      if end.None? {
        RewriteEnds(rest, q, a);
        return out + rest;
      }
      RewriteRound(out, rest, q, a, idx, end.value);
      out := out + (rest[..idx] + q + a);
      rest := rest[end.value..];
    }
  }

  method SetQuotedAttr(line: string, key: string, value: string) returns (r: string)
    ensures r == SetAttr(line, key, value)
  {
    r := RewriteLoop(line, Quoted(key), Attr(value));
  }

  // --- what a scan changes ------------------------------------------------------------------------

  /** One scanned key: the text before it, and the attribute text right after it. */
  datatype Piece = Piece(before: string, attr: string)

  function Text(pieces: seq<Piece>, q: string, rest: string): string {
    if pieces == [] then rest
    else pieces[0].before + q + pieces[0].attr + Text(pieces[1..], q, rest)
  }

  predicate QuoteFree(s: string) {
    '"' !in s
  }

  predicate IsAttr(s: string) {
    |s| >= 3 && QuoteFree(s[2..|s| - 1]) && s == Attr(s[2..|s| - 1])
  }

  /** The keys of a line from left to right, each with the attribute that belongs to it. */
  ghost predicate Scan(pieces: seq<Piece>, q: string, rest: string) {
    if pieces == [] then Ended(rest, q)
    else
      && Find(pieces[0].before + q, q, 0) == |pieces[0].before|
      && (IsAttr(pieces[0].attr) || (pieces[0].attr == "" && !StartsAttr(Text(pieces[1..], q, rest))))
      && Scan(pieces[1..], q, rest)
  }

  function SetAll(pieces: seq<Piece>, a: string): (r: seq<Piece>)
    ensures |r| == |pieces|
  {
    seq(|pieces|, i requires 0 <= i < |pieces| => Piece(pieces[i].before, a))
  }

  lemma FindAt(s: string, t: string, from: nat, i: nat)
    requires from <= i && OccursAt(s, t, i) && forall j: nat :: from <= j < i ==> !OccursAt(s, t, j)
    ensures Find(s, t, from) == i
  {
    FindIsFirst(s, t, from);
  }

  lemma OccursLater(a: string, q: string, t: string, j: nat)
    requires j <= |a|
    ensures OccursAt(a + q + t, q, j) == OccursAt(a + q, q, j)
  {
    assert (a + q)[j..j + |q|] == (a + q + t)[j..j + |q|];
  }

  lemma FindExtends(a: string, q: string, t: string)
    requires Find(a + q, q, 0) == |a|
    ensures Find(a + q + t, q, 0) == |a|
  {
    FindIsFirst(a + q, q, 0);
    forall j: nat | j <= |a|
      ensures OccursAt(a + q + t, q, j) == OccursAt(a + q, q, j)
    {
      OccursLater(a, q, t, j);
    }
    FindAt(a + q + t, q, 0, |a|);
  }

  lemma FindShrinks(s: string, q: string)
    requires Find(s, q, 0) != -1
    ensures Find(s[..Find(s, q, 0)] + q, q, 0) == Find(s, q, 0)
  {
    FindIsFirst(s, q, 0);
    var i := Find(s, q, 0);
    var a, t := s[..i], s[i + |q|..];
    assert a + q + t == s;
    forall j: nat | j <= i
      ensures OccursAt(s, q, j) == OccursAt(a + q, q, j)
    {
      OccursLater(a, q, t, j);
    }
    FindAt(a + q, q, 0, i);
  }

  lemma ClosingQuote(p: string, v: string, t: string)
    requires QuoteFree(v)
    ensures StartsAttr((p + Attr(v) + t)[|p|..])
    ensures Find(p + Attr(v) + t, QUOTE, |p| + 2) == |p| + 2 + |v|
  {
    var s := p + Attr(v) + t;
    assert s[|p|..] == Attr(v) + t;
    var c := |p| + 2 + |v|;
    assert s[c..c + 1] == QUOTE;
    assert OccursAt(s, QUOTE, c);
    forall j: nat | |p| + 2 <= j < c
      ensures !OccursAt(s, QUOTE, j)
    {
      assert s[j] == v[j - |p| - 2];
    }
    FindAt(s, QUOTE, |p| + 2, c);
  }

  lemma AttrEndIs(p: string, attr: string, t: string)
    requires IsAttr(attr) || (attr == "" && !StartsAttr(t))
    ensures AttrEnd(p + attr + t, |p|) == Some(|p| + |attr|)
  {
    if IsAttr(attr) {
      ClosingQuote(p, attr[2..|attr| - 1], t);
    } else {
      assert (p + attr + t)[|p|..] == t;
    }
  }

  lemma RewriteAt(line: string, before: string, q: string, attr: string, tail: string, a: string)
    requires q != "" && line == before + q + attr + tail
    requires Find(line, q, 0) == |before| && AttrEnd(line, |before| + |q|) == Some(|before| + |q| + |attr|)
    ensures Rewrite(line, q, a) == before + q + a + Rewrite(tail, q, a)
  {
    var end := |before| + |q| + |attr|;
    RewriteUnfolds(line, q, a, |before|, end);
    assert line[end..] == tail && line[..|before|] == before;
  }

  lemma FoundFirst(before: string, q: string, attr: string, tail: string)
    requires Find(before + q, q, 0) == |before|
    ensures Find(before + q + attr + tail, q, 0) == |before|
  {
    FindExtends(before, q, attr + tail);
    assert before + q + (attr + tail) == before + q + attr + tail;
  }

  lemma EndIs(before: string, q: string, attr: string, tail: string)
    requires IsAttr(attr) || (attr == "" && !StartsAttr(tail))
    ensures AttrEnd(before + q + attr + tail, |before| + |q|) == Some(|before| + |q| + |attr|)
  {
    assert |before + q| == |before| + |q|;
    AttrEndIs(before + q, attr, tail);
  }

  lemma RewritePiece(p: Piece, q: string, tail: string, a: string)
    requires q != "" && Find(p.before + q, q, 0) == |p.before|
    requires IsAttr(p.attr) || (p.attr == "" && !StartsAttr(tail))
    ensures Rewrite(p.before + q + p.attr + tail, q, a) == p.before + q + a + Rewrite(tail, q, a)
  {
    FoundFirst(p.before, q, p.attr, tail);
    EndIs(p.before, q, p.attr, tail);
    RewriteAt(p.before + q + p.attr + tail, p.before, q, p.attr, tail, a);
  }

  /** The rewriter sets the attribute of every scanned key and keeps every other byte. */
  lemma {:induction false} SetsOnlyAttributes(pieces: seq<Piece>, q: string, a: string, rest: string)
    requires q != "" && Scan(pieces, q, rest)
    ensures Rewrite(Text(pieces, q, rest), q, a) == Text(SetAll(pieces, a), q, rest)
    decreases |pieces|
  {
    if pieces != [] {
      RewritePiece(pieces[0], q, Text(pieces[1..], q, rest), a);
      SetsOnlyAttributes(pieces[1..], q, a, rest);
      assert SetAll(pieces, a)[1..] == SetAll(pieces[1..], a);
    }
  }

  lemma FoundAttr(s: string, after: nat, end: nat)
    requires after <= |s| && AttrEnd(s, after) == Some(end)
    ensures IsAttr(s[after..end]) || (s[after..end] == "" && !StartsAttr(s[end..]))
  {
    if StartsAttr(s[after..]) {
      FindIsFirst(s, QUOTE, after + 2);
      var v := s[after + 2..end - 1];
      forall j | 0 <= j < |v|
        ensures v[j] != '"'
      {
        assert !OccursAt(s, QUOTE, after + 2 + j);
        assert s[after + 2 + j..after + 3 + j] == [v[j]];
      }
      assert s[after] == s[after..][0] && s[after + 1] == s[after..][1];
      assert s[end - 1] == s[end - 1..end][0];
      assert s[after..end] == Attr(v);
      assert s[after..end][2..end - after - 1] == v;
    }
  }

  lemma FourParts(s: string, i: nat, j: nat, k: nat)
    requires i <= j <= k <= |s|
    ensures s == s[..i] + s[i..j] + s[j..k] + s[k..]
  {}

  lemma SplitAt(line: string, q: string, end: nat)
    requires !Ended(line, q) && AttrEnd(line, Find(line, q, 0) + |q|) == Some(end)
    ensures line == line[..Find(line, q, 0)] + q + line[Find(line, q, 0) + |q|..end] + line[end..]
  {
    FindIsFirst(line, q, 0);
    FourParts(line, Find(line, q, 0), Find(line, q, 0) + |q|, end);
  }

  lemma OneMorePiece(p: Piece, more: seq<Piece>, q: string, rest: string)
    requires Find(p.before + q, q, 0) == |p.before| && Scan(more, q, rest)
    requires IsAttr(p.attr) || (p.attr == "" && !StartsAttr(Text(more, q, rest)))
    ensures Scan([p] + more, q, rest)
    ensures Text([p] + more, q, rest) == p.before + q + p.attr + Text(more, q, rest)
  {
    assert ([p] + more)[1..] == more;
  }

  /** The first scanned key of a line, and what is left of the line. */
  lemma FirstPiece(line: string, q: string, end: nat) returns (p: Piece)
    requires q != "" && !Ended(line, q) && AttrEnd(line, Find(line, q, 0) + |q|) == Some(end)
    ensures Find(p.before + q, q, 0) == |p.before| && line == p.before + q + p.attr + line[end..]
    ensures IsAttr(p.attr) || (p.attr == "" && !StartsAttr(line[end..]))
  {
    var idx := Find(line, q, 0);
    p := Piece(line[..idx], line[idx + |q|..end]);
    FindShrinks(line, q);
    FoundAttr(line, idx + |q|, end);
    SplitAt(line, q, end);
  }

  /** Every line scans, for every key. */
  lemma {:induction false} EveryLineScans(line: string, q: string) returns (pieces: seq<Piece>, rest: string)
    requires q != ""
    ensures Scan(pieces, q, rest) && Text(pieces, q, rest) == line
    decreases |line|
  {
    if Ended(line, q) {
      pieces, rest := [], line;
    } else {
      var idx := Find(line, q, 0);
      var end := AttrEnd(line, idx + |q|).value;
      var more;
      more, rest := EveryLineScans(line[end..], q);
      var p := FirstPiece(line, q, end);
      OneMorePiece(p, more, q, rest);
      pieces := [p] + more;
    }
  }

  // --- idempotence --------------------------------------------------------------------------------

  lemma {:induction false} SetPiecesScan(pieces: seq<Piece>, q: string, a: string, rest: string)
    requires Scan(pieces, q, rest) && IsAttr(a)
    ensures Scan(SetAll(pieces, a), q, rest)
    decreases |pieces|
  {
    if pieces != [] {
      SetPiecesScan(pieces[1..], q, a, rest);
      assert SetAll(pieces, a)[1..] == SetAll(pieces[1..], a);
    }
  }

  lemma RewriteIdempotent(line: string, q: string, a: string)
    requires q != "" && IsAttr(a)
    ensures Rewrite(Rewrite(line, q, a), q, a) == Rewrite(line, q, a)
  {
    var pieces, rest := EveryLineScans(line, q);
    SetsOnlyAttributes(pieces, q, a, rest);
    SetPiecesScan(pieces, q, a, rest);
    SetsOnlyAttributes(SetAll(pieces, a), q, a, rest);
    assert SetAll(SetAll(pieces, a), a) == SetAll(pieces, a);
  }

  lemma IdempotentOn(line: string, key: string, value: string)
    requires QuoteFree(value)
    ensures SetAttr(SetAttr(line, key, value), key, value) == SetAttr(line, key, value)
  {
    assert Attr(value)[2..|Attr(value)| - 1] == value;
    RewriteIdempotent(line, Quoted(key), Attr(value));
  }

  lemma NeverEmpty(line: string, q: string, a: string)
    requires line != "" && q != ""
    ensures Rewrite(line, q, a) != ""
  {}

  lemma FindSelf(q: string)
    ensures Find("" + q, q, 0) == 0 && Find(q + "", q, 0) == 0
  {
    assert OccursAt(q, q, 0) && "" + q == q == q + "";
  }

  lemma NothingLeft(q: string, a: string)
    requires q != ""
    ensures Rewrite("", q, a) == ""
  {}

  lemma RewriteBareKey(q: string, a: string)
    requires q != ""
    ensures Rewrite(q, q, a) == q + a
  {
    FindSelf(q);
    RewritePiece(Piece("", ""), q, "", a);
    assert "" + q + "" + "" == q;
    NothingLeft(q, a);
    assert "" + q + a + "" == q + a;
  }

  lemma RewriteSetKey(q: string, v: string, t: string, a: string)
    requires q != "" && QuoteFree(v)
    ensures Rewrite(q + Attr(v) + t, q, a) == q + a + Rewrite(t, q, a)
  {
    assert IsAttr(Attr(v)) by {
      assert Attr(v)[2..|Attr(v)| - 1] == v;
    }
    FindSelf(q);
    RewritePiece(Piece("", Attr(v)), q, t, a);
    assert "" + q == q;
  }

  /** On a bare key, a value with a quote in it grows the line again on the second pass. */
  lemma QuoteGrows(key: string, value: string)
    requires !QuoteFree(value)
    ensures |SetAttr(SetAttr(Quoted(key), key, value), key, value)| > |SetAttr(Quoted(key), key, value)|
  {
    var q, a := Quoted(key), Attr(value);
    RewriteBareKey(q, a);
    FindIsFirst(value, QUOTE, 0);
    var i := Find(value, QUOTE, 0);
    QuoteAt(value);
    var v, t := value[..i], value[i + 1..] + QUOTE;
    assert value == v + QUOTE + value[i + 1..];
    assert q + a == q + Attr(v) + t;
    RewriteSetKey(q, v, t, a);
    NeverEmpty(t, q, a);
  }

  lemma QuoteAt(value: string)
    requires !QuoteFree(value)
    ensures 0 <= Find(value, QUOTE, 0) < |value|
    ensures value[Find(value, QUOTE, 0)] == '"' && QuoteFree(value[..Find(value, QUOTE, 0)])
  {
    FindIsFirst(value, QUOTE, 0);
    var i :| 0 <= i < |value| && value[i] == '"';
    assert value[i..i + 1] == QUOTE;
    assert OccursAt(value, QUOTE, i);
    var f := Find(value, QUOTE, 0);
    assert value[f] == value[f..f + 1][0];
    forall j | 0 <= j < f
      ensures value[j] != '"'
    {
      assert !OccursAt(value, QUOTE, j);
      assert value[j..j + 1] == [value[j]];
    }
  }

  /** The rewriter is idempotent on every line exactly when the value has no quote. */
  lemma IdempotentExactly(key: string, value: string)
    ensures QuoteFree(value) <==>
      forall line :: SetAttr(SetAttr(line, key, value), key, value) == SetAttr(line, key, value)
  {
    if QuoteFree(value) {
      forall line
        ensures SetAttr(SetAttr(line, key, value), key, value) == SetAttr(line, key, value)
      {
        IdempotentOn(line, key, value);
      }
    } else {
      QuoteGrows(key, value);
    }
  }

  // --- lines --------------------------------------------------------------------------------------

  predicate OneLine(s: string) {
    '\n' !in s
  }

  /** The pieces between the separators. */
  function Split(src: string, sep: char): (parts: seq<string>)
    ensures |parts| >= 1 && forall i :: 0 <= i < |parts| ==> sep !in parts[i]
    decreases |src|
  {
    var i := Find(src, [sep], 0);
    if i == -1 then
      NoneFound(src, sep);
      [src]
    else
      NoneBefore(src, sep, i);
      [src[..i]] + Split(src[i + 1..], sep)
  }

  lemma NoneFound(s: string, c: char)
    requires Find(s, [c], 0) == -1
    ensures c !in s
  {
    FindIsFirst(s, [c], 0);
    forall j | 0 <= j < |s|
      ensures s[j] != c
    {
      assert !OccursAt(s, [c], j);
      assert s[j..j + 1] == [s[j]];
    }
  }

  lemma NoneBefore(s: string, c: char, i: nat)
    requires Find(s, [c], 0) == i
    ensures c !in s[..i]
  {
    FindIsFirst(s, [c], 0);
    forall j | 0 <= j < i
      ensures s[j] != c
    {
      assert !OccursAt(s, [c], j);
      assert s[j..j + 1] == [s[j]];
    }
  }

  function Join(parts: seq<string>, sep: char): string
    requires |parts| >= 1
  {
    if |parts| == 1 then parts[0] else parts[0] + [sep] + Join(parts[1..], sep)
  }

  lemma {:induction false} JoinSplit(src: string, sep: char)
    ensures Join(Split(src, sep), sep) == src
    decreases |src|
  {
    var i := Find(src, [sep], 0);
    if i != -1 {
      FindIsFirst(src, [sep], 0);
      JoinSplit(src[i + 1..], sep);
      assert Split(src, sep)[1..] == Split(src[i + 1..], sep);
      assert src == src[..i] + src[i..i + 1] + src[i + 1..];
    }
  }

  lemma FirstSeparator(a: string, b: string, c: char)
    requires c !in a
    ensures Find(a + [c] + b, [c], 0) == |a|
  {
    var s := a + [c] + b;
    assert s[|a|..|a| + 1] == [c];
    assert OccursAt(s, [c], |a|);
    forall j: nat | j < |a|
      ensures !OccursAt(s, [c], j)
    {
      assert s[j] == a[j];
    }
    FindIsFirst(s, [c], 0);
  }

  lemma NoSeparator(a: string, c: char)
    requires c !in a
    ensures Find(a, [c], 0) == -1
  {
    forall j: nat | j < |a|
      ensures !OccursAt(a, [c], j)
    {
      if j < |a| {
        assert a[j] in a && a[j..j + 1] == [a[j]];
      }
    }
    FindIsFirst(a, [c], 0);
  }

  lemma {:induction false} SplitJoin(parts: seq<string>, sep: char)
    requires |parts| >= 1 && forall i :: 0 <= i < |parts| ==> sep !in parts[i]
    ensures Split(Join(parts, sep), sep) == parts
    decreases |parts|
  {
    if |parts| == 1 {
      NoSeparator(parts[0], sep);
    } else {
      var a, b := parts[0], Join(parts[1..], sep);
      SplitJoin(parts[1..], sep);
      FirstSeparator(a, b, sep);
      assert (a + [sep] + b)[..|a|] == a && (a + [sep] + b)[|a| + 1..] == b;
    }
  }

  // --- the whole text -----------------------------------------------------------------------------

  function Lines(src: string): seq<string> {
    Split(src, '\n')
  }

  function RetargetLine(line: string): string {
    if "target datalayout" <= line then LAYOUT_LINE
    else if "target triple" <= line then TRIPLE_LINE
    else SetAttr(SetAttr(line, "target-cpu", CPU), "target-features", "")
  }

  function MapLines(lines: seq<string>): (r: seq<string>)
    ensures |r| == |lines| && forall i :: 0 <= i < |lines| ==> r[i] == RetargetLine(lines[i])
  {
    seq(|lines|, i requires 0 <= i < |lines| => RetargetLine(lines[i]))
  }

  function EachEnded(lines: seq<string>): string {
    if lines == [] then "" else EachEnded(lines[..|lines| - 1]) + lines[|lines| - 1] + "\n"
  }

  lemma {:induction false} EndedIsJoined(lines: seq<string>)
    requires |lines| >= 1
    ensures EachEnded(lines) == Join(lines, '\n') + "\n"
    decreases |lines|
  {
    if |lines| == 1 {
      assert lines[..0] == [];
    } else {
      EndedFirst(lines);
      EndedIsJoined(lines[1..]);
    }
  }

  lemma {:induction false} EndedFirst(lines: seq<string>)
    requires |lines| >= 1
    ensures EachEnded(lines) == lines[0] + "\n" + EachEnded(lines[1..])
    decreases |lines|
  {
    if |lines| == 1 {
      assert lines[..0] == [] && lines[1..] == [];
    } else {
      var init := lines[..|lines| - 1];
      EndedFirst(init);
      assert lines[1..][..|lines| - 2] == init[1..];
    }
  }

  method RewriteLine(line: string) returns (r: string)
    ensures r == RetargetLine(line)
  {
    if "target datalayout" <= line {
      r := LAYOUT_LINE;
    } else if "target triple" <= line {
      r := TRIPLE_LINE;
    } else {
      r := SetQuotedAttr(line, "target-cpu", CPU);
      r := SetQuotedAttr(r, "target-features", "");
    }
  }

  lemma EndedStep(lines: seq<string>, i: nat)
    requires i < |lines|
    ensures EachEnded(lines[..i + 1]) == EachEnded(lines[..i]) + lines[i] + "\n"
  {
    assert lines[..i + 1][..i] == lines[..i];
  }

  /** `retarget_text`: the trimmed byte is the newline the last line does not have. */
  method RetargetText(src: string) returns (r: string)
    ensures r == Join(MapLines(Lines(src)), '\n')
    ensures |Lines(r)| == |Lines(src)|
    ensures forall i :: 0 <= i < |Lines(src)| ==> Retargeted(Lines(src)[i], Lines(r)[i])
    ensures EndsWithNewline(r) <==> EndsWithNewline(src)
  {
    var out := "";
    var lines := Lines(src);
    ghost var goal := MapLines(lines);
    for i := 0 to |lines|
      invariant out == EachEnded(goal[..i])
    {
      var line := RewriteLine(lines[i]);
      out := out + line + "\n";
      EndedStep(goal, i);
    }
    assert goal[..|lines|] == goal;
    EndedIsJoined(goal);
    r := out[..|out| - 1];
    EachRetargeted(src);
  }

  lemma {:induction false} RewriteOneLine(line: string, q: string, a: string)
    requires q != "" && OneLine(line) && OneLine(q) && OneLine(a)
    ensures OneLine(Rewrite(line, q, a))
    decreases |line|
  {
    if !Ended(line, q) {
      var idx := Find(line, q, 0);
      var end := AttrEnd(line, idx + |q|).value;
      RewriteUnfolds(line, q, a, idx, end);
      RewriteOneLine(line[end..], q, a);
    }
  }

  lemma RewriteTwice(line: string, q1: string, a1: string, q2: string, a2: string)
    requires q1 != "" && q2 != "" && OneLine(line) && OneLine(q1) && OneLine(a1) && OneLine(q2) && OneLine(a2)
    ensures OneLine(Rewrite(Rewrite(line, q1, a1), q2, a2))
    ensures Rewrite(Rewrite(line, q1, a1), q2, a2) == "" <==> line == ""
  {
    RewriteOneLine(line, q1, a1);
    RewriteOneLine(Rewrite(line, q1, a1), q2, a2);
    if line != "" {
      NeverEmpty(line, q1, a1);
      NeverEmpty(Rewrite(line, q1, a1), q2, a2);
    }
  }

  lemma TargetLines()
    ensures OneLine(LAYOUT_LINE) && OneLine(TRIPLE_LINE)
  {
    assert OneLine("target datalayout = \"") && OneLine(QUOTE);
    assert OneLine("e-m:e-p:32:32-Fi8") && OneLine("-i64:64-v128:64:128") && OneLine("-a:0:32-n32-S64");
    assert OneLine("target triple = \"") && OneLine(TRIPLE_MCU);
  }

  lemma RetargetOneLine(line: string)
    requires OneLine(line)
    ensures OneLine(RetargetLine(line)) && (RetargetLine(line) == "" <==> line == "")
  {
    TargetLines();
    if !("target datalayout" <= line) && !("target triple" <= line) {
      RewriteTwice(line, Quoted("target-cpu"), Attr(CPU), Quoted("target-features"), Attr(""));
    }
  }

  predicate EndsWithNewline(s: string) {
    s != "" && s[|s| - 1] == '\n'
  }

  lemma {:induction false} LastLine(lines: seq<string>)
    requires |lines| >= 1 && forall i :: 0 <= i < |lines| ==> OneLine(lines[i])
    ensures EndsWithNewline(Join(lines, '\n')) <==> |lines| > 1 && lines[|lines| - 1] == ""
    decreases |lines|
  {
    if |lines| > 1 {
      LastLine(lines[1..]);
    } else if lines[0] != "" {
      assert lines[0][|lines[0]| - 1] in lines[0];
    }
  }

  /** Line `i` of the result is line `i` of the source rewritten, and the text ends as the source ends. */
  lemma LinesCorrespond(src: string)
    ensures Lines(Join(MapLines(Lines(src)), '\n')) == MapLines(Lines(src))
    ensures EndsWithNewline(Join(MapLines(Lines(src)), '\n')) <==> EndsWithNewline(src)
  {
    var lines := Lines(src);
    forall i | 0 <= i < |lines|
      ensures OneLine(MapLines(lines)[i]) && (MapLines(lines)[i] == "" <==> lines[i] == "")
    {
      RetargetOneLine(lines[i]);
    }
    SplitJoin(MapLines(lines), '\n');
    LastLine(MapLines(lines));
    LastLine(lines);
    JoinSplit(src, '\n');
  }

  /**
    What became of a line. A line of neither target is scanned for the CPU keys, which all get their value,
    and the result for the feature keys, which all get none; every other byte is kept.
   */
  ghost predicate Retargeted(line: string, out: string) {
    if "target datalayout" <= line then
      out == "target datalayout = \"" + ("e-m:e-p:32:32-Fi8" + "-i64:64-v128:64:128" + "-a:0:32-n32-S64") + "\""
    else if "target triple" <= line then
      out == "target triple = \"" + "thumbv6m-unknown-none-eabi" + "\""
    else
      exists cpus: seq<Piece>, end1: string, features: seq<Piece>, end2: string ::
        && Scan(cpus, "\"target-cpu\"", end1) && line == Text(cpus, "\"target-cpu\"", end1)
        && Scan(features, "\"target-features\"", end2)
        && Text(features, "\"target-features\"", end2)
           == Text(SetAll(cpus, "=\"cortex-m0plus\""), "\"target-cpu\"", end1)
        && out == Text(SetAll(features, "=\"\""), "\"target-features\"", end2)
        && Scan(SetAll(features, "=\"\""), "\"target-features\"", end2)
  }

  lemma CpuText()
    ensures Quoted("target-cpu") == "\"target-cpu\"" && Attr(CPU) == "=\"cortex-m0plus\""
  {}

  lemma FeaturesText()
    ensures Quoted("target-features") == "\"target-features\"" && Attr("") == "=\"\""
  {}

  /** Setting one attribute on a line, as a scan of it. */
  lemma SetByScan(line: string, q: string, value: string) returns (pieces: seq<Piece>, rest: string)
    requires q != "" && QuoteFree(value)
    ensures Scan(pieces, q, rest) && Text(pieces, q, rest) == line
    ensures Rewrite(line, q, Attr(value)) == Text(SetAll(pieces, Attr(value)), q, rest)
    ensures Scan(SetAll(pieces, Attr(value)), q, rest)
  {
    pieces, rest := EveryLineScans(line, q);
    SetsOnlyAttributes(pieces, q, Attr(value), rest);
    IsAttrOf(value);
    SetPiecesScan(pieces, q, Attr(value), rest);
  }

  lemma IsAttrOf(value: string)
    requires QuoteFree(value)
    ensures IsAttr(Attr(value))
  {
    assert Attr(value)[2..|Attr(value)| - 1] == value;
  }

  lemma IsRetargeted(line: string)
    ensures Retargeted(line, RetargetLine(line))
  {
    if !("target datalayout" <= line) && !("target triple" <= line) {
      CpuText();
      FeaturesText();
      var cpus, end1 := SetByScan(line, Quoted("target-cpu"), CPU);
      var features, end2 := SetByScan(SetAttr(line, "target-cpu", CPU), Quoted("target-features"), "");
    }
  }

  lemma EachRetargeted(src: string)
    ensures var r := Join(MapLines(Lines(src)), '\n');
            && |Lines(r)| == |Lines(src)|
            && (forall i :: 0 <= i < |Lines(src)| ==> Retargeted(Lines(src)[i], Lines(r)[i]))
            && (EndsWithNewline(r) <==> EndsWithNewline(src))
  {
    LinesCorrespond(src);
    forall i | 0 <= i < |Lines(src)|
      ensures Retargeted(Lines(src)[i], MapLines(Lines(src))[i])
    {
      IsRetargeted(Lines(src)[i]);
    }
  }

  /** A line that names no target. */
  predicate Neutral(line: string) {
    && !("target datalayout" <= line) && !("target triple" <= line)
    && Find(line, Quoted("target-cpu"), 0) == -1 && Find(line, Quoted("target-features"), 0) == -1
  }

  /** Text without target lines or keys comes back verbatim. */
  lemma NeutralIsVerbatim(src: string)
    requires forall i :: 0 <= i < |Lines(src)| ==> Neutral(Lines(src)[i])
    ensures Join(MapLines(Lines(src)), '\n') == src
  {
    assert MapLines(Lines(src)) == Lines(src);
    JoinSplit(src, '\n');
  }
}
