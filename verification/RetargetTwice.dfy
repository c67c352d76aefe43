/**
  Running the retargeting pass twice. A line is read as the pieces between its quotes: whether a piece is a
  key, a value or neither depends on the pieces before it only through which quotes are still free to open
  a key. That gives the exact condition, on the source line, under which a second pass changes nothing.
 */
module RetargetTwice {
  import opened Words
  import opened Retarget

  // --- the rewriter on pieces -----------------------------------------------------------------------

  /** A piece that a quote ends, after a quote that is free to open a key. */
  predicate IsKey(open: bool, ps: seq<string>, key: string) {
    open && |ps| > 1 && ps[0] == key
  }

  /** After a key: the value never ends. */
  predicate Unclosed(ps: seq<string>) {
    |ps| == 3 && ps[1] == "="
  }

  predicate HasValue(ps: seq<string>) {
    |ps| > 3 && ps[1] == "="
  }

  /** What follows a key and its value. */
  function After(ps: seq<string>): seq<string>
    requires |ps| > 1
  {
    if HasValue(ps) then ps[3..] else ps[1..]
  }

  /** Set the value of each key. `open` says whether the quote before the first piece can open one. */
  function SetPieces(open: bool, ps: seq<string>, key: string, value: string): (r: seq<string>)
    ensures |r| >= |ps| && (|ps| > 0 ==> r[0] == ps[0]) && (|ps| <= 1 ==> r == ps)
    decreases |ps|
  {
    if |ps| <= 1 then ps
    else if !IsKey(open, ps, key) then [ps[0]] + SetPieces(true, ps[1..], key, value)
    else if Unclosed(ps) then ps
    else [key, "=", value] + SetPieces(false, After(ps), key, value)
  }

  /** The text of the pieces, with the quote before them if that is still free. */
  function TextOf(open: bool, ps: seq<string>): string
    requires ps != []
  {
    if open then QUOTE + Join(ps, '"') else Join(ps, '"')
  }

  predicate Plain(ps: seq<string>) {
    forall i :: 0 <= i < |ps| ==> QuoteFree(ps[i])
  }

  // --- finding keys ---------------------------------------------------------------------------------

  /** The pieces of `a` and the line they were scanned from. */
  function Prefixed(a: string, pieces: seq<Piece>): seq<Piece>
    requires pieces != []
  {
    [Piece(a + pieces[0].before, pieces[0].attr)] + pieces[1..]
  }

  lemma Associate(a: string, b: string, q: string, c: string, d: string)
    ensures (a + b) + q + c + d == a + (b + q + c + d)
  {}

  lemma PrefixedText(a: string, pieces: seq<Piece>, q: string, rest: string)
    requires pieces != []
    ensures Text(Prefixed(a, pieces), q, rest) == a + Text(pieces, q, rest)
  {
    Associate(a, pieces[0].before, q, pieces[0].attr, Text(pieces[1..], q, rest));
    assert Prefixed(a, pieces)[1..] == pieces[1..];
  }

  lemma PrefixedSet(a: string, pieces: seq<Piece>, v: string)
    requires pieces != []
    ensures SetAll(Prefixed(a, pieces), v) == Prefixed(a, SetAll(pieces, v))
  {}

  lemma PrefixedScan(a: string, pieces: seq<Piece>, q: string, rest: string)
    requires pieces != [] && Scan(pieces, q, rest)
    requires forall j: nat :: j < |a| ==> !OccursAt(a + Text(pieces, q, rest), q, j)
    ensures Scan(Prefixed(a, pieces), q, rest)
  {
    assert Prefixed(a, pieces)[1..] == pieces[1..];
    var b := pieces[0].before;
    var t := b + q;
    forall j: nat | j < |a|
      ensures !OccursAt(a + t, q, j)
    {
      OccursEarlier(a, b, q, pieces[0].attr + Text(pieces[1..], q, rest), j);
      assert b + q + (pieces[0].attr + Text(pieces[1..], q, rest)) == Text(pieces, q, rest);
    }
    FindAfter(a, t, q);
    assert a + t == (a + b) + q;
  }

  lemma OccursEarlier(a: string, b: string, q: string, more: string, j: nat)
    requires j < |a|
    ensures OccursAt(a + (b + q + more), q, j) == OccursAt(a + (b + q), q, j)
  {
    assert (a + (b + q + more))[j..j + |q|] == (a + (b + q))[j..j + |q|];
  }

  /** Text in which no key starts is skipped. */
  lemma RewriteSkips(a: string, t: string, q: string, v: string)
    requires q != "" && forall j: nat :: j < |a| ==> !OccursAt(a + t, q, j)
    ensures Rewrite(a + t, q, v) == a + Rewrite(t, q, v)
  {
    var pieces, rest := EveryLineScans(t, q);
    SetsOnlyAttributes(pieces, q, v, rest);
    if pieces == [] {
      FindAfter(a, t, q);
      SkipsEnded(a, t, q);
      RewriteEnds(a + t, q, v);
    } else {
      PrefixedScan(a, pieces, q, rest);
      PrefixedText(a, pieces, q, rest);
      SetsOnlyAttributes(Prefixed(a, pieces), q, v, rest);
      PrefixedSet(a, pieces, v);
      PrefixedText(a, SetAll(pieces, v), q, rest);
    }
  }

  lemma SkipsEnded(a: string, t: string, q: string)
    requires Find(a + t, q, 0) == if Find(t, q, 0) == -1 then -1 else |a| + Find(t, q, 0)
    ensures Ended(a + t, q) == Ended(t, q)
  {
    if Find(t, q, 0) != -1 {
      EndAfter(a, t, Find(t, q, 0) + |q|);
    }
  }

  lemma OccursShift(a: string, t: string, q: string, j: nat)
    ensures OccursAt(a + t, q, |a| + j) == OccursAt(t, q, j)
  {
    if j + |q| <= |t| {
      assert (a + t)[|a| + j..|a| + j + |q|] == t[j..j + |q|];
    }
  }

  lemma FindShift(a: string, t: string, q: string, from: nat)
    ensures Find(a + t, q, |a| + from) == if Find(t, q, from) == -1 then -1 else |a| + Find(t, q, from)
    decreases |t| - from
  {
    OccursShift(a, t, q, from);
    if from + |q| <= |t| && !OccursAt(t, q, from) {
      FindShift(a, t, q, from + 1);
    }
  }

  lemma FindAfter(a: string, t: string, q: string)
    requires forall j: nat :: j < |a| ==> !OccursAt(a + t, q, j)
    ensures Find(a + t, q, 0) == if Find(t, q, 0) == -1 then -1 else |a| + Find(t, q, 0)
  {
    FindIsFirst(a + t, q, 0);
    FindIsFirst(t, q, 0);
    var f, g := Find(a + t, q, 0), Find(t, q, 0);
    if g != -1 {
      OccursShift(a, t, q, g);
    }
    if f != -1 {
      OccursShift(a, t, q, f - |a|);
    }
  }

  lemma EndAfter(a: string, t: string, after: nat)
    requires after <= |t|
    ensures AttrEnd(a + t, |a| + after) ==
      if AttrEnd(t, after).None? then None else Some(|a| + AttrEnd(t, after).value)
  {
    assert (a + t)[|a| + after..] == t[after..];
    FindShift(a, t, QUOTE, after + 2);
  }

  lemma StartsWith(s: string, q: string, j: nat)
    requires |q| > 0
    ensures OccursAt(s, q, j) ==> s[j] == q[0]
  {
    if OccursAt(s, q, j) {
      assert s[j] == s[j..j + |q|][0];
    }
  }

  /** The text at `at` is `a`, and the next quote comes right after it. */
  predicate ReadsUpToQuote(s: string, at: nat, a: string) {
    Find(s, QUOTE, at) == at + |a| && s[at..at + |a|] == a
  }

  lemma ReadsIf(s: string, at: nat, a: string)
    requires at + |a| < |s| && s[at..at + |a|] == a && s[at + |a|] == '"' && QuoteFree(a)
    ensures ReadsUpToQuote(s, at, a)
  {
    forall j: nat | at <= j < at + |a|
      ensures !OccursAt(s, QUOTE, j)
    {
      assert s[j] == s[at..at + |a|][j - at] == a[j - at];
      StartsWith(s, QUOTE, j);
    }
    assert s[at + |a|..at + |a| + 1] == QUOTE;
    FindAt(s, QUOTE, at, at + |a|);
  }

  lemma SliceOfSlice(s: string, j: nat, n: nat, from: nat, end: nat)
    requires from <= end < n && j + n <= |s|
    ensures s[j + from..j + end] == s[j..j + n][from..end] && s[j + end] == s[j..j + n][end]
  {
    var t := s[j..j + n];
    var x, y := s[j + from..j + end], t[from..end];
    forall k | 0 <= k < |x|
      ensures x[k] == y[k]
    {
      assert y[k] == t[from + k] == s[j + (from + k)];
    }
    assert x == y;
  }

  lemma KeyReads(s: string, key: string, j: nat)
    requires OccursAt(s, Quoted(key), j) && QuoteFree(key)
    ensures ReadsUpToQuote(s, j + 1, key)
  {
    var q := Quoted(key);
    assert q[1..1 + |key|] == key && q[1 + |key|] == '"';
    SliceOfSlice(s, j, |q|, 1, 1 + |key|);
    ReadsIf(s, j + 1, key);
  }

  /** After `pre` and a quote comes `str` and a quote: a key that starts there is `str`. */
  lemma NotAtString(pre: string, str: string, rest: string, key: string)
    requires QuoteFree(str) && QuoteFree(key) && str != key
    ensures !OccursAt(pre + QUOTE + str + QUOTE + rest, Quoted(key), |pre|)
  {
    var s := pre + QUOTE + str + QUOTE + rest;
    ReadsIf(s, |pre| + 1, str);
    if OccursAt(s, Quoted(key), |pre|) {
      KeyReads(s, key, |pre|);
    }
  }

  /** A piece that is no key, and the quote before it: no key starts there. */
  lemma NoKeyHere(open: bool, p: string, rest: string, key: string)
    requires QuoteFree(p) && QuoteFree(key) && (open ==> p != key)
    ensures var a := (if open then QUOTE else "") + p;
            forall j: nat :: j < |a| ==> !OccursAt(a + (QUOTE + rest), Quoted(key), j)
  {
    var a := (if open then QUOTE else "") + p;
    var s := a + (QUOTE + rest);
    forall j: nat | j < |a|
      ensures !OccursAt(s, Quoted(key), j)
    {
      if open && j == 0 {
        NotAtString("", p, rest, key);
        assert s == "" + QUOTE + p + QUOTE + rest;
      } else {
        StartsWith(s, Quoted(key), j);
        assert s[j] == a[j] && a[j] in p;
      }
    }
  }

  // --- the rewriter on a line is the one on its pieces --------------------------------------------------

  lemma TextFirst(open: bool, ps: seq<string>)
    requires |ps| > 1
    ensures TextOf(open, ps) == ((if open then QUOTE else "") + ps[0]) + TextOf(true, ps[1..])
    ensures TextOf(true, ps[1..]) == QUOTE + Join(ps[1..], '"')
  {
    assert Join(ps, '"') == ps[0] + QUOTE + Join(ps[1..], '"');
  }

  lemma TextKey(ps: seq<string>)
    requires |ps| > 1
    ensures TextOf(true, ps) == Quoted(ps[0]) + Join(ps[1..], '"')
  {
    TextFirst(true, ps);
  }

  lemma TextCons(open: bool, p: string, ps: seq<string>)
    requires |ps| > 0
    ensures TextOf(open, [p] + ps) == ((if open then QUOTE else "") + p) + TextOf(true, ps)
  {
    TextFirst(open, [p] + ps);
    assert ([p] + ps)[1..] == ps;
  }

  lemma JoinCons(p: string, ps: seq<string>)
    requires |ps| > 0
    ensures Join([p] + ps, '"') == p + QUOTE + Join(ps, '"')
  {
    assert ([p] + ps)[1..] == ps;
  }

  lemma JoinTwo(x: string, y: string, ps: seq<string>)
    requires |ps| > 0
    ensures Join([x, y] + ps, '"') == x + QUOTE + (y + QUOTE + Join(ps, '"'))
  {
    assert [x, y] + ps == [x] + ([y] + ps);
    JoinCons(y, ps);
    JoinCons(x, [y] + ps);
  }

  lemma OneOff(x: string, y: string, z: string, ps: seq<string>)
    ensures [x, y, z] + ps == [x] + ([y, z] + ps)
  {}

  lemma JoinThree(x: string, y: string, z: string, ps: seq<string>)
    requires |ps| > 0
    ensures Join([x, y, z] + ps, '"') == x + QUOTE + (y + QUOTE + (z + QUOTE + Join(ps, '"')))
  {
    JoinTwo(y, z, ps);
    JoinCons(x, [y, z] + ps);
    OneOff(x, y, z, ps);
  }

  lemma TextSet(key: string, value: string, ps: seq<string>)
    requires |ps| > 0
    ensures TextOf(true, [key, "=", value] + ps) == Quoted(key) + Attr(value) + Join(ps, '"')
  {
    JoinThree(key, "=", value, ps);
    SetText(key, value, Join(ps, '"'));
  }

  lemma SetText(key: string, value: string, j: string)
    ensures QUOTE + (key + QUOTE + ("=" + QUOTE + (value + QUOTE + j))) == Quoted(key) + Attr(value) + j
  {
    assert Attr(value) + j == "=" + QUOTE + (value + QUOTE + j);
  }

  /** The last piece holds no key. */
  lemma LastPiece(open: bool, p: string, key: string)
    requires QuoteFree(p) && QuoteFree(key)
    ensures Find((if open then QUOTE else "") + p, Quoted(key), 0) == -1
  {
    var s := (if open then QUOTE else "") + p;
    forall j: nat
      ensures !OccursAt(s, Quoted(key), j)
    {
      NoClosing(s, key, j, |s| - |p|);
    }
    FindIsFirst(s, Quoted(key), 0);
  }

  lemma NoClosing(s: string, key: string, j: nat, from: nat)
    requires from <= 1 && from <= |s| && QuoteFree(s[from..])
    ensures !OccursAt(s, Quoted(key), j)
  {
    assert forall i :: from <= i < |s| ==> s[i] == s[from..][i - from] && s[i] != '"';
    Closing(s, key, j);
  }

  lemma Closing(s: string, key: string, j: nat)
    ensures OccursAt(s, Quoted(key), j) ==> j + 2 + |key| <= |s| && s[j + 1 + |key|] == '"'
  {
    if OccursAt(s, Quoted(key), j) {
      assert s[j + 1 + |key|] == s[j..j + |Quoted(key)|][1 + |key|];
    }
  }

  /** How the text goes on after a key. */
  lemma AfterKey(ps: seq<string>)
    requires |ps| > 1 && Plain(ps)
    ensures HasValue(ps) ==> Join(ps[1..], '"') == Attr(ps[2]) + Join(After(ps), '"')
    ensures Unclosed(ps) ==> Join(ps[1..], '"') == "=" + QUOTE + ps[2]
    ensures !HasValue(ps) && !Unclosed(ps) ==> !StartsAttr(Join(ps[1..], '"'))
  {
    var rest := ps[1..];
    if |ps| == 2 {
      assert QuoteFree(rest[0]);
    } else {
      assert Join(rest, '"') == rest[0] + QUOTE + Join(rest[1..], '"');
      if rest[0] == "=" {
        ValueText(ps);
      } else {
        NotEquals(rest[0], Join(rest[1..], '"'));
      }
    }
  }

  lemma ValueText(ps: seq<string>)
    requires |ps| > 2 && ps[1] == "="
    ensures var text := ps[1] + QUOTE + Join(ps[1..][1..], '"');
            if |ps| == 3 then text == "=" + QUOTE + ps[2] else text == Attr(ps[2]) + Join(ps[3..], '"')
  {
    var rest := ps[1..][1..];
    if |ps| > 3 {
      assert rest[1..] == ps[3..];
      assert Join(rest, '"') == ps[2] + QUOTE + Join(ps[3..], '"');
    }
  }

  lemma NotEquals(p: string, more: string)
    requires QuoteFree(p) && p != "="
    ensures !StartsAttr(p + QUOTE + more)
  {
    var s := p + QUOTE + more;
    if |p| > 1 {
      assert s[1] == p[1] && p[1] in p;
    } else if |p| == 1 {
      assert s[0] == p[0];
    } else {
      assert s[0] == '"';
    }
  }

  /** A key whose value never ends stops the rewriter. */
  lemma StopsHere(key: string, p: string, a: string)
    requires QuoteFree(p)
    ensures var s := Quoted(key) + ("=" + QUOTE + p); Rewrite(s, Quoted(key), a) == s
  {
    var s, q := Quoted(key) + ("=" + QUOTE + p), Quoted(key);
    assert s[0..|q|] == q;
    FindAt(s, q, 0, 0);
    assert s[|q|..] == "=" + QUOTE + p;
    forall j: nat | j >= |q| + 2
      ensures !OccursAt(s, QUOTE, j)
    {
      if j < |s| {
        assert s[j] == p[j - |q| - 2];
        StartsWith(s, QUOTE, j);
      }
    }
    FindIsFirst(s, QUOTE, |q| + 2);
    RewriteEnds(s, q, a);
  }

  /** A key without a value gets one. */
  lemma SetBare(q: string, rest: string, a: string)
    requires q != "" && !StartsAttr(rest)
    ensures Rewrite(q + rest, q, a) == q + a + Rewrite(rest, q, a)
  {
    FindSelf(q);
    RewritePiece(Piece("", ""), q, rest, a);
    NoText(q, rest, a);
  }

  lemma NoText(q: string, rest: string, a: string)
    ensures "" + q + "" + rest == q + rest && "" + q + a == q + a
  {}

  /** The rewriter sets exactly the values of the pieces that are keys. */
  lemma {:induction false} RewritesPieces(open: bool, ps: seq<string>, key: string, value: string)
    requires ps != [] && Plain(ps) && QuoteFree(key)
    ensures Rewrite(TextOf(open, ps), Quoted(key), Attr(value)) == TextOf(open, SetPieces(open, ps, key, value))
    decreases |ps|
  {
    if |ps| == 1 {
      LastPiece(open, ps[0], key);
      assert TextOf(open, ps) == (if open then QUOTE else "") + ps[0];
      RewriteEnds(TextOf(open, ps), Quoted(key), Attr(value));
    } else if !IsKey(open, ps, key) {
      RewritesPieces(true, ps[1..], key, value);
      Skips(open, ps, key, value, SetPieces(true, ps[1..], key, value));
    } else if Unclosed(ps) {
      RewritesKey(ps, value);
    } else {
      RewritesKey(ps, value);
      RewritesPieces(false, After(ps), key, value);
      TextSet(key, value, SetPieces(false, After(ps), key, value));
    }
  }

  lemma Skips(open: bool, ps: seq<string>, key: string, value: string, set1: seq<string>)
    requires |ps| > 1 && Plain(ps) && QuoteFree(key) && !IsKey(open, ps, key) && set1 != []
    requires Rewrite(TextOf(true, ps[1..]), Quoted(key), Attr(value)) == TextOf(true, set1)
    ensures Rewrite(TextOf(open, ps), Quoted(key), Attr(value)) == TextOf(open, [ps[0]] + set1)
  {
    TextFirst(open, ps);
    NoKeyHere(open, ps[0], Join(ps[1..], '"'), key);
    RewriteSkips((if open then QUOTE else "") + ps[0], TextOf(true, ps[1..]), Quoted(key), Attr(value));
    TextCons(open, ps[0], set1);
  }

  lemma RewritesKey(ps: seq<string>, value: string)
    requires |ps| > 1 && Plain(ps)
    ensures var r := Rewrite(TextOf(true, ps), Quoted(ps[0]), Attr(value));
            if Unclosed(ps) then r == TextOf(true, ps)
            else r == Quoted(ps[0]) + Attr(value) + Rewrite(Join(After(ps), '"'), Quoted(ps[0]), Attr(value))
  {
    TextKey(ps);
    AfterKey(ps);
    if Unclosed(ps) {
      StopsHere(ps[0], ps[2], Attr(value));
    } else if HasValue(ps) {
      RewriteSetKey(Quoted(ps[0]), ps[2], Join(After(ps), '"'), Attr(value));
      Grouped(Quoted(ps[0]), Attr(ps[2]), Join(After(ps), '"'));
    } else {
      SetBare(Quoted(ps[0]), Join(After(ps), '"'), Attr(value));
    }
  }

  lemma Grouped(a: string, b: string, c: string)
    ensures a + b + c == a + (b + c)
  {}

  // --- what a second setting finds ----------------------------------------------------------------------

  /** Every key that is found has the value already. */
  predicate Steady(open: bool, ps: seq<string>, key: string, value: string)
    decreases |ps|
  {
    if |ps| <= 1 then true
    else if !IsKey(open, ps, key) then Steady(true, ps[1..], key, value)
    else Unclosed(ps) || (HasValue(ps) && ps[2] == value && Steady(false, ps[3..], key, value))
  }

  /** Setting changes nothing exactly then. */
  lemma {:induction false} FixedIffSteady(open: bool, ps: seq<string>, key: string, value: string)
    ensures SetPieces(open, ps, key, value) == ps <==> Steady(open, ps, key, value)
    decreases |ps|
  {
    if |ps| > 1 {
      if !IsKey(open, ps, key) {
        FixedIffSteady(true, ps[1..], key, value);
        assert ps == [ps[0]] + ps[1..];
      } else if HasValue(ps) {
        FixedIffSteady(false, ps[3..], key, value);
        assert ps == [ps[0], ps[1], ps[2]] + ps[3..];
      }
    }
  }

  lemma {:induction false} SetIsSteady(open: bool, ps: seq<string>, key: string, value: string)
    ensures Steady(open, SetPieces(open, ps, key, value), key, value)
    decreases |ps|
  {
    if |ps| > 1 {
      var r := SetPieces(open, ps, key, value);
      if !IsKey(open, ps, key) {
        SetIsSteady(true, ps[1..], key, value);
        assert r[1..] == SetPieces(true, ps[1..], key, value);
      } else if !Unclosed(ps) {
        SetIsSteady(false, After(ps), key, value);
        assert r[3..] == SetPieces(false, After(ps), key, value);
      }
    }
  }

  /** Two keys, the value of the first, and the empty value of the second are told apart. */
  predicate Apart(key: string, value: string, other: string) {
    && key != other && value != key && value != other
    && key != "=" && other != "=" && key != "" && other != ""
  }

  /** Set a key, then clear the other one; `a` and `b` say whether the quote before can open the one or the other. */
  function Both(a: bool, b: bool, ps: seq<string>, key: string, value: string, other: string): (r: seq<string>)
    ensures |r| >= |ps| && (|ps| > 0 ==> r[0] == ps[0]) && (|ps| <= 1 ==> r == ps)
  {
    SetPieces(b, SetPieces(a, ps, key, value), other, "")
  }

  lemma SteadySkip(c: bool, p: string, w: seq<string>, key: string, value: string)
    requires w != [] && !(c && p == key)
    ensures Steady(c, [p] + w, key, value) <==> Steady(true, w, key, value)
  {
    assert ([p] + w)[1..] == w;
  }

  lemma SteadySet(c: bool, w: seq<string>, key: string, value: string)
    requires w != [] && key != "=" && key != value
    ensures Steady(c, [key, "=", value] + w, key, value) <==> Steady(!c, w, key, value)
  {
    var z := [key, "=", value] + w;
    if c {
      assert z[3..] == w;
    } else {
      SteadyPast(false, key, "=", value, w, key, value);
    }
  }

  lemma SteadyPast(c: bool, x: string, y: string, z: string, w: seq<string>, key: string, value: string)
    requires w != [] && !(c && x == key) && y != key && z != key
    ensures Steady(c, [x, y, z] + w, key, value) <==> Steady(true, w, key, value)
  {
    assert [x, y, z] + w == [x] + ([y] + ([z] + w));
    SteadySkip(c, x, [y] + ([z] + w), key, value);
    SteadySkip(true, y, [z] + w, key, value);
    SteadySkip(true, z, w, key, value);
  }

  lemma SetSkip(c: bool, p: string, w: seq<string>, key: string, value: string)
    requires w != [] && !(c && p == key)
    ensures SetPieces(c, [p] + w, key, value) == [p] + SetPieces(true, w, key, value)
  {
    assert ([p] + w)[1..] == w;
  }

  lemma SetPast(c: bool, x: string, y: string, z: string, w: seq<string>, key: string, value: string)
    requires w != [] && !(c && x == key) && y != key && z != key
    ensures SetPieces(c, [x, y, z] + w, key, value) == [x, y, z] + SetPieces(true, w, key, value)
  {
    assert [x, y, z] + w == [x] + ([y] + ([z] + w));
    SetSkip(c, x, [y] + ([z] + w), key, value);
    SetSkip(true, y, [z] + w, key, value);
    SetSkip(true, z, w, key, value);
  }

  /** The value of a key that clearing finds. */
  lemma Cleared(x: string, y: string, w: seq<string>)
    requires w != []
    ensures SetPieces(true, [x, "=", y] + w, x, "") == [x, "=", ""] + SetPieces(false, w, x, "")
  {
    assert ([x, "=", y] + w)[3..] == w;
  }

  /** A value that never ends. */
  lemma Ends(c: bool, x: string, p: string, key: string, value: string)
    requires key != "="
    ensures SetPieces(c, [x, "=", p], key, value) == [x, "=", p]
    ensures Steady(c, [x, "=", p], key, value) && Steady(true, ["=", p], key, value)
    ensures SetPieces(c, ["=", p], key, value) == ["=", p]
  {
    assert [x, "=", p][1..] == ["=", p] && ["=", p][1..] == [p];
  }

  lemma BothSkip(a: bool, b: bool, ps: seq<string>, key: string, value: string, other: string)
    requires |ps| > 1 && !IsKey(a, ps, key) && !IsKey(b, ps, other)
    ensures Both(a, b, ps, key, value, other) == [ps[0]] + Both(true, true, ps[1..], key, value, other)
  {
    var rest := SetPieces(true, ps[1..], key, value);
    assert ([ps[0]] + rest)[1..] == rest;
  }

  lemma BothSet(b: bool, ps: seq<string>, key: string, value: string, other: string)
    requires |ps| > 1 && ps[0] == key && Apart(key, value, other) && !Unclosed(ps)
    ensures Both(true, b, ps, key, value, other)
            == [key, "=", value] + Both(false, true, After(ps), key, value, other)
  {
    SetPast(b, key, "=", value, SetPieces(false, After(ps), key, value), other, "");
  }

  lemma Three(ps: seq<string>)
    requires |ps| >= 3
    ensures ps == [ps[0], ps[1], ps[2]] + ps[3..]
  {}

  /** The other key loses its value; a value that is the first key was given one of its own before. */
  lemma BothClear(a: bool, ps: seq<string>, key: string, value: string, other: string)
    requires |ps| > 1 && ps[0] == other && Apart(key, value, other) && !Unclosed(ps)
    requires HasValue(ps) ==> ps[2] != key
    ensures Both(a, true, ps, key, value, other)
            == [other, "=", ""] + Both(true, false, After(ps), key, value, other)
  {
    if HasValue(ps) {
      Three(ps);
      var w := SetPieces(true, ps[3..], key, value);
      SetPast(a, other, "=", ps[2], ps[3..], key, value);
      assert ([other, "=", ps[2]] + w)[3..] == w;
    } else {
      var w := SetPieces(true, ps[1..], key, value);
      assert ([other] + w)[1..] == w;
    }
  }

  lemma BothTrap(a: bool, ps: seq<string>, key: string, value: string, other: string)
    requires HasValue(ps) && ps[0] == other && ps[2] == key && Apart(key, value, other) && !Unclosed(ps[2..])
    ensures Both(a, true, ps, key, value, other)
            == [other, "=", ""] + (["=", value] + Both(false, true, After(ps[2..]), key, value, other))
  {
    var w := SetPieces(false, After(ps[2..]), key, value);
    assert ps == [other] + (["="] + ps[2..]);
    SetSkip(a, other, ["="] + ps[2..], key, value);
    SetSkip(true, "=", ps[2..], key, value);
    TrapFirst(other, key, value, w);
    Cleared(other, key, ["=", value] + w);
    TrapRest(value, w, other);
  }

  lemma TrapFirst(other: string, key: string, value: string, w: seq<string>)
    ensures [other] + (["="] + ([key, "=", value] + w)) == [other, "=", key] + (["=", value] + w)
  {}

  lemma TrapRest(value: string, w: seq<string>, other: string)
    requires w != [] && value != other
    ensures SetPieces(false, ["=", value] + w, other, "") == ["=", value] + SetPieces(true, w, other, "")
  {
    assert ["=", value] + w == ["="] + ([value] + w);
    SetSkip(false, "=", [value] + w, other, "");
    SetSkip(true, value, w, other, "");
  }

  // --- a second pass ------------------------------------------------------------------------------------

  /** Setting a value anew is not undone by clearing. */
  lemma {:induction false} NotUndone(a: bool, b: bool, z: seq<string>, key: string, value: string, other: string)
    requires Apart(key, value, other) && Steady(b, z, other, "") && !Steady(a, z, key, value)
    ensures Both(a, b, z, key, value, other) != z
    decreases |z|
  {
    if IsKey(a, z, key) {
      BothSet(b, z, key, value, other);
      if HasValue(z) && z[2] == value {
        Three(z);
        SteadyPast(b, key, "=", value, z[3..], other, "");
        NotUndone(false, true, z[3..], key, value, other);
      }
    } else if IsKey(b, z, other) {
      if HasValue(z) {
        Three(z);
        SteadyPast(a, other, "=", "", z[3..], key, value);
        NotUndone(true, false, z[3..], key, value, other);
        BothClear(a, z, key, value, other);
      } else {
        StopsSteady(a, z, key, value);
      }
    } else {
      BothSkip(a, b, z, key, value, other);
      NotUndone(true, true, z[1..], key, value, other);
    }
  }

  lemma StopsSteady(a: bool, z: seq<string>, key: string, value: string)
    requires Unclosed(z) && !(a && z[0] == key) && key != "="
    ensures Steady(a, z, key, value)
  {
    assert |z[1..][1..]| == 1;
  }

  /**
    The condition, read off the source in one scan. `a`, `b` and `c` say whether the quote before the first
    piece can open a key when the first pass sets it, when it clears the other one, and when the second sets it.
   */
  predicate Stays(a: bool, b: bool, c: bool, ps: seq<string>, key: string, value: string, other: string)
    decreases |ps|
  {
    if |ps| <= 1 then true
    else if IsKey(a, ps, key) then
      Unclosed(ps) || Stays(false, true, !c, After(ps), key, value, other)
    else if IsKey(c, ps, key) then
      Unclosed(ps) || (HasValue(ps) && ps[2] == value && Stays(true, true, false, ps[3..], key, value, other))
    else if IsKey(b, ps, other) then
      Unclosed(ps) ||
      if HasValue(ps) && ps[2] == key then
        Unclosed(ps[2..]) || Stays(false, true, true, After(ps[2..]), key, value, other)
      else Stays(true, false, true, After(ps), key, value, other)
    else Stays(true, true, true, ps[1..], key, value, other)
  }

  lemma {:induction false} StaysExactly(a: bool, b: bool, c: bool, ps: seq<string>,
                                        key: string, value: string, other: string)
    requires Apart(key, value, other) && ps != []
    ensures Steady(c, Both(a, b, ps, key, value, other), key, value) <==> Stays(a, b, c, ps, key, value, other)
    decreases |ps|
  {
    if |ps| > 1 {
      if IsKey(a, ps, key) {
        if Unclosed(ps) {
          StopsThere(a, b, c, ps, key, value, other);
        } else {
          StaysExactly(false, true, !c, After(ps), key, value, other);
          BothSet(b, ps, key, value, other);
          SteadySet(c, Both(false, true, After(ps), key, value, other), key, value);
        }
      } else if IsKey(c, ps, key) {
        LeftForSecond(b, ps, key, value, other);
        if HasValue(ps) && ps[2] == value {
          StaysExactly(true, true, false, ps[3..], key, value, other);
        }
      } else if IsKey(b, ps, other) {
        StaysCleared(a, c, ps, key, value, other);
        if !Unclosed(ps) {
          if HasValue(ps) && ps[2] == key {
            if !Unclosed(ps[2..]) {
              StaysExactly(false, true, true, After(ps[2..]), key, value, other);
            }
          } else {
            StaysExactly(true, false, true, After(ps), key, value, other);
          }
        }
      } else {
        StaysExactly(true, true, true, ps[1..], key, value, other);
        BothSkip(a, b, ps, key, value, other);
        SteadySkip(c, ps[0], Both(true, true, ps[1..], key, value, other), key, value);
      }
    }
  }

  /** A value that never ends stops both passes. */
  lemma StopsThere(a: bool, b: bool, c: bool, ps: seq<string>, key: string, value: string, other: string)
    requires Unclosed(ps) && (ps[0] == key || ps[0] == other) && Apart(key, value, other)
    requires (ps[0] == key ==> a || c) && (ps[0] == other ==> b)
    ensures Both(a, b, ps, key, value, other) == ps && Steady(c, ps, key, value)
  {
    assert ps == [ps[0], "=", ps[2]];
    Ends(a, ps[0], ps[2], key, value);
    Ends(b, ps[0], ps[2], other, "");
    Ends(c, ps[0], ps[2], key, value);
  }

  /** A key that the first pass cannot open and the second can. */
  lemma LeftForSecond(b: bool, ps: seq<string>, key: string, value: string, other: string)
    requires |ps| > 1 && ps[0] == key && Apart(key, value, other)
    ensures Steady(true, Both(false, b, ps, key, value, other), key, value) <==>
              Unclosed(ps) || (HasValue(ps) && ps[2] == value
                               && Steady(false, Both(true, true, ps[3..], key, value, other), key, value))
  {
    BothSkip(false, b, ps, key, value, other);
    SeenBySecond(Both(true, true, ps[1..], key, value, other), key, value);
    if |ps| > 2 && ps[1] == "=" {
      BothValue(ps, key, value, other);
    }
  }

  lemma SeenBySecond(w: seq<string>, key: string, value: string)
    requires w != []
    ensures Steady(true, [key] + w, key, value) <==>
              w[0] == "=" && |w| > 1 && (|w| == 2 || (w[1] == value && Steady(false, w[2..], key, value)))
  {
    assert |w| > 2 ==> ([key] + w)[3..] == w[2..];
  }

  lemma BothValue(ps: seq<string>, key: string, value: string, other: string)
    requires |ps| > 2 && ps[1] == "=" && Apart(key, value, other)
    ensures var w := Both(true, true, ps[1..], key, value, other);
            && |w| > 1 && w[0] == "=" && w[1] == ps[2] && (|w| == 2 <==> |ps| == 3)
            && (|ps| > 3 && ps[2] == value ==> w[2..] == Both(true, true, ps[3..], key, value, other))
  {
    assert ps[1..][1..] == ps[2..];
    BothSkip(true, true, ps[1..], key, value, other);
    var v := Both(true, true, ps[2..], key, value, other);
    assert (["="] + v)[2..] == v[1..];
    if |ps| > 3 && ps[2] == value {
      assert ps[2..][1..] == ps[3..];
      BothSkip(true, true, ps[2..], key, value, other);
    }
  }

  /** What clearing the other key leaves for the second pass. */
  lemma StaysCleared(a: bool, c: bool, ps: seq<string>, key: string, value: string, other: string)
    requires |ps| > 1 && ps[0] == other && Apart(key, value, other)
    ensures Steady(c, Both(a, true, ps, key, value, other), key, value) <==>
              (Unclosed(ps) ||
               if HasValue(ps) && ps[2] == key then
                 Unclosed(ps[2..]) ||
                 Steady(true, Both(false, true, After(ps[2..]), key, value, other), key, value)
               else Steady(true, Both(true, false, After(ps), key, value, other), key, value))
  {
    if Unclosed(ps) {
      StopsThere(a, true, c, ps, key, value, other);
    } else if !(HasValue(ps) && ps[2] == key) {
      BothClear(a, ps, key, value, other);
      SteadyPast(c, other, "=", "", Both(true, false, After(ps), key, value, other), key, value);
    } else if Unclosed(ps[2..]) {
      StopsInValue(a, c, ps, key, value, other);
    } else {
      BothTrap(a, ps, key, value, other);
      SteadyTrap(c, Both(false, true, After(ps[2..]), key, value, other), key, value, other);
    }
  }

  lemma SteadyTrap(c: bool, w: seq<string>, key: string, value: string, other: string)
    requires w != [] && Apart(key, value, other)
    ensures Steady(c, [other, "=", ""] + (["=", value] + w), key, value) <==> Steady(true, w, key, value)
  {
    SteadyPast(c, other, "=", "", ["=", value] + w, key, value);
    assert ["=", value] + w == ["="] + ([value] + w);
    SteadySkip(true, "=", [value] + w, key, value);
    SteadySkip(true, value, w, key, value);
  }

  lemma StopsInValue(a: bool, c: bool, ps: seq<string>, key: string, value: string, other: string)
    requires HasValue(ps) && ps[0] == other && ps[2] == key && Unclosed(ps[2..]) && Apart(key, value, other)
    ensures Steady(c, Both(a, true, ps, key, value, other), key, value)
  {
    var p := ps[4];
    assert ps[2..] == [key, "=", p] && ps == [other] + (["="] + [key, "=", p]);
    SetSkip(a, other, ["="] + [key, "=", p], key, value);
    SetSkip(true, "=", [key, "=", p], key, value);
    Ends(true, key, p, key, value);
    assert ps == [other, "=", key] + ["=", p];
    Cleared(other, key, ["=", p]);
    Ends(false, key, p, other, "");
    SteadyPast(c, other, "=", "", ["=", p], key, value);
    Ends(true, key, p, key, value);
  }

  // --- a condition that is easy to see --------------------------------------------------------------------

  /**
    The other key has the first key as its value, and that piece, with the value it may have itself, is
    followed by the first key and one more quote.
   */
  predicate Trap(ps: seq<string>, key: string, other: string) {
    && HasValue(ps) && ps[0] == other && ps[2] == key && !Unclosed(ps[2..])
    && IsKey(true, After(ps[2..]), key)
  }

  predicate NoTrap(ps: seq<string>, key: string, other: string) {
    forall i :: 0 <= i < |ps| ==> !Trap(ps[i..], key, other)
  }

  lemma NoTrapLater(ps: seq<string>, k: nat, key: string, other: string)
    requires NoTrap(ps, key, other) && k <= |ps|
    ensures NoTrap(ps[k..], key, other)
  {
    forall i | 0 <= i < |ps[k..]|
      ensures !Trap(ps[k..][i..], key, other)
    {
      assert ps[k..][i..] == ps[k + i..];
    }
  }

  lemma NoTrapAfter(ps: seq<string>, key: string, other: string)
    requires NoTrap(ps, key, other) && |ps| > 1
    ensures NoTrap(After(ps), key, other)
  {
    NoTrapLater(ps, if HasValue(ps) then 3 else 1, key, other);
  }

  /** Without a trap both passes open the same keys. */
  lemma {:induction false} NoTrapStays(a: bool, b: bool, ps: seq<string>, key: string, value: string, other: string)
    requires NoTrap(ps, key, other)
    ensures Stays(a, b, a, ps, key, value, other)
    decreases |ps|
  {
    if |ps| > 1 {
      assert ps[0..] == ps && !Trap(ps[0..], key, other);
      NoTrapAfter(ps, key, other);
      NoTrapLater(ps, 1, key, other);
      if IsKey(a, ps, key) {
        NoTrapStays(false, true, After(ps), key, value, other);
      } else if IsKey(b, ps, other) {
        if HasValue(ps) && ps[2] == key {
          if !Unclosed(ps[2..]) {
            NoTrapLater(ps, 2, key, other);
            NoTrapAfter(ps[2..], key, other);
            NoTrapStays(true, true, After(ps[2..]), key, value, other);
          }
        } else {
          NoTrapStays(true, false, After(ps), key, value, other);
        }
      } else {
        NoTrapStays(true, true, ps[1..], key, value, other);
      }
    }
  }

  /** The quotes pair up, and no key stands, unquoted, between two quoted strings. */
  predicate Aligned(ps: seq<string>, key: string, other: string) {
    |ps| % 2 == 1 && forall i :: 0 < i < |ps| - 1 && i % 2 == 0 ==> ps[i] != key && ps[i] != other
  }

  /** Such a line has no trap: of two keys an odd number of pieces apart, one is not quoted. */
  lemma AlignedHasNoTrap(ps: seq<string>, key: string, other: string)
    requires Aligned(ps, key, other)
    ensures NoTrap(ps, key, other)
  {
    forall i | 0 <= i < |ps|
      ensures !Trap(ps[i..], key, other)
    {
      NoTrapAt(ps, i, key, other);
    }
  }

  lemma NoTrapAt(ps: seq<string>, i: nat, key: string, other: string)
    requires Aligned(ps, key, other) && i < |ps|
    ensures !Trap(ps[i..], key, other)
  {
    var t := ps[i..];
    if |t| > 3 {
      var k := if HasValue(t[2..]) then 5 else 3;
      assert After(t[2..]) == ps[i + k..];
      assert t[0] == ps[i] && t[2] == ps[i + 2];
    }
  }

  // --- the whole pass -------------------------------------------------------------------------------------

  const CPU_KEY := "target-cpu"
  const FEATURES_KEY := "target-features"

  function Pieces(line: string): (ps: seq<string>)
    ensures ps != [] && Plain(ps)
  {
    Split(line, '"')
  }

  predicate TargetLine(line: string) {
    "target datalayout" <= line || "target triple" <= line
  }

  /** The line is replaced as a whole, or the scan of its pieces says so. */
  predicate Stable(line: string) {
    TargetLine(line) || Stays(false, false, false, Pieces(line), CPU_KEY, CPU, FEATURES_KEY)
  }

  lemma {:induction false} SetPlain(open: bool, ps: seq<string>, key: string, value: string)
    requires Plain(ps) && QuoteFree(value)
    ensures Plain(SetPieces(open, ps, key, value))
    decreases |ps|
  {
    if |ps| > 1 {
      if IsKey(open, ps, key) {
        SetPlain(false, After(ps), key, value);
      } else {
        SetPlain(true, ps[1..], key, value);
      }
    }
  }

  lemma PiecesSet(line: string, key: string, value: string)
    requires QuoteFree(key) && QuoteFree(value)
    ensures Pieces(SetAttr(line, key, value)) == SetPieces(false, Pieces(line), key, value)
  {
    JoinSplit(line, '"');
    RewritesPieces(false, Pieces(line), key, value);
    SetPlain(false, Pieces(line), key, value);
    SplitJoin(SetPieces(false, Pieces(line), key, value), '"');
  }

  lemma PiecesTell(x: string, y: string)
    requires Pieces(x) == Pieces(y)
    ensures x == y
  {
    JoinSplit(x, '"');
    JoinSplit(y, '"');
  }

  /** Whether a line starts with a text without quotes, its first piece tells. */
  lemma StartTells(line: string, start: string)
    requires QuoteFree(start)
    ensures start <= line <==> start <= Pieces(line)[0]
  {
    var ps := Pieces(line);
    JoinSplit(line, '"');
    if |ps| > 1 {
      StartInFirst(ps[0], Join(ps[1..], '"'), start);
    }
  }

  lemma StartInFirst(p: string, rest: string, start: string)
    requires QuoteFree(start)
    ensures start <= p + QUOTE + rest <==> start <= p
  {
    var s := p + QUOTE + rest;
    assert start <= s ==> forall k :: 0 <= k < |start| ==> start[k] == s[k] && s[k] != '"';
    assert s[|p|] == '"';
  }

  lemma SameStart(x: string, y: string)
    requires Pieces(x)[0] == Pieces(y)[0]
    ensures TargetLine(x) == TargetLine(y)
  {
    StartTells(x, "target datalayout");
    StartTells(y, "target datalayout");
    StartTells(x, "target triple");
    StartTells(y, "target triple");
  }

  lemma Values()
    ensures QuoteFree(CPU) && QuoteFree("") && QuoteFree(CPU_KEY) && QuoteFree(FEATURES_KEY)
    ensures Apart(CPU_KEY, CPU, FEATURES_KEY)
  {
    assert CPU[0] == 'c' && CPU_KEY[0] == 't' && FEATURES_KEY[0] == 't';
    assert CPU_KEY[7] == 'c' && FEATURES_KEY[7] == 'f';
  }

  /** One pass over a line that is not replaced. */
  lemma PiecesPass(line: string)
    requires !TargetLine(line)
    ensures Pieces(RetargetLine(line)) == Both(false, false, Pieces(line), CPU_KEY, CPU, FEATURES_KEY)
    ensures !TargetLine(RetargetLine(line))
  {
    Values();
    PiecesSet(line, CPU_KEY, CPU);
    PiecesSet(SetAttr(line, CPU_KEY, CPU), FEATURES_KEY, "");
    SameStart(line, RetargetLine(line));
  }

  lemma TargetLinesStay()
    ensures TargetLine(LAYOUT_LINE) && TargetLine(TRIPLE_LINE) && !("target datalayout" <= TRIPLE_LINE)
  {
    assert LAYOUT_LINE[..17] == "target datalayout";
    assert TRIPLE_LINE[..13] == "target triple";
    assert TRIPLE_LINE[7] == 't' && "target datalayout"[7] == 'd';
  }

  /** A second pass over a line changes nothing exactly if the line is stable. */
  lemma LineTwiceExactly(line: string)
    ensures RetargetLine(RetargetLine(line)) == RetargetLine(line) <==> Stable(line)
  {
    TargetLinesStay();
    if !TargetLine(line) {
      var once := RetargetLine(line);
      PiecesPass(line);
      PiecesPass(once);
      PassFixed(Pieces(line));
      if Pieces(RetargetLine(once)) == Pieces(once) {
        PiecesTell(RetargetLine(once), once);
      }
    }
  }

  lemma PassFixed(ps: seq<string>)
    requires ps != []
    ensures var z := Both(false, false, ps, CPU_KEY, CPU, FEATURES_KEY);
            Both(false, false, z, CPU_KEY, CPU, FEATURES_KEY) == z
            <==> Stays(false, false, false, ps, CPU_KEY, CPU, FEATURES_KEY)
  {
    Values();
    var z := Both(false, false, ps, CPU_KEY, CPU, FEATURES_KEY);
    StaysExactly(false, false, false, ps, CPU_KEY, CPU, FEATURES_KEY);
    SetIsSteady(false, SetPieces(false, ps, CPU_KEY, CPU), FEATURES_KEY, "");
    FixedIffSteady(false, z, FEATURES_KEY, "");
    FixedIffSteady(false, z, CPU_KEY, CPU);
    if !Steady(false, z, CPU_KEY, CPU) {
      NotUndone(false, false, z, CPU_KEY, CPU, FEATURES_KEY);
    }
  }

  /** In particular on every line without a trap. */
  lemma LineTwice(line: string)
    requires NoTrap(Pieces(line), CPU_KEY, FEATURES_KEY)
    ensures RetargetLine(RetargetLine(line)) == RetargetLine(line)
  {
    NoTrapStays(false, false, Pieces(line), CPU_KEY, CPU, FEATURES_KEY);
    LineTwiceExactly(line);
  }

  lemma JoinsTell(a: seq<string>, b: seq<string>)
    requires a != [] && b != [] && Lines(Join(a, '\n')) == a && Lines(Join(b, '\n')) == b
    ensures Join(a, '\n') == Join(b, '\n') <==> a == b
  {}

  lemma LinesTwice(lines: seq<string>)
    ensures MapLines(MapLines(lines)) == MapLines(lines) <==> forall i :: 0 <= i < |lines| ==> Stable(lines[i])
  {
    var once := MapLines(lines);
    forall i | 0 <= i < |lines|
      ensures MapLines(once)[i] == once[i] <==> Stable(lines[i])
    {
      LineTwiceExactly(lines[i]);
    }
    if forall i :: 0 <= i < |lines| ==> Stable(lines[i]) {
      assert MapLines(once) == once;
    }
  }

  /** The whole pass is idempotent on a text exactly if each of its lines is stable. */
  lemma TextTwiceExactly(src: string)
    ensures var once := Join(MapLines(Lines(src)), '\n');
            Join(MapLines(Lines(once)), '\n') == once <==> forall i :: 0 <= i < |Lines(src)| ==> Stable(Lines(src)[i])
  {
    var once := MapLines(Lines(src));
    LinesCorrespond(src);
    LinesCorrespond(Join(once, '\n'));
    JoinsTell(MapLines(once), once);
    LinesTwice(Lines(src));
  }

  /** On a text of lines without traps the whole pass is idempotent. */
  lemma TextTwice(src: string)
    requires forall i :: 0 <= i < |Lines(src)| ==> NoTrap(Pieces(Lines(src)[i]), CPU_KEY, FEATURES_KEY)
    ensures var once := Join(MapLines(Lines(src)), '\n'); Join(MapLines(Lines(once)), '\n') == once
  {
    var lines := Lines(src);
    forall i | 0 <= i < |lines|
      ensures Stable(lines[i])
    {
      NoTrapStays(false, false, Pieces(lines[i]), CPU_KEY, CPU, FEATURES_KEY);
    }
    TextTwiceExactly(src);
  }

  // --- a line with a stray quote --------------------------------------------------------------------------

  /** `"k2"="k1"k1"`: a key as the value of the other one, and then its text again with one more quote. */
  function Stray(k1: string, k2: string): seq<string> {
    ["", k2, "=", k1, k1, ""]
  }

  function StraySet(k1: string, v1: string, k2: string): seq<string> {
    ["", k2, "=", "", "=", v1, k1, ""]
  }

  lemma StrayOnce(k1: string, v1: string, k2: string)
    requires Apart(k1, v1, k2)
    ensures Both(false, false, Stray(k1, k2), k1, v1, k2) == StraySet(k1, v1, k2)
  {
    var rest := [k2, "=", k1, k1, ""];
    assert Stray(k1, k2)[1..] == rest;
    BothSkip(false, false, Stray(k1, k2), k1, v1, k2);
    BothTrap(true, rest, k1, v1, k2);
    assert After(rest[2..]) == [k1, ""];
    assert [k1, ""][1..] == [""];
    BothSkip(false, true, [k1, ""], k1, v1, k2);
  }

  lemma StrayAgain(k1: string, v1: string, k2: string)
    requires Apart(k1, v1, k2)
    ensures Both(false, false, StraySet(k1, v1, k2), k1, v1, k2) == ["", k2, "=", "", "=", v1, k1, "=", v1, ""]
  {
    var rest := [k2, "=", "", "=", v1, k1, ""];
    assert StraySet(k1, v1, k2)[1..] == rest;
    BothSkip(false, false, StraySet(k1, v1, k2), k1, v1, k2);
    BothClear(true, rest, k1, v1, k2);
    assert After(rest) == ["=", v1, k1, ""];
    StrayRest(k1, v1, k2);
  }

  lemma StrayRest(k1: string, v1: string, k2: string)
    requires Apart(k1, v1, k2)
    ensures Both(true, false, ["=", v1, k1, ""], k1, v1, k2) == ["=", v1, k1, "=", v1, ""]
  {
    assert ["=", v1, k1, ""][1..] == [v1, k1, ""] && [v1, k1, ""][1..] == [k1, ""] && After([k1, ""]) == [""];
    BothSkip(true, false, ["=", v1, k1, ""], k1, v1, k2);
    BothSkip(true, true, [v1, k1, ""], k1, v1, k2);
    BothSet(true, [k1, ""], k1, v1, k2);
  }

  lemma {:induction false} AttrAtEnd(ps: seq<string>, v: string)
    requires ps != []
    ensures Join(ps + ["=", v, ""], '"') == Join(ps + [""], '"') + Attr(v)
    decreases |ps|
  {
    if |ps| == 1 {
      AttrAfter(ps[0], v);
      assert ps == [ps[0]];
    } else {
      var rest := ps[1..];
      AttrAtEnd(rest, v);
      JoinCons(ps[0], rest + ["=", v, ""]);
      JoinCons(ps[0], rest + [""]);
      ConsOf(ps, ["=", v, ""]);
      ConsOf(ps, [""]);
    }
  }

  lemma ConsOf(ps: seq<string>, t: seq<string>)
    requires ps != []
    ensures ps + t == [ps[0]] + (ps[1..] + t)
  {}

  lemma AttrAfter(p: string, v: string)
    ensures Join([p] + ["=", v, ""], '"') == Join([p] + [""], '"') + Attr(v)
  {
    assert [p] + ["=", v, ""] == [p, "=", v] + [""];
    JoinThree(p, "=", v, [""]);
    JoinCons(p, [""]);
    assert Attr(v) == "=" + QUOTE + (v + QUOTE + "");
  }

  lemma StrayText(k1: string, k2: string)
    ensures Join(Stray(k1, k2), '"') == Quoted(k2) + "=" + Quoted(k1) + k1 + QUOTE
  {
    assert Stray(k1, k2) == ["", k2, "="] + [k1, k1, ""] && [k1, k1, ""] == [k1, k1] + [""];
    JoinThree("", k2, "=", [k1, k1, ""]);
    JoinTwo(k1, k1, [""]);
    StrayLine(k1, k2);
  }

  lemma StrayLine(k1: string, k2: string)
    ensures "" + QUOTE + (k2 + QUOTE + ("=" + QUOTE + (k1 + QUOTE + (k1 + QUOTE + ""))))
            == Quoted(k2) + "=" + Quoted(k1) + k1 + QUOTE
  {
    var e := QUOTE + (k1 + QUOTE + (k1 + QUOTE + ""));
    assert e == Quoted(k1) + k1 + QUOTE;
  }

  /** The line `"target-features"="target-cpu"target-cpu"` grows when the pass runs again. */
  lemma StrayQuoteGrows()
    ensures var line := Quoted(FEATURES_KEY) + "=" + Quoted(CPU_KEY) + CPU_KEY + QUOTE;
            RetargetLine(RetargetLine(line)) == RetargetLine(line) + Attr(CPU) && !Stable(line)
  {
    Values();
    var line := Quoted(FEATURES_KEY) + "=" + Quoted(CPU_KEY) + CPU_KEY + QUOTE;
    var once := RetargetLine(line);
    StrayText(CPU_KEY, FEATURES_KEY);
    SplitJoin(Stray(CPU_KEY, FEATURES_KEY), '"');
    StartTells(line, "target datalayout");
    StartTells(line, "target triple");
    PiecesPass(line);
    PiecesPass(once);
    StrayOnce(CPU_KEY, CPU, FEATURES_KEY);
    StrayAgain(CPU_KEY, CPU, FEATURES_KEY);
    JoinSplit(once, '"');
    JoinSplit(RetargetLine(once), '"');
    StrayGrown(CPU_KEY, CPU, FEATURES_KEY);
    LineTwiceExactly(line);
  }

  lemma StrayGrown(k1: string, v1: string, k2: string)
    ensures Join(["", k2, "=", "", "=", v1, k1, "=", v1, ""], '"') == Join(StraySet(k1, v1, k2), '"') + Attr(v1)
  {
    var ps := ["", k2, "=", "", "=", v1, k1];
    AttrAtEnd(ps, v1);
    assert ps + ["=", v1, ""] == ["", k2, "=", "", "=", v1, k1, "=", v1, ""] && ps + [""] == StraySet(k1, v1, k2);
  }
}
