/**
  The decimal and hexadecimal text that the RTT writer produces, and the hex parser of the host.
  Text is a sequence of byte codes.
 */
module Numerals {
  import opened Words

  // --- decimal ----------------------------------------------------------------------------------

  /** Decimal text, most significant digit first, as repeated division builds it from the end. */
  function Decimal(v: nat): (text: seq<u8>)
    ensures text != []
  {
    if v < 10 then [48 + v] else Decimal(v / 10) + [48 + v % 10]
  }

  predicate Digits(text: seq<u8>) {
    forall i :: 0 <= i < |text| ==> 48 <= text[i] <= 57
  }

  /** The number that a string of decimal digits denotes. */
  function DecimalValue(text: seq<u8>): nat
    requires Digits(text)
  {
    if text == [] then 0 else DecimalValue(text[..|text| - 1]) * 10 + (text[|text| - 1] - 48)
  }

  /** A decimal numeral in normal form: digits, at least one, with no leading zero. */
  predicate Normal(text: seq<u8>) {
    text != [] && Digits(text) && (|text| > 1 ==> text[0] != 48)
  }

  /** `Decimal` writes a normal numeral for its argument... */
  lemma {:induction false} DecimalCorrect(v: nat)
    ensures Normal(Decimal(v)) && DecimalValue(Decimal(v)) == v
    ensures Decimal(v)[0] == 48 ==> v == 0
  {
    if v >= 10 {
      DecimalCorrect(v / 10);
      assert Decimal(v)[..|Decimal(v)| - 1] == Decimal(v / 10);
    }
  }

  /** ...and there is no other. */
  lemma {:induction false} DecimalUnique(text: seq<u8>)
    requires Normal(text)
    ensures Decimal(DecimalValue(text)) == text
  {
    var init, last := text[..|text| - 1], text[|text| - 1] - 48;
    if |text| > 1 {
      assert Normal(init);
      DecimalUnique(init);
      DecimalCorrect(DecimalValue(init));
      assert DecimalValue(text) == DecimalValue(init) * 10 + last;
      assert Decimal(DecimalValue(text)) == Decimal(DecimalValue(init)) + [48 + last];
    }
  }

  function Pow10(n: nat): nat {
    if n == 0 then 1 else 10 * Pow10(n - 1)
  }

  lemma {:induction false} DecimalLength(v: nat, n: nat)
    requires n >= 1 && v < Pow10(n)
    ensures |Decimal(v)| <= n
  {
    if v >= 10 {
      assert n > 1;
      DecimalLength(v / 10, n - 1);
    }
  }

  lemma U32Length(v: u32)
    ensures |Decimal(v)| <= 10
  {
    assert Pow10(5) == 100_000;
    assert Pow10(10) == 100_000 * Pow10(5);
    DecimalLength(v, 10);
  }

  // --- hexadecimal ------------------------------------------------------------------------------

  function HexDigit(nibble: nat): u8
    requires nibble < 16
  {
    if nibble < 10 then 48 + nibble else 87 + nibble
  }

  /** The low `k` hex digits of `v`, most significant first. */
  function HexDigits(v: nat, k: nat): (text: seq<u8>)
    ensures |text| == k
  {
    if k == 0 then [] else HexDigits(v / 16, k - 1) + [HexDigit(v % 16)]
  }

  /** What `write_hex` appends: "0x" and eight digits. */
  function HexText(v: u32): seq<u8> {
    [48, 120] + HexDigits(v, 8)
  }

  lemma {:induction false} DigitsAreLower(v: nat, k: nat)
    ensures forall i :: 0 <= i < k ==> 48 <= HexDigits(v, k)[i] <= 57 || 97 <= HexDigits(v, k)[i] <= 102
  {
    if k > 0 {
      DigitsAreLower(v / 16, k - 1);
    }
  }

  /** "0x", and eight digits among 0 to 9 and a to f. */
  lemma HexTextIsLower(v: u32)
    ensures |HexText(v)| == 10 && HexText(v)[0] == 48 && HexText(v)[1] == 120
    ensures forall i :: 2 <= i < 10 ==> 48 <= HexText(v)[i] <= 57 || 97 <= HexText(v)[i] <= 102
  {
    DigitsAreLower(v, 8);
  }

  /** `(a / b) / c == a / (b * c)`. */
  lemma DivDiv(a: nat, b: nat, c: nat)
    requires b >= 1 && c >= 1
    ensures b * c >= 1 && (a / b) / c == a / (b * c)
  {
    MulAtLeast(b, c);
    var q, r0, r1 := (a / b) / c, a % b, (a / b) % c;
    assert a == (q * c + r1) * b + r0;
    assert (q * c + r1) * b == q * (b * c) + r1 * b;
    assert r1 * b + r0 < b * c by {
      MulAtMost(r1 + 1, c, b);
      assert (r1 + 1) * b == r1 * b + b;
    }
    DivMod(a, b * c, q, r1 * b + r0);
  }

  lemma MulAtMost(m: nat, n: nat, d: nat)
    requires m <= n
    ensures m * d <= n * d
  {}

  lemma NextNibble(v: nat, m: nat)
    ensures Shr(v / 16, m) == Shr(v, m + 4)
  {
    assert Pow2(m + 2) == 4 * Pow2(m);
    assert Pow2(m + 4) == 4 * Pow2(m + 2);
    DivDiv(v, 16, Pow2(m));
  }

  /** Digit `i` of `k` is the nibble at bit `4 * (k - 1 - i)`. */
  lemma {:induction false} NibbleAt(v: nat, k: nat, i: nat)
    requires i < k
    ensures HexDigits(v, k)[i] == HexDigit(Shr(v, 4 * (k - 1 - i)) % 16)
  {
    if i < k - 1 {
      NibbleAt(v / 16, k - 1, i);
      var m := 4 * (k - 2 - i);
      NextNibble(v, m);
    } else {
      assert Pow2(0) == 1;
    }
  }

  function HexNibble(b: u8): Option<nat> {
    if 48 <= b <= 57 then Some(b - 48)
    else if 97 <= b <= 102 then Some(b - 87)
    else if 65 <= b <= 70 then Some(b - 55)
    else None
  }

  /** Upper case reads as lower case. */
  lemma CaseIgnored(b: u8)
    requires 65 <= b <= 70
    ensures HexNibble(b) == HexNibble(b + 32)
  {}

  /** `v * 16 + d` on UInt32. */
  function Appended(v: int, d: int): u32 {
    Trunc(v * 16 + d)
  }

  /** The UInt32 that hex digits denote, or nothing if one of them is not a hex digit. */
  function HexValue(text: seq<u8>): Option<u32> {
    if text == [] then Some(0)
    else
      match (HexValue(text[..|text| - 1]), HexNibble(text[|text| - 1]))
      case (Some(v), Some(d)) => Some(Appended(v, d))
      case _ => None
  }

  function Body(token: seq<u8>): seq<u8> {
    if |token| >= 2 && token[0] == 48 && (token[1] == 120 || token[1] == 88) then token[2..] else token
  }

  /** `_hex`: a token with or without "0x"; `None` is the raised error. */
  method ParseHex(token: seq<u8>) returns (r: Option<u32>)
    ensures r == HexValue(if [48, 120] <= token || [48, 88] <= token then token[2..] else token)
  {
    var body := Body(token);
    var v: u32 := 0;
    for i := 0 to |body|
      invariant HexValue(body[..i]) == Some(v)
    {
      assert body[..i + 1][..i] == body[..i];
      var d := body[i];
      if 48 <= d <= 57 {
        v := Appended(v, d - 48);
      } else if 97 <= d <= 102 {
        v := Appended(v, d - 87);
      } else if 65 <= d <= 70 {
        v := Appended(v, d - 55);
      } else {
        BadDigit(body, i);
        return None;
      }
    }
    assert body[..|body|] == body;
    r := Some(v);
  }

  lemma {:induction false} BadDigit(text: seq<u8>, i: nat)
    requires i < |text| && HexNibble(text[i]) == None
    ensures HexValue(text) == None
  {
    if i < |text| - 1 {
      BadDigit(text[..|text| - 1], i);
    }
  }

  /** The number that hex digits denote, without bound; a character that is none counts as zero. */
  function Positional(text: seq<u8>): nat {
    if text == [] then 0
    else
      var d := HexNibble(text[|text| - 1]);
      16 * Positional(text[..|text| - 1]) + if d.Some? then d.value else 0
  }

  /** Parsing fails exactly on a character that is not a hex digit, and otherwise keeps the low 32 bits. */
  lemma {:induction false} HexValueExactly(text: seq<u8>)
    ensures HexValue(text) == None <==>
              exists i :: 0 <= i < |text| && !(48 <= text[i] <= 57 || 65 <= text[i] <= 70 || 97 <= text[i] <= 102)
    ensures HexValue(text).Some? ==> HexValue(text).value == Positional(text) % W32
  {
    if text != [] {
      var init, last := text[..|text| - 1], text[|text| - 1];
      HexValueExactly(init);
      if HexValue(init) == None {
        var i :| 0 <= i < |init| && HexNibble(init[i]) == None;
        assert HexNibble(text[i]) == None;
      } else if HexNibble(last).Some? {
        AppendedWraps(Positional(init), HexNibble(last).value);
        assert forall i :: 0 <= i < |init| ==> text[i] == init[i];
      }
    }
  }

  lemma AppendedWraps(v: nat, d: nat)
    ensures Appended(v % W32, d) == (16 * v + d) % W32
  {
    assert v == v / W32 * W32 + v % W32;
    DivMod16(v / W32, v % W32 * 16 + d);
  }

  lemma DivMod16(q: nat, r: nat)
    ensures (q * 16 * W32 + r) % W32 == r % W32
  {}

  function Pow16(n: nat): nat {
    if n == 0 then 1 else 16 * Pow16(n - 1)
  }

  lemma {:induction false} HexValueOfDigits(v: nat, k: nat)
    requires v < Pow16(k) && v < W32
    ensures HexValue(HexDigits(v, k)) == Some(v)
  {
    if k > 0 {
      var init := HexDigits(v / 16, k - 1);
      OneDigitLess(v, Pow16(k - 1));
      HexValueOfDigits(v / 16, k - 1);
      HexValueExtends(init, v % 16);
      assert HexDigits(v, k) == init + [HexDigit(v % 16)];
    } else {
      assert HexDigits(v, k) == [];
    }
  }

  lemma OneDigitLess(v: nat, p: nat)
    requires v < 16 * p && v < W32
    ensures v / 16 < p && Appended(v / 16, v % 16) == v
  {}

  lemma HexValueExtends(init: seq<u8>, d: nat)
    requires d < 16 && HexValue(init).Some?
    ensures HexValue(init + [HexDigit(d)]) == Some(Appended(HexValue(init).value, d))
  {
    assert (init + [HexDigit(d)])[..|init|] == init;
  }

  /** The host parses what `write_hex` wrote to the number it was given. */
  lemma HexRoundTrip(v: u32)
    ensures HexValue(Body(HexText(v))) == Some(v)
  {
    assert Pow16(4) == 65536;
    assert Pow16(8) == 65536 * Pow16(4);
    assert HexText(v)[2..] == HexDigits(v, 8);
    HexValueOfDigits(v, 8);
  }
}
