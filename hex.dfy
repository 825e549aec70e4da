/** `Number.prototype.toString(16)` on non-negative integers: lowercase hex
    digits, no padding, no prefix. */
module HexFormat {
  import opened JsStrings

  predicate IsHexDigit(c: CodeUnit) {
    (0x30 <= c <= 0x39) || (0x61 <= c <= 0x66)
  }

  predicate AllHexDigits(s: JsString) {
    forall i :: 0 <= i < |s| ==> IsHexDigit(s[i])
  }

  /** A hex rendering `toString(16)` can produce: digits only, at least one,
      and no leading `0` unless the whole text is `"0"`. */
  predicate Canonical(s: JsString) {
    |s| >= 1 && AllHexDigits(s) && (|s| > 1 ==> s[0] != 0x30)
  }

  /** The digit for a value below 16: `0`-`9`, then `a`-`f`. */
  function Digit(d: nat): (c: CodeUnit)
    requires d < 16
    ensures IsHexDigit(c)
    ensures (c == 0x30) == (d == 0)
  {
    if d < 10 then 0x30 + d else 0x61 + (d - 10)
  }

  function DigitValue(c: CodeUnit): (d: nat)
    requires IsHexDigit(c)
    ensures d < 16 && Digit(d) == c
  {
    if c <= 0x39 then c - 0x30 else c - 0x61 + 10
  }

  lemma DigitValueOfDigit(d: nat)
    requires d < 16
    ensures DigitValue(Digit(d)) == d
  {
  }

  /** `n.toString(16)`. */
  function ToHex(n: nat): (r: JsString)
    ensures |r| >= 1 && AllHexDigits(r)
    decreases n
  {
    if n < 16 then [Digit(n)] else ToHex(n / 16) + [Digit(n % 16)]
  }

  /** Reading a hex text back: the value of its digits, most significant first. */
  function ParseHex(s: JsString): nat
    requires AllHexDigits(s)
  {
    if s == [] then 0 else ParseHex(s[..|s| - 1]) * 16 + DigitValue(s[|s| - 1])
  }

  lemma {:induction false} ToHexFirstDigit(n: nat)
    ensures (ToHex(n)[0] == 0x30) == (n == 0)
    decreases n
  {
    if n >= 16 {
      ToHexFirstDigit(n / 16);
    }
  }

  /** Every rendering is canonical: no padding. */
  lemma ToHexCanonical(n: nat)
    ensures Canonical(ToHex(n))
  {
    ToHexFirstDigit(n);
  }

  /** Parsing inverts rendering. */
  lemma {:induction false} ParseToHex(n: nat)
    ensures ParseHex(ToHex(n)) == n
    decreases n
  {
    if n < 16 {
      DigitValueOfDigit(n);
    } else {
      var r := ToHex(n);
      assert r[..|r| - 1] == ToHex(n / 16);
      ParseToHex(n / 16);
      DigitValueOfDigit(n % 16);
    }
  }

  lemma {:induction false} ParsePositive(s: JsString)
    requires Canonical(s) && s[0] != 0x30
    ensures ParseHex(s) >= 1
    decreases |s|
  {
    if |s| > 1 {
      var init := s[..|s| - 1];
      assert init[0] == s[0];
      ParsePositive(init);
    } else {
      assert Digit(0) == 0x30;
    }
  }

  /** Rendering inverts parsing on canonical texts, so `ToHex` is a bijection
      between naturals and canonical hex texts. */
  lemma {:induction false} ToHexParse(s: JsString)
    requires Canonical(s)
    ensures ToHex(ParseHex(s)) == s
    decreases |s|
  {
    var init, last := s[..|s| - 1], s[|s| - 1];
    var n := ParseHex(s);
    var d := DigitValue(last);
    assert n == ParseHex(init) * 16 + d;
    if |s| == 1 {
      assert ParseHex(init) == 0;
    } else {
      assert init[0] == s[0];
      assert Canonical(init);
      ParsePositive(init);
      ToHexParse(init);
      assert n / 16 == ParseHex(init) && n % 16 == d;
      assert s == init + [last];
    }
  }

  function Pow16(k: nat): nat {
    if k == 0 then 1 else 16 * Pow16(k - 1)
  }

  /** Values below 16^k render in at most k digits. */
  lemma {:induction false} ToHexLength(n: nat, k: nat)
    requires 1 <= k && n < Pow16(k)
    ensures |ToHex(n)| <= k
    decreases k
  {
    if n >= 16 {
      assert k > 1;
      ToHexLength(n / 16, k - 1);
    }
  }

  /** An unsigned 32-bit value renders in one to eight digits. */
  lemma Uint32HexLength(n: nat)
    requires n < 0x1_0000_0000
    ensures 1 <= |ToHex(n)| <= 8
  {
    assert Pow16(4) == 0x1_0000;
    assert Pow16(8) == 0x1_0000_0000;
    ToHexLength(n, 8);
  }
}
