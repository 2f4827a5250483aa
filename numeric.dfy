/** Reading a number from the text of a table cell: the conversion that
    `pd.to_numeric(..., errors="coerce")` applies to the key column and that
    `float(...)` applies to an L, M or S cell. Only plain decimal notation is
    recognised: an optional sign, digits, and an optional fraction. */
module Numeric {
  import opened Wrappers

  predicate IsDigit(c: char) { '0' <= c <= '9' }

  predicate AllDigits(s: string)
  {
    forall i :: 0 <= i < |s| ==> IsDigit(s[i])
  }

  function DigitValue(c: char): nat
    requires IsDigit(c)
  {
    c as int - '0' as int
  }

  /** The natural number written by a string of decimal digits ("" reads as 0). */
  function DigitsValue(s: string): nat
    requires AllDigits(s)
  {
    if |s| == 0 then 0 else 10 * DigitsValue(s[..|s| - 1]) + DigitValue(s[|s| - 1])
  }

  function Pow10(n: nat): (r: nat)
    ensures r >= 1
  {
    if n == 0 then 1 else 10 * Pow10(n - 1)
  }

  /** Index of the first '.' in `s`, or |s| when there is none. */
  function DotIndex(s: string): (k: nat)
    ensures k <= |s|
    ensures forall j :: 0 <= j < k ==> s[j] != '.'
    ensures k < |s| ==> s[k] == '.'
  {
    if |s| == 0 then 0
    else if s[0] == '.' then 0
    else 1 + DotIndex(s[1..])
  }

  /** The value of the decimal "<whole>.<frac>". */
  function DecimalValue(whole: string, frac: string): real
    requires AllDigits(whole) && AllDigits(frac)
  {
    DigitsValue(whole) as real + DigitsValue(frac) as real / Pow10(|frac|) as real
  }

  /** The number written with the digits `whole` before the dot and `frac` after
      it, if both are digit strings and not both are empty. */
  function ParseParts(whole: string, frac: string): Option<real>
  {
    if AllDigits(whole) && AllDigits(frac) && |whole| + |frac| > 0 then
      Some(DecimalValue(whole, frac))
    else
      None
  }

  /** An unsigned decimal: "12", "12.5", "12." or ".5"; anything else is None. */
  function ParseUnsigned(s: string): Option<real>
  {
    var k := DotIndex(s);
    if k < |s| then ParseParts(s[..k], s[k + 1..]) else ParseParts(s, [])
  }

  /** A signed decimal number, or None when the text is not one (pandas then
      stores NaN, and `float(...)` raises). */
  function ParseNumber(s: string): Option<real>
  {
    if |s| > 0 && s[0] == '-' then
      match ParseUnsigned(s[1..])
      case Some(x) => Some(-x)
      case None => None
    else if |s| > 0 && s[0] == '+' then ParseUnsigned(s[1..])
    else ParseUnsigned(s)
  }

  function DigitChar(d: nat): (c: char)
    requires d < 10
    ensures IsDigit(c) && DigitValue(c) == d
  {
    ('0' as int + d) as char
  }

  /** The decimal text of a natural number, as a CSV file writes a month count. */
  function ShowNat(n: nat): string
  {
    if n < 10 then [DigitChar(n)] else ShowNat(n / 10) + [DigitChar(n % 10)]
  }

  /** The decimal text of an integer. */
  function ShowInt(i: int): string
  {
    if i < 0 then "-" + ShowNat(-i) else ShowNat(i)
  }

  /** Writing a natural number gives a non-empty digit string that reads back as it. */
  lemma {:induction false} ShowNatDigits(n: nat)
    ensures |ShowNat(n)| > 0 && AllDigits(ShowNat(n)) && DigitsValue(ShowNat(n)) == n
  {
    if n >= 10 {
      ShowNatDigits(n / 10);
      var s := ShowNat(n);
      assert s[..|s| - 1] == ShowNat(n / 10);
    }
  }

  /** A string of digits without a dot reads as its digit value. */
  lemma {:induction false} ParseDigits(s: string)
    requires |s| > 0 && AllDigits(s)
    ensures ParseUnsigned(s) == Some(DigitsValue(s) as real)
  {
    DotIndexOfDigitsOnly(s);
    var none: string := [];
    assert DigitsValue(none) == 0 && Pow10(|none|) == 1;
  }

  /** A digit string has no dot. */
  lemma {:induction false} DotIndexOfDigitsOnly(s: string)
    requires AllDigits(s)
    ensures DotIndex(s) == |s|
  {
  }

  /** Round trip: reading back the decimal text of any integer yields that integer. */
  lemma {:induction false} ParseShowInt(i: int)
    ensures ParseNumber(ShowInt(i)) == Some(i as real)
  {
    var n: nat := if i < 0 then -i else i;
    ShowNatDigits(n);
    ParseDigits(ShowNat(n));
    if i < 0 {
      assert ShowInt(i)[1..] == ShowNat(n);
    } else {
      assert ShowNat(n)[0] != '-' && ShowNat(n)[0] != '+' by { assert IsDigit(ShowNat(n)[0]); }
    }
  }

  /** A length written as "<whole>.<fraction digits>" (e.g. "65.0", "45.5") reads
      as whole + fraction / 10^digits. */
  lemma {:induction false} ParseShowDecimal(whole: nat, frac: string)
    requires AllDigits(frac)
    ensures ParseNumber(ShowNat(whole) + "." + frac)
         == Some(whole as real + DigitsValue(frac) as real / Pow10(|frac|) as real)
  {
    var w := ShowNat(whole);
    ShowNatDigits(whole);
    ParseDigitsDotDigits(w, frac);
    assert DecimalValue(w, frac) == DigitsValue(w) as real + DigitsValue(frac) as real / Pow10(|frac|) as real;
  }

  /** "<digits>.<digits>" with a non-empty whole part reads as their decimal value. */
  lemma {:induction false} ParseDigitsDotDigits(w: string, frac: string)
    requires |w| > 0 && AllDigits(w) && AllDigits(frac)
    ensures ParseNumber(w + "." + frac) == Some(DecimalValue(w, frac))
  {
    var s := w + "." + frac;
    DotIndexOfDigits(w, "." + frac);
    assert s == w + ("." + frac);
    assert s[..|w|] == w && s[|w| + 1..] == frac;
    assert ParseUnsigned(s) == ParseParts(w, frac);
    assert s[0] == w[0] && IsDigit(w[0]);
  }

  /** Digits before the first dot are skipped over by DotIndex. */
  lemma {:induction false} DotIndexOfDigits(w: string, rest: string)
    requires AllDigits(w) && |rest| > 0 && rest[0] == '.'
    ensures DotIndex(w + rest) == |w|
  {
    if |w| > 0 {
      assert (w + rest)[1..] == w[1..] + rest;
      DotIndexOfDigits(w[1..], rest);
    } else {
      assert w + rest == rest;
    }
  }
}
