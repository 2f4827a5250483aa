/** ASCII case mapping, the part of Python's `str.upper()` and `str.lower()`
    that the endpoint relies on when it normalises the sex and the indicator. */
module Ascii {

  predicate IsLowerLetter(c: char) { 'a' <= c <= 'z' }

  predicate IsUpperLetter(c: char) { 'A' <= c <= 'Z' }

  function UpperChar(c: char): char
  {
    if IsLowerLetter(c) then (c as int - 32) as char else c
  }

  function LowerChar(c: char): char
  {
    if IsUpperLetter(c) then (c as int + 32) as char else c
  }

  /** `s.upper()` restricted to ASCII letters. */
  function Upper(s: string): string
  {
    if |s| == 0 then [] else [UpperChar(s[0])] + Upper(s[1..])
  }

  /** `s.lower()` restricted to ASCII letters. */
  function Lower(s: string): string
  {
    if |s| == 0 then [] else [LowerChar(s[0])] + Lower(s[1..])
  }

  /** `d` is `c` or `c` with the case of its ASCII letter flipped. */
  predicate SameCharUpToCase(c: char, d: char)
  {
    || c == d
    || (IsLowerLetter(c) && d as int == c as int - 32)
    || (IsUpperLetter(c) && d as int == c as int + 32)
  }

  /** `a` and `b` differ only in the case of ASCII letters. */
  predicate SameUpToCase(a: string, b: string)
  {
    |a| == |b| && forall i :: 0 <= i < |a| ==> SameCharUpToCase(a[i], b[i])
  }

  predicate HasNoLowerLetter(s: string)
  {
    forall i :: 0 <= i < |s| ==> !IsLowerLetter(s[i])
  }

  predicate HasNoUpperLetter(s: string)
  {
    forall i :: 0 <= i < |s| ==> !IsUpperLetter(s[i])
  }

  /** Strings that differ only in letter case fold to the same string both ways. */
  lemma {:induction false} CaseVariantsFoldAlike(a: string, b: string)
    requires SameUpToCase(a, b)
    ensures Upper(a) == Upper(b) && Lower(a) == Lower(b)
  {
    if |a| > 0 {
      assert SameCharUpToCase(a[0], b[0]);
      assert SameUpToCase(a[1..], b[1..]) by {
        forall i | 0 <= i < |a[1..]| ensures SameCharUpToCase(a[1..][i], b[1..][i]) {
          assert a[1..][i] == a[i + 1] && b[1..][i] == b[i + 1];
        }
      }
      CaseVariantsFoldAlike(a[1..], b[1..]);
    }
  }

  /** Upper-casing only changes the case of letters, and leaves no lower-case letter. */
  lemma {:induction false} UpperIsCaseVariant(s: string)
    ensures SameUpToCase(s, Upper(s)) && HasNoLowerLetter(Upper(s))
  {
    if |s| > 0 {
      UpperIsCaseVariant(s[1..]);
      assert Upper(s) == [UpperChar(s[0])] + Upper(s[1..]);
      forall i | 1 <= i < |s| ensures SameCharUpToCase(s[i], Upper(s)[i]) && !IsLowerLetter(Upper(s)[i]) {
        assert s[1..][i - 1] == s[i];
      }
    }
  }

  /** Lower-casing only changes the case of letters, and leaves no upper-case letter. */
  lemma {:induction false} LowerIsCaseVariant(s: string)
    ensures SameUpToCase(s, Lower(s)) && HasNoUpperLetter(Lower(s))
  {
    if |s| > 0 {
      LowerIsCaseVariant(s[1..]);
      assert Lower(s) == [LowerChar(s[0])] + Lower(s[1..]);
      forall i | 1 <= i < |s| ensures SameCharUpToCase(s[i], Lower(s)[i]) && !IsUpperLetter(Lower(s)[i]) {
        assert s[1..][i - 1] == s[i];
      }
    }
  }

  /** Upper-casing leaves a string without lower-case letters as it is. */
  lemma {:induction false} UpperFixesUpper(t: string)
    requires HasNoLowerLetter(t)
    ensures Upper(t) == t
  {
    if |t| > 0 {
      assert HasNoLowerLetter(t[1..]) by {
        forall i | 0 <= i < |t[1..]| ensures !IsLowerLetter(t[1..][i]) { assert t[1..][i] == t[i + 1]; }
      }
      UpperFixesUpper(t[1..]);
      assert t == [t[0]] + t[1..];
    }
  }

  /** Lower-casing leaves a string without upper-case letters as it is. */
  lemma {:induction false} LowerFixesLower(t: string)
    requires HasNoUpperLetter(t)
    ensures Lower(t) == t
  {
    if |t| > 0 {
      assert HasNoUpperLetter(t[1..]) by {
        forall i | 0 <= i < |t[1..]| ensures !IsUpperLetter(t[1..][i]) { assert t[1..][i] == t[i + 1]; }
      }
      LowerFixesLower(t[1..]);
      assert t == [t[0]] + t[1..];
    }
  }

  /** For an upper-case target such as "M" or "F": `s.upper()` equals it exactly
      when `s` spells it in any mixture of cases. */
  lemma {:induction false} UpperSelects(s: string, t: string)
    requires HasNoLowerLetter(t)
    ensures Upper(s) == t <==> SameUpToCase(s, t)
  {
    UpperIsCaseVariant(s);
    if SameUpToCase(s, t) {
      CaseVariantsFoldAlike(s, t);
      UpperFixesUpper(t);
    }
  }

  /** For a lower-case target such as "length", "weight" or "wfl": `s.lower()`
      equals it exactly when `s` spells it in any mixture of cases. */
  lemma {:induction false} LowerSelects(s: string, t: string)
    requires HasNoUpperLetter(t)
    ensures Lower(s) == t <==> SameUpToCase(s, t)
  {
    LowerIsCaseVariant(s);
    if SameUpToCase(s, t) {
      CaseVariantsFoldAlike(s, t);
      LowerFixesLower(t);
    }
  }
}
