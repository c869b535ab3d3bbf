/** String helpers with the meaning Python gives them: prefixes, the `in` operator on
    strings, and the decimal rendering `str(n)` of a non-negative integer. */
module Strings {

  predicate IsPrefix(p: string, s: string) {
    |p| <= |s| && s[..|p|] == p
  }

  predicate EndsWith(s: string, c: char) {
    |s| > 0 && s[|s| - 1] == c
  }

  /** Python's `needle in s` on strings: `needle` occurs in `s` as a contiguous block. */
  predicate Contains(s: string, needle: string)
    decreases |s|
  {
    IsPrefix(needle, s) || (|s| > 0 && Contains(s[1..], needle))
  }

  /** A string contains only strings no longer than itself, and of those of equal
      length only itself. */
  lemma {:induction false} ContainsLength(s: string, needle: string)
    requires Contains(s, needle)
    ensures |needle| <= |s|
    ensures |needle| == |s| ==> s == needle
    decreases |s|
  {
    if !IsPrefix(needle, s) {
      ContainsLength(s[1..], needle);
    }
  }

  /** A block found in a suffix of `s` is found in `s`. */
  lemma {:induction false} ContainsInSuffix(s: string, k: nat, needle: string)
    requires k <= |s| && Contains(s[k..], needle)
    ensures Contains(s, needle)
    decreases k
  {
    if k > 0 {
      assert s[1..][k - 1..] == s[k..];
      ContainsInSuffix(s[1..], k - 1, needle);
    }
  }

  /** Every string contains each of its prefixes. */
  lemma PrefixIsContained(p: string, s: string)
    requires IsPrefix(p, s)
    ensures Contains(s, p)
  {
  }

  /** `needle in s` holds exactly when `needle` starts at some position of `s`. */
  lemma {:induction false} ContainsIffOccurs(s: string, needle: string)
    ensures Contains(s, needle) <==> exists i :: 0 <= i <= |s| && IsPrefix(needle, s[i..])
    decreases |s|
  {
    if Contains(s, needle) {
      if IsPrefix(needle, s) {
        assert s[0..] == s;
      } else {
        ContainsIffOccurs(s[1..], needle);
        var i :| 0 <= i <= |s[1..]| && IsPrefix(needle, s[1..][i..]);
        assert s[1..][i..] == s[i + 1..];
      }
    }
    if exists i :: 0 <= i <= |s| && IsPrefix(needle, s[i..]) {
      var i :| 0 <= i <= |s| && IsPrefix(needle, s[i..]);
      PrefixIsContained(needle, s[i..]);
      ContainsInSuffix(s, i, needle);
    }
  }

  predicate IsDigit(c: char) {
    '0' <= c <= '9'
  }

  predicate AllDigits(s: string) {
    forall i :: 0 <= i < |s| ==> IsDigit(s[i])
  }

  function DigitChar(d: nat): (c: char)
    requires d < 10
    ensures IsDigit(c)
  {
    ('0' as int + d) as char
  }

  function DigitValue(c: char): (d: nat)
    requires IsDigit(c)
    ensures d < 10 && DigitChar(d) == c
  {
    c as int - '0' as int
  }

  /** Python's `str(n)` for n >= 0: the decimal digits, most significant first. */
  function NatToString(n: nat): (s: string)
    ensures |s| > 0 && AllDigits(s)
    ensures |s| > 1 ==> s[0] != '0'
    decreases n
  {
    if n < 10 then [DigitChar(n)] else NatToString(n / 10) + [DigitChar(n % 10)]
  }

  /** Python's `int(s)` on a string of decimal digits. */
  function ParseDigits(s: string): nat
    requires AllDigits(s)
  {
    if s == [] then 0 else ParseDigits(s[..|s| - 1]) * 10 + DigitValue(s[|s| - 1])
  }

  /** Reading back the decimal rendering of `n` gives `n`. */
  lemma {:induction false} ParseNatToString(n: nat)
    ensures ParseDigits(NatToString(n)) == n
    decreases n
  {
    if n >= 10 {
      var s := NatToString(n);
      assert s[..|s| - 1] == NatToString(n / 10);
      ParseNatToString(n / 10);
    }
  }

  /** A digit string that does not start with '0' stands for a positive number. */
  lemma {:induction false} ParseDigitsPositive(s: string)
    requires |s| > 0 && AllDigits(s) && s[0] != '0'
    ensures ParseDigits(s) > 0
    decreases |s|
  {
    if |s| > 1 {
      ParseDigitsPositive(s[..|s| - 1]);
    }
  }

  /** A digit string without a leading zero is the decimal rendering of the number it
      stands for, so `str(int(s)) == s` for such strings. */
  lemma {:induction false} NatToStringParse(s: string)
    requires |s| > 0 && AllDigits(s) && (|s| > 1 ==> s[0] != '0')
    ensures NatToString(ParseDigits(s)) == s
    decreases |s|
  {
    if |s| > 1 {
      var p := s[..|s| - 1];
      NatToStringParse(p);
      ParseDigitsPositive(p);
      var n := ParseDigits(s);
      var d := DigitValue(s[|s| - 1]);
      assert n / 10 == ParseDigits(p) && n % 10 == d;
      assert s == p + [s[|s| - 1]];
    }
  }

  /** Distinct numbers have distinct decimal renderings. */
  lemma NatToStringInjective(m: nat, n: nat)
    requires NatToString(m) == NatToString(n)
    ensures m == n
  {
    ParseNatToString(m);
    ParseNatToString(n);
  }
}
