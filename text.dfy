/**
 * The string primitives the analyzer relies on: Python's `str.strip()` with
 * no argument, `str.upper()` restricted to ASCII letters, and the decimal
 * text of a non-negative int as an f-string writes it.
 */
module Text {

  /**
   * The characters for which Python's `str.isspace()` holds, which is the set
   * `str.strip()` removes when called without an argument.
   */
  predicate IsSpace(c: char)
  {
    if c <= ' ' then
      '\t' <= c <= '\r' || '\U{1C}' <= c     // tab to carriage return; the information separators and space
    else if c < '\U{85}' then
      false                                     // printable ASCII and DEL
    else
      || c == '\U{85}' || c == '\U{A0}' || c == '\U{1680}'
      || '\U{2000}' <= c <= '\U{200A}'
      || c == '\U{2028}' || c == '\U{2029}' || c == '\U{202F}' || c == '\U{205F}' || c == '\U{3000}'
  }

  /** `s.lstrip()`: drop the leading whitespace. */
  function TrimStart(s: string): (r: string)
    ensures |r| <= |s| && r == s[|s| - |r|..]
    ensures forall i :: 0 <= i < |s| - |r| ==> IsSpace(s[i])
    ensures r == [] || !IsSpace(r[0])
  {
    if s != [] && IsSpace(s[0]) then TrimStart(s[1..]) else s
  }

  /** `s.rstrip()`: drop the trailing whitespace. */
  function TrimEnd(s: string): (r: string)
    ensures |r| <= |s| && r == s[..|r|]
    ensures forall i :: |r| <= i < |s| ==> IsSpace(s[i])
    ensures r == [] || !IsSpace(r[|r| - 1])
  {
    if s != [] && IsSpace(s[|s| - 1]) then TrimEnd(s[..|s| - 1]) else s
  }

  /** `lstrip` stops at the first non-whitespace character. */
  lemma TrimStartAt(s: string, i: nat)
    requires i <= |s|
    requires forall p :: 0 <= p < i ==> IsSpace(s[p])
    requires i == |s| || !IsSpace(s[i])
    ensures TrimStart(s) == s[i..]
  {
    var r := TrimStart(s);
    var i' := |s| - |r|;
    assert i' < |s| ==> r[0] == s[i'];
    assert i' == i;
  }

  /** `rstrip` stops after the last non-whitespace character. */
  lemma TrimEndAt(s: string, j: nat)
    requires j <= |s|
    requires forall p :: j <= p < |s| ==> IsSpace(s[p])
    requires j == 0 || !IsSpace(s[j - 1])
    ensures TrimEnd(s) == s[..j]
  {
    var r := TrimEnd(s);
    assert |r| > 0 ==> r[|r| - 1] == s[|r| - 1];
    assert |r| == j;
  }

  /** `s.strip()`. */
  function Strip(s: string): string
  {
    TrimEnd(TrimStart(s))
  }

  /**
   * The result of `strip` is the one infix s[i..j] with only whitespace
   * outside it and none at either of its ends.
   */
  lemma StripIsUniqueInfix(s: string, i: nat, j: nat)
    requires i <= j <= |s|
    requires forall p :: 0 <= p < i ==> IsSpace(s[p])
    requires forall p :: j <= p < |s| ==> IsSpace(s[p])
    requires i == j || (!IsSpace(s[i]) && !IsSpace(s[j - 1]))
    ensures Strip(s) == if i == j then [] else s[i..j]
  {
    if i == j {
      TrimStartAt(s, |s|);
    } else {
      TrimEndOfSuffix(s, i, j);
      TrimStartAt(s, i);
    }
  }

  /** `rstrip` applied to the part of s from i keeps it up to the last non-whitespace character. */
  lemma TrimEndOfSuffix(s: string, i: nat, j: nat)
    requires i < j <= |s|
    requires forall p :: j <= p < |s| ==> IsSpace(s[p])
    requires !IsSpace(s[j - 1])
    ensures TrimEnd(s[i..]) == s[i..j]
  {
    var a := s[i..];
    forall p | j - i <= p < |a| ensures IsSpace(a[p]) {
      assert a[p] == s[i + p];
    }
    assert a[j - i - 1] == s[j - 1];
    TrimEndAt(a, j - i);
    assert a[..j - i] == s[i..j];
  }

  /** r occurs in s starting at index i. */
  predicate IsInfixAt(r: string, s: string, i: nat)
  {
    i + |r| <= |s| && s[i..i + |r|] == r
  }

  /** The result of `strip` starts where `lstrip` stops. */
  lemma StripIsInfix(s: string)
    ensures IsInfixAt(Strip(s), s, |s| - |TrimStart(s)|)
  {
    var a := TrimStart(s);
    var r := TrimEnd(a);
    var i := |s| - |a|;
    PrefixOfSuffix(s, i, |r|);
  }

  lemma PrefixOfSuffix(s: string, i: nat, n: nat)
    requires i + n <= |s|
    ensures s[i..][..n] == s[i..i + n]
  {
  }

  /** The result of `strip` has no whitespace at either end. */
  lemma StripEnds(s: string)
    ensures Strip(s) == [] || (!IsSpace(Strip(s)[0]) && !IsSpace(Strip(s)[|Strip(s)| - 1]))
  {
    var a := TrimStart(s);
    var r := TrimEnd(a);
    if r != [] {
      assert r[0] == a[0];
    }
  }

  /** The result of `strip` has no whitespace at either end and lies within s. */
  lemma StripShape(s: string)
    ensures |Strip(s)| <= |s|
    ensures Strip(s) == [] || (!IsSpace(Strip(s)[0]) && !IsSpace(Strip(s)[|Strip(s)| - 1]))
    ensures exists i :: IsInfixAt(Strip(s), s, i)
  {
    StripIsInfix(s);
    StripEnds(s);
  }

  /** Stripping twice is the same as stripping once. */
  lemma StripIdempotent(s: string)
    ensures Strip(Strip(s)) == Strip(s)
  {
    var r := Strip(s);
    StripShape(s);
    StripIsUniqueInfix(r, 0, |r|);
    assert r[0..|r|] == r;
  }

  /** `c.upper()` for ASCII letters; every other character is left as it is. */
  function UpperChar(c: char): char
  {
    if 'a' <= c <= 'z' then (c as int - 32) as char else c
  }

  /** `s.upper()`, character by character, for ASCII letters. */
  function Upper(s: string): (r: string)
    ensures |r| == |s|
    ensures forall i :: 0 <= i < |s| ==> r[i] == UpperChar(s[i])
  {
    if s == [] then [] else [UpperChar(s[0])] + Upper(s[1..])
  }

  /** No lower-case ASCII letter survives `upper`, and upper-casing twice changes nothing. */
  lemma UpperIsUpper(s: string)
    ensures forall i :: 0 <= i < |s| ==> !('a' <= Upper(s)[i] <= 'z')
    ensures Upper(Upper(s)) == Upper(s)
  {
  }

  /** A string with no lower-case ASCII letter is its own upper case. */
  lemma UpperKeeps(s: string)
    requires forall i :: 0 <= i < |s| ==> !('a' <= s[i] <= 'z')
    ensures Upper(s) == s
  {
  }

  /** `upper` works character by character, so it distributes over concatenation. */
  lemma UpperAppend(a: string, b: string)
    ensures Upper(a + b) == Upper(a) + Upper(b)
  {
  }

  function DigitChar(d: nat): (c: char)
    requires d < 10
    ensures '0' <= c <= '9'
  {
    ('0' as int + d) as char
  }

  predicate IsDigit(c: char)
  {
    '0' <= c <= '9'
  }

  /** The decimal text of n, as Python's `str(n)` or `f"{n}"` writes a non-negative int. */
  function NatToString(n: nat): (r: string)
    ensures |r| >= 1
    ensures forall i :: 0 <= i < |r| ==> IsDigit(r[i])
    ensures r[0] == '0' ==> n == 0 && |r| == 1
  {
    if n < 10 then [DigitChar(n)] else NatToString(n / 10) + [DigitChar(n % 10)]
  }

  function DigitValue(c: char): (d: nat)
    requires IsDigit(c)
    ensures d < 10
  {
    c as int - '0' as int
  }

  /** The value of a string of decimal digits, read left to right. */
  function DigitsValue(s: string): nat
    requires forall i :: 0 <= i < |s| ==> IsDigit(s[i])
  {
    if s == [] then 0 else 10 * DigitsValue(s[..|s| - 1]) + DigitValue(s[|s| - 1])
  }

  /** Reading the decimal text back gives the number. */
  lemma {:induction false} NatToStringRoundTrip(n: nat)
    ensures DigitsValue(NatToString(n)) == n
  {
    if n >= 10 {
      NatToStringRoundTrip(n / 10);
      var r := NatToString(n);
      assert r[..|r| - 1] == NatToString(n / 10);
    }
  }

  /** Different numbers have different decimal texts. */
  lemma NatToStringInjective(m: nat, n: nat)
    requires NatToString(m) == NatToString(n)
    ensures m == n
  {
    NatToStringRoundTrip(m);
    NatToStringRoundTrip(n);
  }
}
