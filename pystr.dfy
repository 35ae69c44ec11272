/**
 * The parts of Python's string semantics the pipeline relies on:
 * `str(n)` for a non-negative integer, `int(s)` for a string, and
 * `s.strip(chars)`, which removes characters of a SET from both ends.
 */
module PyStr {
  import opened Wrappers

  predicate IsDigit(c: char) { '0' <= c <= '9' }

  predicate IsDigitString(s: string) { forall i :: 0 <= i < |s| ==> IsDigit(s[i]) }

  function DigitValue(c: char): (d: nat)
    requires IsDigit(c)
    ensures d < 10
  {
    c as int - '0' as int
  }

  function DigitChar(d: nat): (c: char)
    requires d < 10
    ensures IsDigit(c) && DigitValue(c) == d
  {
    ('0' as int + d) as char
  }

  /** `str(n)`: the decimal digits of n, most significant first, without leading zeros. */
  function NatToString(n: nat): (s: string)
    ensures |s| > 0 && IsDigitString(s)
    ensures |s| > 1 ==> s[0] != '0'
  {
    if n < 10 then [DigitChar(n)] else NatToString(n / 10) + [DigitChar(n % 10)]
  }

  /** The value of a string of decimal digits, most significant first. */
  function DigitsValue(s: string): nat
    requires IsDigitString(s)
  {
    if s == [] then 0 else DigitsValue(s[..|s| - 1]) * 10 + DigitValue(s[|s| - 1])
  }

  /** Appending a digit to `str(m)` gives `str(10 * m + d)`. */
  lemma NatToStringAppendDigit(m: nat, d: nat)
    requires 0 < m && d < 10
    ensures NatToString(10 * m + d) == NatToString(m) + [DigitChar(d)]
  {
    assert (10 * m + d) / 10 == m && (10 * m + d) % 10 == d;
  }

  /** Reading back the digits `str(n)` writes gives n. */
  lemma {:induction false} DigitsValueOfNatToString(n: nat)
    ensures DigitsValue(NatToString(n)) == n
  {
    if n >= 10 {
      var s := NatToString(n / 10);
      var t := s + [DigitChar(n % 10)];
      assert t[..|t| - 1] == s;
      DigitsValueOfNatToString(n / 10);
    }
  }

  /** Distinct numbers have distinct decimal representations. */
  lemma NatToStringInjective(m: nat, n: nat)
    ensures NatToString(m) == NatToString(n) ==> m == n
  {
    DigitsValueOfNatToString(m);
    DigitsValueOfNatToString(n);
  }

  /** Number of leading characters of s that belong to cs. */
  function LeadingCount(s: string, cs: set<char>): (k: nat)
    ensures k <= |s|
    ensures forall i :: 0 <= i < k ==> s[i] in cs
    ensures k == |s| || s[k] !in cs
  {
    if |s| > 0 && s[0] in cs then 1 + LeadingCount(s[1..], cs) else 0
  }

  /** Number of trailing characters of s that belong to cs. */
  function TrailingCount(s: string, cs: set<char>): (k: nat)
    ensures k <= |s|
    ensures forall i :: |s| - k <= i < |s| ==> s[i] in cs
    ensures k == |s| || s[|s| - 1 - k] !in cs
  {
    if |s| > 0 && s[|s| - 1] in cs then 1 + TrailingCount(s[..|s| - 1], cs) else 0
  }

  /** `s.strip(chars)` with `chars` read as a set of characters. */
  function Strip(s: string, cs: set<char>): (r: string)
    ensures |r| <= |s|
    ensures |r| > 0 ==> r[0] !in cs && r[|r| - 1] !in cs
    ensures |r| == 0 <==> forall i :: 0 <= i < |s| ==> s[i] in cs
  {
    var l := LeadingCount(s, cs);
    var rest := s[l..];
    var t := TrailingCount(rest, cs);
    assert forall i :: l <= i < |s| ==> s[i] == rest[i - l];
    rest[..|rest| - t]
  }

  /** A string made only of strip characters strips to the empty string. */
  lemma StripAll(s: string, cs: set<char>)
    requires forall i :: 0 <= i < |s| ==> s[i] in cs
    ensures Strip(s, cs) == ""
  {
  }

  /**
   * Strip removes exactly the characters of cs around a core that neither
   * starts nor ends with one of them: it is not a prefix/suffix removal.
   */
  lemma StripKeepsCore(pre: string, core: string, post: string, cs: set<char>)
    requires forall i :: 0 <= i < |pre| ==> pre[i] in cs
    requires forall i :: 0 <= i < |post| ==> post[i] in cs
    requires |core| > 0 && core[0] !in cs && core[|core| - 1] !in cs
    ensures Strip(pre + core + post, cs) == core
  {
    var s := pre + core + post;
    var l := LeadingCount(s, cs);
    assert s[|pre|] == core[0];
    assert l == |pre|;
    var rest := s[l..];
    assert rest == core + post;
    var t := TrailingCount(rest, cs);
    assert rest[|core| - 1] == core[|core| - 1];
    assert t == |post|;
    assert rest[..|rest| - t] == core;
  }

  /** ASCII whitespace, which `int()` ignores around its argument. */
  const Whitespace: set<char> := {' ', '\t', '\n', '\r', '\U{000B}', '\U{000C}'}

  /** An optional sign followed by at least one decimal digit. */
  function SignedDigitsValue(t: string): (r: Option<int>)
    ensures r.Some? <==> (|t| > 0 && IsDigitString(t)) || (|t| > 1 && t[0] in {'-', '+'} && IsDigitString(t[1..]))
  {
    if |t| > 1 && t[0] == '-' && IsDigitString(t[1..]) then Some(-(DigitsValue(t[1..]) as int))
    else if |t| > 1 && t[0] == '+' && IsDigitString(t[1..]) then Some(DigitsValue(t[1..]))
    else if |t| > 0 && IsDigitString(t) then Some(DigitsValue(t))
    else None
  }

  /** `int(s)` for a string s; None where Python raises ValueError. */
  function StrToInt(s: string): (r: Option<int>)
    ensures |s| > 0 && IsDigitString(s) ==> r == Some(DigitsValue(s))
    ensures (forall i :: 0 <= i < |s| ==> s[i] in Whitespace) ==> r.None?
  {
    if |s| > 0 && IsDigitString(s) then
      StripNothing(s, Whitespace);
      SignedDigitsValue(Strip(s, Whitespace))
    else SignedDigitsValue(Strip(s, Whitespace))
  }

  /** A string that neither starts nor ends with a strip character is left as it is. */
  lemma StripNothing(s: string, cs: set<char>)
    requires |s| > 0 && s[0] !in cs && s[|s| - 1] !in cs
    ensures Strip(s, cs) == s
  {
    StripKeepsCore([], s, [], cs);
    assert [] + s + [] == s;
  }

  /** `int(str(n)) == n`. */
  lemma StrToIntOfNatToString(n: nat)
    ensures StrToInt(NatToString(n)) == Some(n)
  {
    DigitsValueOfNatToString(n);
  }

  /** `str(n)` for any integer n: digits, after a minus sign when n is negative; `int()` reads it back as n. */
  function IntToString(n: int): (r: string)
    ensures |r| > 0 && (IsDigit(r[0]) || r[0] == '-') && IsDigit(r[|r| - 1])
    ensures StrToInt(r) == Some(n)
  {
    if n >= 0 then
      StrToIntOfNatToString(n);
      NatToString(n)
    else
      var digits := NatToString(-n);
      var r := "-" + digits;
      assert r[1..] == digits;
      assert r[|r| - 1] == digits[|digits| - 1];
      StripNothing(r, Whitespace);
      DigitsValueOfNatToString(-n);
      r
  }
}
