/** Character classes and string helpers with the meaning Python 3 gives them. */
module Strings {

  /** Python's `str.isspace()`; a `\s` in a str regular expression matches exactly these. */
  predicate IsSpace(c: char) {
    '\t' <= c <= '\r' || '\U{1c}' <= c <= '\U{1f}' || c == ' '
    || c == '\U{85}' || c == '\U{a0}' || c == '\U{1680}'
    || '\U{2000}' <= c <= '\U{200a}' || c == '\U{2028}' || c == '\U{2029}'
    || c == '\U{202f}' || c == '\U{205f}' || c == '\U{3000}'
  }

  /** A character of a regular expression's `\w`, restricted to ASCII. */
  predicate IsWordChar(c: char) {
    'a' <= c <= 'z' || 'A' <= c <= 'Z' || '0' <= c <= '9' || c == '_'
  }

  lemma SpaceIsNotWord(c: char)
    requires IsSpace(c)
    ensures !IsWordChar(c)
  {
  }

  predicate AllSpace(t: string) {
    forall k :: 0 <= k < |t| ==> IsSpace(t[k])
  }

  predicate StartsWith(t: string, prefix: string) {
    |prefix| <= |t| && t[..|prefix|] == prefix
  }

  /** Removes the leading whitespace of `t`. */
  function TrimStart(t: string): (r: string)
    ensures |r| <= |t| && r == t[|t| - |r|..]
    ensures AllSpace(t[..|t| - |r|])
    ensures r == [] || !IsSpace(r[0])
  {
    if |t| > 0 && IsSpace(t[0]) then
      var r := TrimStart(t[1..]);
      var k := |t| - |r|;
      assert forall j :: 1 <= j < k ==> t[..k][j] == t[1..][..k - 1][j - 1];
      r
    else
      t
  }

  /** Removes the trailing whitespace of `t`. */
  function TrimEnd(t: string): (r: string)
    ensures |r| <= |t| && r == t[..|r|]
    ensures AllSpace(t[|r|..])
    ensures r == [] || !IsSpace(r[|r| - 1])
  {
    if |t| > 0 && IsSpace(t[|t| - 1]) then
      var r := TrimEnd(t[..|t| - 1]);
      assert t[|r|..] == t[..|t| - 1][|r|..] + [t[|t| - 1]];
      r
    else
      t
  }

  /** `r` is `t` with a whitespace prefix of length `i` and a whitespace suffix cut off,
      and cannot lose any more: it is empty or begins and ends with a non-space. */
  ghost predicate StrippedAt(t: string, i: int, r: string) {
    0 <= i && i + |r| <= |t| && t[i..i + |r|] == r
    && AllSpace(t[..i]) && AllSpace(t[i + |r|..])
    && (r == [] || (!IsSpace(r[0]) && !IsSpace(r[|r| - 1])))
  }

  /** Trimming the start and then the end strips: `a` is `t` without its leading
      whitespace and `r` is `a` without its trailing whitespace. */
  lemma TrimBoth(t: string, a: string, r: string)
    requires |a| <= |t| && a == t[|t| - |a|..] && AllSpace(t[..|t| - |a|]) && (a == [] || !IsSpace(a[0]))
    requires |r| <= |a| && r == a[..|r|] && AllSpace(a[|r|..])
    requires r == [] || !IsSpace(r[|r| - 1])
    ensures StrippedAt(t, |t| - |a|, r)
    ensures r == [] <==> AllSpace(t)
  {
    var i := |t| - |a|;
    assert t[i..i + |r|] == r;
    assert t[i + |r|..] == a[|r|..];
    if r == [] {
      assert a[|r|..] == a;
      assert t == t[..i] + a;
    } else {
      assert t[i] == r[0] && !IsSpace(t[i]);
    }
  }

  /** Python's `str.strip()` with no argument. */
  function Strip(t: string): (r: string)
    ensures exists i :: StrippedAt(t, i, r)
    ensures r == [] <==> AllSpace(t)
  {
    var a := TrimStart(t);
    var r := TrimEnd(a);
    TrimBoth(t, a, r);
    r
  }

  /** Stripping twice is stripping once. */
  lemma StripIdempotent(t: string)
    ensures Strip(Strip(t)) == Strip(t)
  {
    var r := Strip(t);
    var i :| StrippedAt(t, i, r);
    assert TrimStart(r) == r;
  }

  /** A string that neither begins nor ends with whitespace is its own strip. */
  lemma StripOfTrimmed(t: string)
    requires t != [] && !IsSpace(t[0]) && !IsSpace(t[|t| - 1])
    ensures Strip(t) == t
  {
  }

  /** The decimal digit character for `d`. */
  function DigitChar(d: nat): (c: char)
    requires d < 10
    ensures '0' <= c <= '9' && (c as int) - ('0' as int) == d
  {
    ('0' as int + d) as char
  }

  predicate AllDigits(t: string) {
    forall k :: 0 <= k < |t| ==> '0' <= t[k] <= '9'
  }

  /** The number a string of decimal digits denotes, read left to right. */
  function DecimalValue(t: string): nat
    requires AllDigits(t)
  {
    if t == [] then 0
    else DecimalValue(t[..|t| - 1]) * 10 + ((t[|t| - 1] as int) - ('0' as int))
  }

  /** Python's `str(n)` for a non-negative integer: the shortest decimal numeral of `n`. */
  function Decimal(n: nat): (r: string)
    ensures |r| > 0 && AllDigits(r)
    ensures DecimalValue(r) == n
    ensures |r| > 1 ==> r[0] != '0'
  {
    if n < 10 then [DigitChar(n)]
    else
      var prefix := Decimal(n / 10);
      var r := prefix + [DigitChar(n % 10)];
      assert r[..|r| - 1] == prefix;
      r
  }

}
