/**
 * The parts of Python's `str` behaviour that the plugin relies on:
 * substring tests, `rstrip`/`strip`, `*` repetition, `str(int)`, `int(str)`
 * and `sep.join(items)`. Strings are sequences of code points, as in Python.
 */
module Text {
  import opened Wrappers

  /** `sub` occurs in `s` starting at position `k`. */
  predicate OccursAt(sub: string, s: string, k: int) {
    0 <= k <= |s| - |sub| && s[k..k + |sub|] == sub
  }

  /** `sub in s`. The empty string occurs in every string. */
  predicate IsSubstring(sub: string, s: string) {
    exists k :: 0 <= k <= |s| - |sub| && OccursAt(sub, s, k)
  }

  /** A witness position makes `sub` a substring. */
  lemma SubstringAt(sub: string, s: string, k: nat)
    requires OccursAt(sub, s, k)
    ensures IsSubstring(sub, s)
  {
  }

  /** An occurrence in a prefix is an occurrence in the whole string. */
  lemma SubstringOfPrefix(sub: string, s: string, t: string)
    requires IsSubstring(sub, s)
    ensures IsSubstring(sub, s + t)
  {
    var k :| 0 <= k <= |s| - |sub| && OccursAt(sub, s, k);
    assert (s + t)[k..k + |sub|] == s[k..k + |sub|];
    SubstringAt(sub, s + t, k);
  }

  /** `s` ends with `suffix` (Python's `str.endswith`). */
  predicate EndsWith(s: string, suffix: string) {
    |suffix| <= |s| && s[|s| - |suffix|..] == suffix
  }

  /** `s.rstrip(chars)`: drops every trailing character that is in `chars`. */
  function TrimEnd(s: string, chars: set<char>): (r: string)
    ensures r <= s
    ensures r == [] || r[|r| - 1] !in chars
    ensures forall i :: |r| <= i < |s| ==> s[i] in chars
    decreases |s|
  {
    if |s| > 0 && s[|s| - 1] in chars then TrimEnd(s[..|s| - 1], chars) else s
  }

  /** `s.lstrip(chars)`: drops every leading character that is in `chars`. */
  function TrimStart(s: string, chars: set<char>): (r: string)
    ensures |r| <= |s| && r == s[|s| - |r|..]
    ensures r == [] || r[0] !in chars
    ensures forall i :: 0 <= i < |s| - |r| ==> s[i] in chars
    decreases |s|
  {
    if |s| > 0 && s[0] in chars then TrimStart(s[1..], chars) else s
  }

  /** The characters for which Python's `str.isspace` holds. */
  const Whitespace: set<char> :=
    {'\t', '\n', '\U{B}', '\U{C}', '\r', '\U{1C}', '\U{1D}', '\U{1E}', '\U{1F}', ' ',
     '\U{85}', '\U{A0}', '\U{1680}', '\U{2000}', '\U{2001}', '\U{2002}', '\U{2003}',
     '\U{2004}', '\U{2005}', '\U{2006}', '\U{2007}', '\U{2008}', '\U{2009}', '\U{200A}',
     '\U{2028}', '\U{2029}', '\U{202F}', '\U{205F}', '\U{3000}'}

  /**
   * `r` is the slice of `s` at `a`, and everything of `s` before and after
   * that slice is in `chars`.
   */
  ghost predicate TrimmedAt(r: string, s: string, a: int, chars: set<char>) {
    && 0 <= a && a + |r| <= |s| && r == s[a..a + |r|]
    && (forall i :: 0 <= i < a ==> s[i] in chars)
    && (forall i :: a + |r| <= i < |s| ==> s[i] in chars)
  }

  /** A prefix `r` of the suffix `t` of `s` is the slice of `s` where `t` starts. */
  lemma PrefixOfSuffix(s: string, t: string, r: string)
    requires |t| <= |s| && t == s[|s| - |t|..] && r <= t
    ensures r == s[|s| - |t|..|s| - |t| + |r|]
    ensures forall i :: |s| - |t| + |r| <= i < |s| ==> s[i] == t[i - (|s| - |t|)]
  {
  }

  /** `s.strip(chars)`: `lstrip`, then `rstrip`. */
  function Trim(s: string, chars: set<char>): (r: string)
    ensures |r| <= |s|
    ensures r == [] || (r[0] !in chars && r[|r| - 1] !in chars)
    ensures exists a :: TrimmedAt(r, s, a, chars)
  {
    var t := TrimStart(s, chars);
    var r := TrimEnd(t, chars);
    PrefixOfSuffix(s, t, r);
    assert r == [] || r[0] == t[0];
    assert TrimmedAt(r, s, |s| - |t|, chars);
    r
  }

  /** `s.strip()` with no argument. */
  function Strip(s: string): (r: string)
    ensures |r| <= |s|
    ensures r == [] || (r[0] !in Whitespace && r[|r| - 1] !in Whitespace)
    ensures exists a :: TrimmedAt(r, s, a, Whitespace)
  {
    Trim(s, Whitespace)
  }

  /** `c * n`: `n` copies of `c`, and the empty string when `n <= 0`. */
  function Repeat(c: char, n: int): (r: string)
    ensures |r| == if n <= 0 then 0 else n
    ensures forall i :: 0 <= i < |r| ==> r[i] == c
    decreases n
  {
    if n <= 0 then [] else [c] + Repeat(c, n - 1)
  }

  /** `sep.join(items)`. */
  function Join(items: seq<string>, sep: string): string
    decreases |items|
  {
    if |items| == 0 then ""
    else if |items| == 1 then items[0]
    else Join(items[..|items| - 1], sep) + sep + items[|items| - 1]
  }

  /** Every item followed by `sep`: what a loop doing `reply += item + sep` builds. */
  function Terminated(items: seq<string>, sep: string): string
    decreases |items|
  {
    if |items| == 0 then "" else Terminated(items[..|items| - 1], sep) + items[|items| - 1] + sep
  }

  /** Dropping the final separator of a non-empty terminated list gives the join. */
  lemma {:induction false} TerminatedIsJoinPlusSep(items: seq<string>, sep: string)
    requires |items| > 0
    ensures Terminated(items, sep) == Join(items, sep) + sep
    decreases |items|
  {
    if |items| > 1 {
      TerminatedIsJoinPlusSep(items[..|items| - 1], sep);
    }
  }

  predicate IsDigit(c: char) {
    '0' <= c <= '9'
  }

  predicate AllDigits(s: string) {
    forall i :: 0 <= i < |s| ==> IsDigit(s[i])
  }

  lemma DigitIsNotWhitespace(c: char)
    requires IsDigit(c)
    ensures c !in Whitespace
  {
  }

  /** A non-empty run of digits has nothing to strip. */
  lemma StripDigits(s: string)
    requires |s| > 0 && AllDigits(s)
    ensures Strip(s) == s
  {
    DigitIsNotWhitespace(s[0]);
    DigitIsNotWhitespace(s[|s| - 1]);
    assert TrimStart(s, Whitespace) == s;
  }

  function DigitChar(d: nat): (c: char)
    requires d < 10
    ensures IsDigit(c) && (c as int) - ('0' as int) == d
  {
    "0123456789"[d]
  }

  /** `str(n)` for a non-negative `n`: decimal digits, no leading zero. */
  function NatToString(n: nat): (r: string)
    ensures |r| > 0 && AllDigits(r)
    ensures r[0] == '0' ==> n == 0
    decreases n
  {
    if n < 10 then [DigitChar(n)] else NatToString(n / 10) + [DigitChar(n % 10)]
  }

  /** `str(i)` for any Python int. */
  function IntToString(i: int): (r: string)
    ensures i >= 0 ==> |r| > 0 && AllDigits(r) && (r[0] == '0' <==> i == 0)
    ensures i < 0 ==> |r| > 1 && r[0] == '-' && AllDigits(r[1..])
  {
    if i < 0 then "-" + NatToString(-i) else NatToString(i)
  }

  /** The number a string of decimal digits denotes. */
  function DigitsValue(ds: string): nat
    requires AllDigits(ds)
    decreases |ds|
  {
    if ds == [] then 0
    else DigitsValue(ds[..|ds| - 1]) * 10 + ((ds[|ds| - 1] as int) - ('0' as int))
  }

  /**
   * The digit part that `int(s)` accepts in base 10: digits, with single
   * underscores allowed between two digits.
   */
  predicate IsDigitPart(s: string) {
    && |s| > 0
    && IsDigit(s[0]) && IsDigit(s[|s| - 1])
    && (forall i :: 0 <= i < |s| ==> IsDigit(s[i]) || s[i] == '_')
    && (forall i :: 0 <= i < |s| - 1 ==> s[i] == '_' ==> s[i + 1] != '_')
  }

  function RemoveUnderscores(s: string): (r: string)
    ensures (forall i :: 0 <= i < |s| ==> IsDigit(s[i]) || s[i] == '_') ==> AllDigits(r)
    ensures AllDigits(s) ==> r == s
    decreases |s|
  {
    if s == [] then []
    else if s[|s| - 1] == '_' then RemoveUnderscores(s[..|s| - 1])
    else RemoveUnderscores(s[..|s| - 1]) + [s[|s| - 1]]
  }

  /**
   * `int(s)` in base 10 for a string that has already been stripped:
   * an optional sign and a digit part; `None` where Python raises ValueError.
   */
  function ParseInt(s: string): (r: Option<int>)
    ensures r.Some? ==> |s| > 0 && IsDigit(s[|s| - 1])
    ensures r.Some? && r.value < 0 ==> s[0] == '-'
    ensures |s| > 0 && AllDigits(s) ==> r == Some(DigitsValue(s))
  {
    PlainDigitsAreDigitPart(s);
    if |s| > 0 && (s[0] == '+' || s[0] == '-') then
      if IsDigitPart(s[1..]) then
        var v: int := DigitsValue(RemoveUnderscores(s[1..]));
        Some(if s[0] == '-' then -v else v)
      else None
    else if IsDigitPart(s) then Some(DigitsValue(RemoveUnderscores(s)))
    else None
  }

  lemma ParseIntOfEmpty()
    ensures ParseInt("") == None
  {
  }

  lemma {:induction false} DigitsValueOfNatToString(n: nat)
    ensures DigitsValue(NatToString(n)) == n
    decreases n
  {
    var r := NatToString(n);
    if n >= 10 {
      DigitsValueOfNatToString(n / 10);
      assert r[..|r| - 1] == NatToString(n / 10);
    }
  }

  /** A non-empty run of plain digits is accepted whole by `int()`. */
  lemma DigitsAreDigitPart(ds: string)
    requires |ds| > 0 && AllDigits(ds)
    ensures IsDigitPart(ds) && RemoveUnderscores(ds) == ds
  {
    assert IsDigit(ds[0]) && IsDigit(ds[|ds| - 1]);
  }

  lemma PlainDigitsAreDigitPart(s: string)
    ensures |s| > 0 && AllDigits(s) ==> IsDigitPart(s) && RemoveUnderscores(s) == s
  {
    if |s| > 0 && AllDigits(s) {
      DigitsAreDigitPart(s);
    }
  }

  /** `int(str(i)) == i`: printing an id and parsing it back gives the id. */
  lemma ParseIntOfIntToString(i: int)
    ensures ParseInt(IntToString(i)) == Some(i)
  {
    var n: nat := if i < 0 then -i else i;
    var ds := NatToString(n);
    DigitsValueOfNatToString(n);
    DigitsAreDigitPart(ds);
    var s := IntToString(i);
    if i < 0 {
      assert s == "-" + ds;
      assert s[1..] == ds;
    } else {
      assert s == ds;
      assert IsDigit(ds[0]);
    }
  }
}
