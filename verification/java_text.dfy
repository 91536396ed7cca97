/**
 * The parts of java.lang.String, Character, Integer and Long that the modelled
 * code relies on: isBlank, trim, toLowerCase, equalsIgnoreCase, decimal
 * printing and decimal parsing.
 */
module JavaText {
  import opened Errors

  const INT32_MIN: int := -0x8000_0000
  const INT32_MAX: int := 0x7fff_ffff
  const INT64_MIN: int := -0x8000_0000_0000_0000
  const INT64_MAX: int := 0x7fff_ffff_ffff_ffff

  /** Character.isWhitespace: the Unicode space, line and paragraph separators
      other than the non-breaking ones, plus the ASCII controls TAB..CR and FS..US. */
  predicate IsWhitespace(c: char) {
    || ('\t' <= c <= '\r')
    || ('\U{1C}' <= c <= ' ')
    || c == '\U{1680}'
    || ('\U{2000}' <= c <= '\U{2006}')
    || ('\U{2008}' <= c <= '\U{200A}')
    || c == '\U{2028}' || c == '\U{2029}'
    || c == '\U{205F}' || c == '\U{3000}'
  }

  /** String.isBlank: empty or white space only. */
  predicate IsBlank(s: string) {
    forall i :: 0 <= i < |s| ==> IsWhitespace(s[i])
  }

  /** String.trim strips every character up to U+0020 (which is not the same set as isBlank's). */
  predicate Trimmable(c: char) {
    c <= ' '
  }

  /** String.trim's first half: drops the leading run of characters up to U+0020, and nothing else. */
  function TrimStart(s: string): (r: string)
    ensures |r| <= |s| && r == s[|s| - |r|..]
    ensures r == [] || !Trimmable(r[0])
  {
    if |s| > 0 && Trimmable(s[0]) then TrimStart(s[1..]) else s
  }

  /** String.trim's second half: drops the trailing run of characters up to U+0020, and nothing else. */
  function TrimEnd(s: string): (r: string)
    ensures |r| <= |s| && r == s[..|r|]
    ensures r == [] || !Trimmable(r[|r| - 1])
  {
    if |s| > 0 && Trimmable(s[|s| - 1]) then TrimEnd(s[..|s| - 1]) else s
  }

  function Trim(s: string): string {
    TrimEnd(TrimStart(s))
  }

  predicate AllTrimmable(s: string) {
    forall i :: 0 <= i < |s| ==> Trimmable(s[i])
  }

  lemma {:induction false} TrimStartPadded(p: string, s: string)
    requires AllTrimmable(p)
    ensures TrimStart(p + s) == TrimStart(s)
  {
    if p != [] {
      assert (p + s)[0] == p[0] && (p + s)[1..] == p[1..] + s;
      TrimStartPadded(p[1..], s);
    } else {
      assert p + s == s;
    }
  }

  lemma {:induction false} TrimEndPadded(s: string, q: string)
    requires AllTrimmable(q)
    ensures TrimEnd(s + q) == TrimEnd(s)
  {
    if q != [] {
      assert (s + q)[|s + q| - 1] == q[|q| - 1];
      assert (s + q)[..|s + q| - 1] == s + q[..|q| - 1];
      TrimEndPadded(s, q[..|q| - 1]);
    } else {
      assert s + q == s;
    }
  }

  lemma {:induction false} TrimStartOfPadded(s: string, q: string)
    requires AllTrimmable(q)
    ensures TrimStart(s + q) == TrimStart(s) + q || (TrimStart(s) == [] && AllTrimmable(TrimStart(s + q)))
  {
    if |s| > 0 && Trimmable(s[0]) {
      assert (s + q)[1..] == s[1..] + q;
      TrimStartOfPadded(s[1..], q);
    } else if |s| == 0 {
      TrimStartOfTrimmable(q);
    } else {
      assert (s + q)[0] == s[0];
    }
  }

  lemma {:induction false} TrimStartOfTrimmable(q: string)
    requires AllTrimmable(q)
    ensures TrimStart(q) == []
  {
    if q != [] {
      TrimStartOfTrimmable(q[1..]);
    }
  }

  lemma {:induction false} TrimEndOfTrimmable(q: string)
    requires AllTrimmable(q)
    ensures TrimEnd(q) == []
  {
    TrimEndPadded([], q);
    assert [] + q == q;
  }

  /** Surrounding characters up to U+0020 do not change what trim returns. */
  lemma {:induction false} TrimPadded(p: string, s: string, q: string)
    requires AllTrimmable(p) && AllTrimmable(q)
    ensures Trim(p + s + q) == Trim(s)
  {
    assert p + s + q == p + (s + q);
    TrimStartPadded(p, s + q);
    var t := TrimStart(s + q);
    assert Trim(p + s + q) == TrimEnd(t);
    TrimStartOfPadded(s, q);
    if t == TrimStart(s) + q {
      TrimEndPadded(TrimStart(s), q);
    } else {
      TrimEndOfTrimmable(t);
      TrimEndOfTrimmable(TrimStart(s));
    }
  }

  /** What TrimStart removes is padding only. */
  lemma {:induction false} TrimStartDropsPadding(s: string)
    ensures AllTrimmable(s[..|s| - |TrimStart(s)|])
  {
    if |s| > 0 && Trimmable(s[0]) {
      var n := |s| - |TrimStart(s)|;
      TrimStartDropsPadding(s[1..]);
      forall k | 0 < k < n ensures Trimmable(s[k]) {
        assert s[k] == s[1..][..n - 1][k - 1];
      }
    }
  }

  /** What TrimEnd removes is padding only. */
  lemma {:induction false} TrimEndDropsPadding(s: string)
    ensures AllTrimmable(s[|TrimEnd(s)|..])
  {
    if |s| > 0 && Trimmable(s[|s| - 1]) {
      var r := TrimEnd(s[..|s| - 1]);
      TrimEndDropsPadding(s[..|s| - 1]);
      assert s[|r|..] == s[..|s| - 1][|r|..] + [s[|s| - 1]];
    }
  }

  /** r is s without a leading run of i characters up to U+0020 and a trailing run of them,
      and r itself neither starts nor ends with such a character. */
  predicate StrippedOf(s: string, i: nat, r: string) {
    && i + |r| <= |s| && r == s[i..i + |r|]
    && AllTrimmable(s[..i]) && AllTrimmable(s[i + |r|..])
    && (r == [] || (!Trimmable(r[0]) && !Trimmable(r[|r| - 1])))
  }

  /** trim removes exactly the padding on both sides, and nothing more. */
  lemma TrimRemovesPaddingOnly(s: string)
    ensures StrippedOf(s, |s| - |TrimStart(s)|, Trim(s))
  {
    var t := TrimStart(s);
    var r := TrimEnd(t);
    assert Trim(s) == r;
    TrimStartDropsPadding(s);
    TrimEndDropsPadding(t);
    InnerSlice(s, t, r, |s| - |t|);
  }

  /** The slicing step of TrimRemovesPaddingOnly: a suffix of a suffix, cut where padding starts. */
  lemma InnerSlice(s: string, t: string, r: string, i: nat)
    requires i <= |s| && t == s[i..] && |r| <= |t| && r == t[..|r|]
    requires AllTrimmable(s[..i]) && AllTrimmable(t[|r|..])
    requires t == [] || !Trimmable(t[0])
    requires r == [] || !Trimmable(r[|r| - 1])
    ensures StrippedOf(s, i, r)
  {
    assert s[i + |r|..] == t[|r|..];
    if r != [] {
      assert r[0] == t[0];
    }
  }

  /** Character.toLowerCase restricted to ASCII letters. */
  function LowerChar(c: char): char {
    if 'A' <= c <= 'Z' then (c as int + 32) as char else c
  }

  /** String.toLowerCase, on the ASCII letters. */
  function ToLower(s: string): (r: string)
    ensures |r| == |s| && forall i :: 0 <= i < |s| ==> r[i] == LowerChar(s[i])
  {
    if s == [] then [] else [LowerChar(s[0])] + ToLower(s[1..])
  }

  /** String.equalsIgnoreCase, on the ASCII letters. */
  predicate EqualsIgnoreCase(a: string, b: string) {
    |a| == |b| && forall i :: 0 <= i < |a| ==> LowerChar(a[i]) == LowerChar(b[i])
  }

  predicate IsDigit(c: char) {
    '0' <= c <= '9'
  }

  predicate AllDigits(s: string) {
    forall i :: 0 <= i < |s| ==> IsDigit(s[i])
  }

  function DigitChar(d: nat): (c: char)
    requires d < 10
    ensures IsDigit(c) && c as int - '0' as int == d
  {
    ('0' as int + d) as char
  }

  /** The number a string of decimal digits denotes, most significant digit first. */
  function DigitsValue(s: string): nat
    requires AllDigits(s)
  {
    if s == [] then 0 else DigitsValue(s[..|s| - 1]) * 10 + (s[|s| - 1] as int - '0' as int)
  }

  /** The decimal digits of n, without leading zeros. */
  function NatToDecimal(n: nat): (s: string)
    ensures |s| > 0 && AllDigits(s) && DigitsValue(s) == n
    ensures |s| == 1 || s[0] != '0'
    decreases n
  {
    var s := if n < 10 then [DigitChar(n)] else NatToDecimal(n / 10) + [DigitChar(n % 10)];
    assert s[..|s| - 1] == if n < 10 then [] else NatToDecimal(n / 10);
    if n >= 10 then
      var front := NatToDecimal(n / 10);
      assert s[0] == front[0];
      assert |front| == 1 ==> front[..0] == [] && DigitsValue(front) == front[0] as int - '0' as int;
      s
    else s
  }

  /** Integer.toString / Long.toString: a minus sign for negatives, then the digits. */
  function IntToDecimal(i: int): (s: string)
    ensures |s| > 0 && (s[0] == '-' <==> i < 0)
    ensures var digits := if i < 0 then s[1..] else s;
      && |digits| > 0 && AllDigits(digits) && DigitsValue(digits) == (if i < 0 then -i else i)
      && (|digits| == 1 || digits[0] != '0')
  {
    if i < 0 then
      var s := "-" + NatToDecimal(-i);
      assert s[1..] == NatToDecimal(-i);
      s
    else NatToDecimal(i)
  }

  /**
   * Long.parseLong (lo, hi = the 64-bit range) and Integer.parseInt (the 32-bit
   * range): one optional sign, then at least one decimal digit, and the value
   * must lie in [lo, hi]; anything else throws NumberFormatException.
   */
  function ParseDecimal(s: string, lo: int, hi: int): (r: Option<int>)
    ensures r.Some? ==> lo <= r.value <= hi
    ensures r.Some? ==> s != [] && (AllDigits(s) || (|s| > 1 && (s[0] == '-' || s[0] == '+') && AllDigits(s[1..])))
    ensures s != [] && AllDigits(s) ==>
              r == if lo <= DigitsValue(s) <= hi then Some(DigitsValue(s)) else None
    ensures |s| > 1 && s[0] == '+' && AllDigits(s[1..]) ==>
              r == if lo <= DigitsValue(s[1..]) <= hi then Some(DigitsValue(s[1..])) else None
    ensures |s| > 1 && s[0] == '-' && AllDigits(s[1..]) ==>
              var v: int := 0 - DigitsValue(s[1..]);
              r == if lo <= v <= hi then Some(v) else None
  {
    if s == [] then None
    else
      var signed := s[0] == '-' || s[0] == '+';
      var digits := if signed then s[1..] else s;
      if digits == [] || !AllDigits(digits) then None
      else
        var v: int := if s[0] == '-' then 0 - DigitsValue(digits) else DigitsValue(digits);
        if lo <= v <= hi then Some(v) else None
  }

  function ParseLong(s: string): Option<int> {
    ParseDecimal(s, INT64_MIN, INT64_MAX)
  }

  function ParseInt(s: string): Option<int> {
    ParseDecimal(s, INT32_MIN, INT32_MAX)
  }

  /** Parsing what Integer/Long.toString printed gives back the number, whenever it is in range. */
  lemma {:induction false} DecimalRoundTrip(i: int, lo: int, hi: int)
    requires lo <= i <= hi
    ensures ParseDecimal(IntToDecimal(i), lo, hi) == Some(i)
  {
    var s := IntToDecimal(i);
    if i < 0 {
      assert s[1..] == NatToDecimal(-i);
    } else {
      assert IsDigit(s[0]);
    }
  }

  /** A printed number never contains a decimal point. */
  lemma {:induction false} DecimalHasNoPoint(i: int)
    ensures '.' !in IntToDecimal(i)
  {
    var s := IntToDecimal(i);
    if i < 0 {
      assert s == "-" + NatToDecimal(-i);
      assert forall k :: 1 <= k < |s| ==> s[k] == NatToDecimal(-i)[k - 1];
    }
  }
}
