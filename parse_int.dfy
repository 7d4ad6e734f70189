/**
 * The part of ECMAScript's global `parseInt` (section 19.2.5 of ECMA-262)
 * that the line marker relies on: `parseInt(row.style.top)` with no radix,
 * on strings such as "329px". Leading white space is skipped, one optional
 * sign is taken, and the longest run of decimal digits that follows is the
 * value; when there is no such digit the result is NaN, written `None` here.
 */
module EcmaParseInt {
  import opened Wrappers

  /** The StrWhiteSpaceChar characters of ECMA-262 that are not in the Unicode
      category Zs beyond U+0020 and U+00A0: TAB, LF, VT, FF, CR, SP, NBSP,
      ZWNBSP, LS and PS. */
  predicate IsWhiteSpace(c: char) {
    var u := c as int;
    u == 0x09 || u == 0x0A || u == 0x0B || u == 0x0C || u == 0x0D ||
    u == 0x20 || u == 0xA0 || u == 0xFEFF || u == 0x2028 || u == 0x2029
  }

  predicate IsDigit(c: char) {
    '0' <= c <= '9'
  }

  predicate AllDigits(s: string) {
    forall i :: 0 <= i < |s| ==> IsDigit(s[i])
  }

  function DigitValue(c: char): (d: nat)
    requires IsDigit(c)
    ensures d < 10
  {
    c as int - '0' as int
  }

  function DigitChar(d: nat): (c: char)
    requires d < 10
    ensures IsDigit(c) && DigitValue(c) == d
  {
    (d + '0' as int) as char
  }

  /** Drops the leading white space: what is left is a suffix of `s` that does
      not start with white space. */
  function TrimStart(s: string): (r: string)
    ensures |r| <= |s| && r == s[|s| - |r|..]
    ensures r == [] || !IsWhiteSpace(r[0])
  {
    if s != [] && IsWhiteSpace(s[0]) then TrimStart(s[1..]) else s
  }

  /** The longest prefix of `s` made of decimal digits. */
  function LeadingDigits(s: string): (r: string)
    ensures AllDigits(r)
  {
    if s != [] && IsDigit(s[0]) then [s[0]] + LeadingDigits(s[1..]) else []
  }

  /** The number a run of decimal digits denotes, most significant first. */
  function DigitsValue(ds: string): nat
    requires AllDigits(ds)
  {
    if ds == [] then 0 else DigitsValue(ds[..|ds| - 1]) * 10 + DigitValue(ds[|ds| - 1])
  }

  /** The text after one optional leading sign. */
  function Unsigned(t: string): string {
    if t != [] && (t[0] == '-' || t[0] == '+') then t[1..] else t
  }

  /** `parseInt(s)` with radix 10; `None` is NaN. */
  function ParseInt(s: string): Option<int> {
    var t := TrimStart(s);
    var ds := LeadingDigits(Unsigned(t));
    if ds == [] then None
    else
      var v: int := DigitsValue(ds);
      if t[0] == '-' then Some(-v) else Some(v)
  }

  /** The decimal numeral of a natural number, most significant digit first,
      with no leading zero. */
  function Decimal(n: nat): (r: string)
    ensures r != [] && AllDigits(r)
    ensures DigitsValue(r) == n
  {
    if n < 10 then [DigitChar(n)]
    else
      var r := Decimal(n / 10) + [DigitChar(n % 10)];
      assert r[..|r| - 1] == Decimal(n / 10);
      r
  }

  /** The numeral of an integer, with a minus sign when it is negative. */
  function Numeral(n: int): string {
    if n < 0 then "-" + Decimal(-n) else Decimal(n)
  }

  lemma {:induction false} LeadingDigitsOfDigits(p: string, q: string)
    requires AllDigits(p)
    ensures LeadingDigits(p + q) == p + LeadingDigits(q)
  {
    if p == [] {
      assert p + q == q;
    } else {
      var pq := p + q;
      assert pq[0] == p[0] && IsDigit(pq[0]);
      assert pq[1..] == p[1..] + q;
      LeadingDigitsOfDigits(p[1..], q);
      calc {
        LeadingDigits(pq);
        [p[0]] + LeadingDigits(p[1..] + q);
        [p[0]] + (p[1..] + LeadingDigits(q));
        { assert [p[0]] + p[1..] == p; }
        p + LeadingDigits(q);
      }
    }
  }

  /** An unsigned string with no leading white space whose leading digits are `ds`. */
  lemma ParseIntTrimmed(t: string, ds: string)
    requires TrimStart(t) == t && t != [] && t[0] != '-'
    requires ds != [] && LeadingDigits(Unsigned(t)) == ds
    ensures ParseInt(t) == Some(DigitsValue(ds))
  {
  }

  /** The same after a minus sign. */
  lemma ParseIntTrimmedNegative(t: string, ds: string)
    requires TrimStart(t) == t && t != [] && t[0] == '-'
    requires ds != [] && LeadingDigits(Unsigned(t)) == ds
    ensures ParseInt(t) == Some(-(DigitsValue(ds) as int))
  {
  }

  /** A string that starts with a digit has no white space and no sign to skip. */
  lemma StartsWithDigit(s: string)
    requires s != [] && IsDigit(s[0])
    ensures TrimStart(s) == s && Unsigned(s) == s
  {
  }

  /** A string that starts with a minus sign has no white space to skip. */
  lemma StartsWithMinus(s: string)
    requires s != [] && s[0] == '-'
    ensures TrimStart(s) == s && Unsigned(s) == s[1..]
  {
  }

  /** A run of digits followed by a non-digit reads as the run's value. */
  lemma ParseIntDigits(ds: string, suffix: string)
    requires ds != [] && AllDigits(ds)
    requires suffix == [] || !IsDigit(suffix[0])
    ensures ParseInt(ds + suffix) == Some(DigitsValue(ds))
  {
    var s := ds + suffix;
    LeadingDigitsOfDigits(ds, suffix);
    assert s[0] == ds[0];
    StartsWithDigit(s);
    ParseIntTrimmed(s, ds);
  }

  /** The same run after a minus sign reads as its negation. */
  lemma ParseIntNegativeDigits(ds: string, suffix: string)
    requires ds != [] && AllDigits(ds)
    requires suffix == [] || !IsDigit(suffix[0])
    ensures ParseInt("-" + ds + suffix) == Some(-(DigitsValue(ds) as int))
  {
    var u := ds + suffix;
    LeadingDigitsOfDigits(ds, suffix);
    var t := "-" + u;
    assert t == "-" + ds + suffix;
    assert t[1..] == u;
    StartsWithMinus(t);
    ParseIntTrimmedNegative(t, ds);
  }

  /** A pixel value written as a numeral followed by anything that does not
      start with a digit ("px", "", "em") reads back as that number: the value
      of `style.top = "329px"` is 329. A zero followed by `x` or `X` is left
      out, since ECMAScript reads that as a hexadecimal prefix. */
  lemma ParseIntNumeral(n: int, suffix: string)
    requires suffix == [] || !IsDigit(suffix[0])
    requires n != 0 || suffix == [] || (suffix[0] != 'x' && suffix[0] != 'X')
    ensures ParseInt(Numeral(n) + suffix) == Some(n)
  {
    if n < 0 {
      ParseIntNegativeDigits(Decimal(-n), suffix);
    } else {
      ParseIntDigits(Decimal(n), suffix);
    }
  }

  /** A string with no decimal digit in it, such as "" for a row whose top was
      never set or "auto", is NaN. */
  lemma ParseIntWithoutDigits(s: string)
    requires forall i :: 0 <= i < |s| ==> !IsDigit(s[i])
    ensures ParseInt(s) == None
  {
    var t := TrimStart(s);
    assert forall i :: 0 <= i < |t| ==> t[i] == s[|s| - |t| + i];
  }

  /** The row style "329px" stands for the offset 329. */
  lemma ParseIntPixels()
    ensures ParseInt("329px") == Some(329)
  {
    var ds := "329";
    assert ds + "px" == "329px";
    assert DigitsValue(ds[..1]) == 3;
    assert DigitsValue(ds[..2]) == 32 by { assert ds[..2][..1] == ds[..1]; }
    assert ds[..3][..2] == ds[..2];
    ParseIntDigits(ds, "px");
  }
}
