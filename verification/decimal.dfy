/**
 * Decimal text of integers, as the PLY code uses it: `int.ToString()` when
 * PlyWriter writes the vertex count, and `int.Parse` / `uint.Parse` when
 * PlyRenderer reads counts and face indices. Only the invariant-culture
 * forms appear in a header: an optional sign followed by decimal digits.
 */
module Decimal {
  import opened Wrappers

  const Int32Min: int := -0x8000_0000
  const Int32Max: int := 0x7FFF_FFFF
  const UInt32Max: int := 0xFFFF_FFFF

  predicate IsDigit(c: char) {
    '0' <= c <= '9'
  }

  function DigitValue(c: char): (d: nat)
    requires IsDigit(c)
    ensures d < 10
  {
    c as int - '0' as int
  }

  function DigitChar(d: nat): (c: char)
    requires d < 10
    ensures IsDigit(c) && DigitValue(c) == d
  {
    (('0' as int) + d) as char
  }

  predicate AllDigits(s: string) {
    forall i :: 0 <= i < |s| ==> IsDigit(s[i])
  }

  /** The number a digit string denotes, most significant digit first. */
  function Value(s: string): nat
    requires AllDigits(s)
  {
    if |s| == 0 then 0 else Value(s[..|s| - 1]) * 10 + DigitValue(s[|s| - 1])
  }

  /** `ToString()` of a natural number: no leading zeros, "0" for zero. */
  function ShowNat(n: nat): (s: string)
    ensures |s| >= 1 && AllDigits(s)
    ensures s[0] != '0' || n == 0
    decreases n
  {
    if n < 10 then [DigitChar(n)] else ShowNat(n / 10) + [DigitChar(n % 10)]
  }

  /** `ToString()` of an integer: a minus sign before the magnitude when negative. */
  function ShowInt(n: int): string {
    if n < 0 then "-" + ShowNat(-n) else ShowNat(n)
  }

  /** The unsigned digits after an optional sign, or None when there are none or some are not digits. */
  function Digits(s: string): Option<nat> {
    if |s| == 0 || !AllDigits(s) then None else Some(Value(s))
  }

  /** The white space NumberStyles.Integer lets surround a number: ' ' and '\t' through '\r'. */
  predicate IsWhite(c: char) {
    c == ' ' || '\t' <= c <= '\r'
  }

  predicate AllWhite(s: string) {
    forall i :: 0 <= i < |s| ==> IsWhite(s[i])
  }

  function TrimStart(s: string): (r: string)
    ensures |r| <= |s|
    decreases |s|
  {
    if |s| > 0 && IsWhite(s[0]) then TrimStart(s[1..]) else s
  }

  function TrimEnd(s: string): (r: string)
    ensures |r| <= |s|
    decreases |s|
  {
    if |s| > 0 && IsWhite(s[|s| - 1]) then TrimEnd(s[..|s| - 1]) else s
  }

  /** The token without the leading and trailing white space the parsers skip. */
  function Trim(s: string): string {
    TrimEnd(TrimStart(s))
  }

  /** A token that neither starts nor ends with white space. */
  predicate Bare(s: string) {
    |s| >= 1 && !IsWhite(s[0]) && !IsWhite(s[|s| - 1])
  }

  /**
   * `int.Parse` of a token (NumberStyles.Integer, invariant culture):
   * optional white space, an optional '+' or '-', one or more digits,
   * optional white space, and a value inside the 32-bit signed range;
   * anything else throws, which is None.
   */
  function ParseInt32(s: string): (r: Option<int>)
    ensures r.Some? ==> Int32Min <= r.value <= Int32Max
    ensures r.Some? ==> |s| >= 1
  {
    var t := Trim(s);
    var negative := |t| >= 1 && t[0] == '-';
    var body := if |t| >= 1 && (t[0] == '-' || t[0] == '+') then t[1..] else t;
    match Digits(body)
    case None => None
    case Some(m) =>
      var v: int := if negative then -(m as int) else m as int;
      if Int32Min <= v <= Int32Max then Some(v) else None
  }

  /**
   * `uint.Parse` of a token: the same form as int.Parse, where a '-' is
   * accepted only before a zero value ("-0" is 0) and the value is at most
   * 2^32 - 1; anything else throws, which is None.
   */
  function ParseUInt32(s: string): (r: Option<nat>)
    ensures r.Some? ==> r.value <= UInt32Max
    ensures r.Some? ==> |s| >= 1
  {
    var t := Trim(s);
    var negative := |t| >= 1 && t[0] == '-';
    var body := if |t| >= 1 && (t[0] == '-' || t[0] == '+') then t[1..] else t;
    match Digits(body)
    case None => None
    case Some(m) => if (negative && m != 0) || m > UInt32Max then None else Some(m)
  }

  /** Trimming leaves a bare token unchanged. */
  lemma TrimBare(s: string)
    requires Bare(s)
    ensures Trim(s) == s
  {
  }

  /** Leading white space in front of a bare token is dropped. */
  lemma {:induction false} TrimStartPadding(w: string, s: string)
    requires AllWhite(w) && |s| >= 1 && !IsWhite(s[0])
    ensures TrimStart(w + s) == s
    decreases |w|
  {
    if |w| > 0 {
      assert (w + s)[1..] == w[1..] + s;
      TrimStartPadding(w[1..], s);
    } else {
      assert w + s == s;
    }
  }

  /** Trailing white space after a bare token is dropped. */
  lemma {:induction false} TrimEndPadding(s: string, w: string)
    requires AllWhite(w) && |s| >= 1 && !IsWhite(s[|s| - 1])
    ensures TrimEnd(s + w) == s
    decreases |w|
  {
    if |w| > 0 {
      assert (s + w)[..|s + w| - 1] == s + w[..|w| - 1];
      TrimEndPadding(s, w[..|w| - 1]);
    } else {
      assert s + w == s;
    }
  }

  /** White space around a bare token changes nothing int.Parse or uint.Parse reads. */
  lemma ParseIgnoresPadding(w: string, s: string, w': string)
    requires AllWhite(w) && AllWhite(w') && Bare(s)
    ensures ParseInt32(w + s + w') == ParseInt32(s)
    ensures ParseUInt32(w + s + w') == ParseUInt32(s)
  {
    assert w + s + w' == w + (s + w');
    TrimStartPadding(w, s + w');
    TrimEndPadding(s, w');
    TrimBare(s);
  }

  /** Appending a digit multiplies the value by ten and adds the digit. */
  lemma ValueOfAppend(s: string, c: char)
    requires AllDigits(s) && IsDigit(c)
    ensures AllDigits(s + [c])
    ensures Value(s + [c]) == Value(s) * 10 + DigitValue(c)
  {
    assert (s + [c])[..|s|] == s;
  }

  /** Reading back what ShowNat wrote gives the number. */
  lemma {:induction false} ValueOfShowNat(n: nat)
    ensures Value(ShowNat(n)) == n
    decreases n
  {
    if n >= 10 {
      ValueOfShowNat(n / 10);
      ValueOfAppend(ShowNat(n / 10), DigitChar(n % 10));
    }
  }

  /** int.Parse reads back every 32-bit integer that ToString wrote. */
  lemma ParseShowInt(n: int)
    requires Int32Min <= n <= Int32Max
    ensures ParseInt32(ShowInt(n)) == Some(n)
  {
    ShowIntIsBare(n);
    if n < 0 {
      ParseNegated(-n);
    } else {
      ValueOfShowNat(n);
    }
  }

  lemma ParseNegated(m: nat)
    requires 0 < m <= -Int32Min
    ensures ParseInt32("-" + ShowNat(m)) == Some(-(m as int))
  {
    var s := "-" + ShowNat(m);
    ValueOfShowNat(m);
    assert s[0] == '-' && s[1..] == ShowNat(m);
    assert Digits(s[1..]) == Some(m);
  }

  /** uint.Parse reads back every unsigned 32-bit value that ToString wrote. */
  lemma ParseShowNat(n: nat)
    requires n <= UInt32Max
    ensures ParseUInt32(ShowInt(n)) == Some(n)
  {
    ShowIntIsBare(n);
    ValueOfShowNat(n);
  }

  /** Leading zeros and a '+' sign do not change what int.Parse reads. */
  lemma ParseIgnoresLeadingZeroAndPlus(s: string)
    requires |s| >= 1 && AllDigits(s)
    ensures ParseInt32("0" + s) == ParseInt32(s)
    ensures ParseInt32("+" + s) == ParseInt32(s)
  {
    LeadingZero(s);
    TrimBare(s);
    TrimBare("0" + s);
    TrimBare("+" + s);
    assert ("+" + s)[1..] == s;
  }

  lemma {:induction false} LeadingZero(s: string)
    requires AllDigits(s)
    ensures AllDigits("0" + s)
    ensures Value("0" + s) == Value(s)
    decreases |s|
  {
    if |s| > 0 {
      var init := s[..|s| - 1];
      LeadingZero(init);
      assert ("0" + s)[..|s|] == "0" + init;
    }
  }

  /** What ToString writes has no white space at either end. */
  lemma ShowIntIsBare(n: int)
    ensures Bare(ShowInt(n)) && Trim(ShowInt(n)) == ShowInt(n)
  {
    var d := if n < 0 then ShowNat(-n) else ShowNat(n);
    assert IsDigit(d[|d| - 1]) && IsDigit(d[0]);
    assert ShowInt(n)[|ShowInt(n)| - 1] == d[|d| - 1];
    TrimBare(ShowInt(n));
  }

  /** uint.Parse takes "-0" as 0 but throws on any other negative number. */
  lemma UnsignedMinusSign(s: string)
    requires |s| >= 1 && AllDigits(s)
    ensures ParseUInt32("-" + s) == (if Value(s) == 0 then Some(0) else None)
  {
    TrimBare("-" + s);
    assert ("-" + s)[1..] == s;
  }
}
