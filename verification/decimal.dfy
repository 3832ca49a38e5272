/**
 * Decimal text and integers, as Python converts between them:
 * `str(n)`, `int(s)` and `int(float(s))` on ASCII digit strings.
 */
module Decimal {
  import opened Wrappers
  import opened PyStr

  function DigitValue(c: char): (d: nat)
    requires IsDigit(c)
    ensures d < 10
  {
    (c as int) - ('0' as int)
  }

  function DigitChar(d: nat): (c: char)
    requires d < 10
    ensures IsDigit(c) && DigitValue(c) == d
  {
    (('0' as int) + d) as char
  }

  predicate AllDigits(s: string) {
    forall i :: 0 <= i < |s| ==> IsDigit(s[i])
  }

  /** The value of a digit string read left to right; the empty string reads as 0. */
  function DigitsValue(s: string): nat
    requires AllDigits(s)
  {
    if |s| == 0 then 0 else DigitsValue(s[..|s| - 1]) * 10 + DigitValue(s[|s| - 1])
  }

  /** `str(n)` for a natural number: digits only, no leading zero except for 0 itself. */
  function NatToDigits(n: nat): (s: string)
    ensures IsDigits(s)
    ensures |s| > 1 ==> s[0] != '0'
    ensures s[0] == '0' <==> n == 0
  {
    if n < 10 then [DigitChar(n)] else NatToDigits(n / 10) + [DigitChar(n % 10)]
  }

  function Pow10(n: nat): (r: nat)
    ensures r >= 1
  {
    if n == 0 then 1 else 10 * Pow10(n - 1)
  }

  /** A string of `k` digits reads as less than `10^k`. */
  lemma {:induction false} DigitsBelowPow10(s: string)
    requires AllDigits(s)
    ensures DigitsValue(s) < Pow10(|s|)
  {
    if |s| > 0 {
      DigitsBelowPow10(s[..|s| - 1]);
    }
  }

  /** Leading zeros do not change the value of a digit string. */
  lemma {:induction false} LeadingZeros(z: string, s: string)
    requires forall i :: 0 <= i < |z| ==> z[i] == '0'
    requires AllDigits(s)
    ensures AllDigits(z + s) && DigitsValue(z + s) == DigitsValue(s)
    decreases |s|
  {
    if |s| == 0 {
      assert z + s == z;
      ZerosReadZero(z);
    } else {
      assert (z + s)[..|z + s| - 1] == z + s[..|s| - 1];
      LeadingZeros(z, s[..|s| - 1]);
    }
  }

  lemma {:induction false} ZerosReadZero(z: string)
    requires forall i :: 0 <= i < |z| ==> z[i] == '0'
    ensures AllDigits(z) && DigitsValue(z) == 0
  {
    if |z| > 0 {
      ZerosReadZero(z[..|z| - 1]);
    }
  }

  /** Reading back what `str` wrote gives the number again. */
  lemma {:induction false} DigitsRoundTrip(n: nat)
    ensures DigitsValue(NatToDigits(n)) == n
  {
    if n >= 10 {
      var s := NatToDigits(n);
      assert s[..|s| - 1] == NatToDigits(n / 10);
      DigitsRoundTrip(n / 10);
    }
  }

  /** `str(i)` for any integer. */
  function IntToStr(i: int): (s: string)
    ensures |s| > 0 && !IsSpace(s[0]) && !IsSpace(s[|s| - 1])
    ensures s[0] == '-' <==> i < 0
    ensures i >= 0 ==> IsDigits(s)
  {
    if i < 0 then "-" + NatToDigits(-i) else NatToDigits(i)
  }

  function Signed(negative: bool, n: nat): int {
    if negative then -(n as int) else n
  }

  /** Python's `int(s)` on a string: surrounding whitespace, one optional sign, ASCII digits. */
  function ParseInt(s: string): Option<int>
  {
    ParseSigned(Strip(s))
  }

  /** One optional sign followed by digits, with nothing around them. */
  function ParseSigned(t: string): Option<int>
  {
    if |t| > 0 && (t[0] == '-' || t[0] == '+') then
      if IsDigits(t[1..]) then Some(Signed(t[0] == '-', DigitsValue(t[1..]))) else None
    else if IsDigits(t) then Some(DigitsValue(t))
    else None
  }

  /** `int(s)` accepts exactly one optional sign followed by digits, once whitespace is stripped. */
  lemma ParseIntAccepts(s: string)
    ensures var t := Strip(s);
            ParseInt(s).Some? <==>
              IsDigits(t) || (|t| > 1 && (t[0] == '-' || t[0] == '+') && IsDigits(t[1..]))
    ensures IsDigits(Strip(s)) ==> ParseInt(s) == Some(DigitsValue(Strip(s)))
  {
  }

  /** `int(str(i)) == i` for every integer. */
  lemma ParseIntRoundTrip(i: int)
    ensures ParseInt(IntToStr(i)) == Some(i)
  {
    var s := IntToStr(i);
    StripNoEdgeSpace(s);
    if i < 0 {
      assert s[1..] == NatToDigits(-i);
      DigitsRoundTrip(-i);
    } else {
      DigitsRoundTrip(i);
    }
  }

  /**
   * `int(float(t))` for a string made of digits, `.` and signs only (the
   * strings that reach it in this code): one optional sign, then digits with
   * an optional fraction, or a bare fraction; the fraction is dropped, which
   * truncates toward zero.
   */
  function FloatTrunc(t: string): (r: Option<int>)
    ensures r.Some? ==> |t| > 0
  {
    var negative := |t| > 0 && t[0] == '-';
    var body := Unsigned(t);
    var parts := Split(body, '.');
    if |parts| == 1 then
      if IsDigits(body) then Some(Signed(negative, DigitsValue(body))) else None
    else if |parts| == 2 && (|parts[0]| > 0 || |parts[1]| > 0)
            && AllDigits(parts[0]) && AllDigits(parts[1]) then
      Some(Signed(negative, DigitsValue(parts[0])))
    else None
  }

  /** A string of digits holds no other character. */
  lemma DigitsExclude(s: string, c: char)
    requires AllDigits(s) && !IsDigit(c)
    ensures c !in s
  {
  }

  /** `int(float(str(i))) == i`. */
  lemma FloatTruncOfIntToStr(i: int)
    ensures FloatTrunc(IntToStr(i)) == Some(i)
  {
    var s := IntToStr(i);
    var body := if i < 0 then s[1..] else s;
    assert body == NatToDigits(if i < 0 then -i else i);
    DigitsExclude(body, '.');
    SplitWithout(body, '.');
    DigitsRoundTrip(if i < 0 then -i else i);
  }

  /** The part of the text after an optional sign. */
  function Unsigned(t: string): string {
    if |t| > 0 && (t[0] == '-' || t[0] == '+') then t[1..] else t
  }

  /** A fraction is dropped toward zero: `int(float("-ip.fp")) == -ip`. */
  lemma FloatTruncDropsFraction(ip: string, fp: string, negative: bool)
    requires IsDigits(ip) && AllDigits(fp)
    ensures FloatTrunc((if negative then "-" else "") + (ip + "." + fp)) == Some(Signed(negative, DigitsValue(ip)))
  {
    var body := ip + "." + fp;
    var t := (if negative then "-" else "") + body;
    DigitsExclude(ip, '.');
    DigitsExclude(fp, '.');
    SplitAtOnly(ip, fp, '.');
    assert Split(body, '.') == [ip, fp];
    if negative {
      assert t[1..] == body;
    } else {
      assert t[0] == ip[0];
    }
    assert Unsigned(t) == body;
    FloatTruncOfParts(t, ip, fp);
  }

  lemma FloatTruncOfParts(t: string, ip: string, fp: string)
    requires Split(Unsigned(t), '.') == [ip, fp]
    requires AllDigits(ip) && AllDigits(fp) && |ip| > 0
    ensures FloatTrunc(t) == Some(Signed(|t| > 0 && t[0] == '-', DigitsValue(ip)))
  {
  }

  /** Splitting `a + [sep] + b` where neither side holds the separator gives `[a, b]`. */
  lemma SplitAtOnly(a: string, b: string, sep: char)
    requires sep !in a && sep !in b
    ensures Split(a + [sep] + b, sep) == [a, b]
  {
    SplitCons(a, b, sep);
    SplitWithout(b, sep);
  }

  /**
   * `float(t)` on decimal text: surrounding whitespace, one optional sign,
   * digits with an optional fraction (either side may be empty, not both).
   */
  function ParseFloat(s: string): (r: Option<real>)
    ensures IsDigits(Strip(s)) ==> r == Some(DigitsValue(Strip(s)) as real)
  {
    var t := Strip(s);
    var negative := |t| > 0 && t[0] == '-';
    var body := if |t| > 0 && (t[0] == '-' || t[0] == '+') then t[1..] else t;
    var parts := Split(body, '.');
    var magnitude :=
      if |parts| == 1 then
        if IsDigits(body) then Some(DigitsValue(body) as real) else None
      else if |parts| == 2 && (|parts[0]| > 0 || |parts[1]| > 0)
              && AllDigits(parts[0]) && AllDigits(parts[1]) then
        Some(DigitsValue(parts[0]) as real + DigitsValue(parts[1]) as real / Pow10(|parts[1]|) as real)
      else None;
    DigitsSplitWhole(body);
    if magnitude.None? then None
    else if negative then Some(-magnitude.value) else Some(magnitude.value)
  }

  /** A digit string has no point, so it splits into itself. */
  lemma DigitsSplitWhole(s: string)
    ensures IsDigits(s) ==> Split(s, '.') == [s]
  {
    if IsDigits(s) {
      assert '.' !in s;
      SplitWithout(s, '.');
    }
  }

  /** `int()` of two digits is their two-digit value. */
  lemma TwoDigits(s: string)
    ensures |s| == 2 && IsDigits(s) ==>
              ParseInt(s) == Some(10 * DigitValue(s[0]) + DigitValue(s[1]))
  {
    if |s| == 2 && IsDigits(s) {
      assert IsDigit(s[0]) && IsDigit(s[1]);
      StripNoEdgeSpace(s);
      ParseIntAccepts(s);
      assert s[..1][..0] == [];
      assert DigitsValue(s[..1]) == DigitValue(s[0]);
    }
  }

  /** `int()` of a single digit is its value. */
  lemma OneDigit(p: string, c: char)
    requires |p| == 1 && p[0] == c && IsDigit(c)
    ensures ParseInt(p) == Some(DigitValue(c))
  {
    assert IsDigits(p);
    StripNoEdgeSpace(p);
    ParseIntAccepts(p);
    assert p[..0] == [];
  }

  /** `int("0") == 0`, the value of a missing field read with a `"0"` default. */
  lemma ParseZero()
    ensures ParseInt("0") == Some(0)
  {
    OneDigit("0", '0');
  }

  /** `float()` of plain digits is their value. */
  lemma ParseFloatDigits(s: string)
    requires IsDigits(s)
    ensures ParseFloat(s) == Some(DigitsValue(s) as real)
  {
    StripNoEdgeSpace(s);
  }

  /** `float("0") == 0.0`, the value of a missing field read with a `"0"` default. */
  lemma ParseFloatZero()
    ensures ParseFloat("0") == Some(0.0)
  {
    ParseFloatDigits("0");
  }
}
