/**
 * The numeric transform applied to API responses before they are used:
 * strings that look like signed decimal numbers become numbers (whole
 * values as integers), the stock code is printed and zero-filled to six
 * characters when it arrives as a number, and the execution-time and date
 * fields keep their text. Lists and objects are walked recursively.
 *
 * Numbers are exact reals here; the rounding of Python floats is not
 * modelled, and the text Python prints for a float is an input.
 */
module NumericTransform {
  import opened Wrappers
  import opened PyStr
  import Decimal

  datatype Json =
    | JNull
    | JBool(b: bool)
    | JInt(i: int)
    | JFloat(x: real)
    | JStr(s: string)
    | JList(items: seq<Json>)
    | JObj(fields: seq<Member>)

  /** One key of an object with its value, in insertion order. */
  datatype Member = Member(key: string, value: Json)

  /** Keys whose values are never converted. */
  predicate KeptAsText(key: string)
  {
    key == "stk_cd" || key == "cntr_tm" || key == "dt"
  }

  /** `isinstance(v, (int, float))`: booleans are integers to Python. */
  predicate IsNumber(v: Json)
  {
    v.JInt? || v.JFloat? || v.JBool?
  }

  /** `str(v)` of a number; the text printed for a float is an input. */
  function NumberText(v: Json, floatText: real -> string): string
    requires IsNumber(v)
  {
    match v
    case JInt(i) => Decimal.IntToStr(i)
    case JFloat(x) => floatText(x)
    case JBool(b) => if b then "True" else "False"
  }

  /**
   * The `stk_cd` formatter: a number is printed and zero-filled to six
   * characters (a boolean prints as `True` or `False` first); any other
   * value is kept. A zero-filled integer still reads as the same integer.
   */
  function FormatCode(v: Json, floatText: real -> string): (r: Json)
    ensures IsNumber(v) ==> r.JStr? && |r.s| >= 6
    ensures !IsNumber(v) ==> r == v
    ensures v.JInt? ==> r.JStr? && Decimal.ParseInt(r.s) == Some(v.i)
    ensures v.JBool? ==> r == JStr(if v.b then "00True" else "0False")
  {
    if IsNumber(v) then
      var r := JStr(ZFill(NumberText(v, floatText), 6));
      if v.JInt? then ZFilledIntegerReadsBack(v.i); r else r
    else v
  }

  lemma ZFilledIntegerReadsBack(i: int)
    ensures Decimal.ParseInt(ZFill(Decimal.IntToStr(i), 6)) == Some(i)
  {
    var s := Decimal.IntToStr(i);
    var r := ZFill(s, 6);
    var n := if i < 0 then -i else i;
    var digits := Decimal.NatToDigits(n);
    if 6 <= |s| {
      Decimal.ParseIntRoundTrip(i);
    } else if i < 0 {
      assert s == "-" + digits;
      var z := r[1..1 + 6 - |s|];
      assert r[1..] == z + digits;
      Decimal.LeadingZeros(z, digits);
      Decimal.DigitsRoundTrip(n);
      StripNoEdgeSpace(r);
      assert Decimal.ParseSigned(r) == Some(i);
    } else {
      var z := r[..6 - |s|];
      assert r == z + digits;
      Decimal.LeadingZeros(z, digits);
      Decimal.DigitsRoundTrip(n);
      StripNoEdgeSpace(r);
      assert Decimal.ParseSigned(r) == Some(i);
    }
  }

  // ---------------------------------------------------------------------
  // Numeric text
  // ---------------------------------------------------------------------

  /**
   * The whole text matches `[+-]?\d+(\.\d+)?`: one optional sign, digits,
   * and optionally a point followed by digits.
   */
  predicate DecimalText(t: string)
  {
    var parts := Split(Decimal.Unsigned(t), '.');
    IsDigits(parts[0]) && (|parts| == 1 || (|parts| == 2 && IsDigits(parts[1])))
  }

  /** The pattern anchored with `$`, which also matches just before a final newline. */
  predicate LooksNumeric(s: string)
  {
    DecimalText(s) || (|s| > 0 && s[|s| - 1] == '\n' && DecimalText(s[..|s| - 1]))
  }

  /** The matched text without the final newline `$` let through. */
  function Matched(s: string): (t: string)
    requires LooksNumeric(s)
    ensures DecimalText(t)
  {
    if DecimalText(s) then s else s[..|s| - 1]
  }

  /** The value of the digits after the sign, with the fraction when there is one. */
  function Magnitude(t: string): (r: real)
    requires DecimalText(t)
    ensures r >= 0.0
  {
    var parts := Split(Decimal.Unsigned(t), '.');
    var whole := Decimal.DigitsValue(parts[0]) as real;
    if |parts| == 1 then whole
    else whole + Decimal.DigitsValue(parts[1]) as real / Decimal.Pow10(|parts[1]|) as real
  }

  /** `-float(data[1:])` after a minus sign, `float` of the rest otherwise. */
  function TextValue(s: string): real
    requires LooksNumeric(s)
  {
    var t := Matched(s);
    if |t| > 0 && t[0] == '-' then -Magnitude(t) else Magnitude(t)
  }

  /** `int(v)` when `v.is_integer()`, else the float itself. */
  function ToNumber(v: real): (r: Json)
    ensures r.JInt? || r.JFloat?
    ensures r.JInt? <==> v == v.Floor as real
    ensures r.JInt? ==> r.i as real == v
    ensures r.JFloat? ==> r.x == v
  {
    if v == v.Floor as real then JInt(v.Floor) else JFloat(v)
  }

  /** A string that looks numeric becomes its number; every other string is kept. */
  function TransformText(s: string): (r: Json)
    ensures !LooksNumeric(s) ==> r == JStr(s)
    ensures LooksNumeric(s) ==> r == ToNumber(TextValue(s))
  {
    if LooksNumeric(s) then ToNumber(TextValue(s)) else JStr(s)
  }

  // ---------------------------------------------------------------------
  // The walk
  // ---------------------------------------------------------------------

  /** The value stored under `key` in a transformed object. */
  function TransformField(key: string, v: Json, floatText: real -> string): (r: Json)
    decreases v, 1
  {
    if key == "stk_cd" then FormatCode(v, floatText)
    else if KeptAsText(key) then v
    else Transform(v, floatText)
  }

  /**
   * `transform_numeric_data`. The shape survives: an object keeps its keys
   * in order, with the execution time and date unchanged, the stock code
   * formatted and every other field transformed; a list keeps its length
   * and transforms each item; numbers, booleans and null are kept; a string
   * becomes the number it spells or stays the same string.
   */
  function Transform(d: Json, floatText: real -> string): (r: Json)
    ensures d.JObj? ==> r.JObj? && |r.fields| == |d.fields|
    ensures d.JObj? ==> forall i :: 0 <= i < |d.fields| ==> r.fields[i].key == d.fields[i].key
    ensures d.JObj? ==> forall i :: 0 <= i < |d.fields| && (d.fields[i].key == "cntr_tm" || d.fields[i].key == "dt") ==>
              r.fields[i].value == d.fields[i].value
    ensures d.JObj? ==> forall i :: 0 <= i < |d.fields| && d.fields[i].key == "stk_cd" ==>
              r.fields[i].value == FormatCode(d.fields[i].value, floatText)
    ensures d.JObj? ==> forall i :: 0 <= i < |d.fields| && !KeptAsText(d.fields[i].key) ==>
              r.fields[i].value == Transform(d.fields[i].value, floatText)
    ensures d.JList? ==> r.JList? && |r.items| == |d.items|
    ensures d.JList? ==> forall i :: 0 <= i < |d.items| ==> r.items[i] == Transform(d.items[i], floatText)
    ensures d.JInt? || d.JFloat? || d.JBool? || d.JNull? ==> r == d
    ensures d.JStr? ==> r == TransformText(d.s)
    ensures d.JStr? ==> r == d || r.JInt? || r.JFloat?
    decreases d, 0
  {
    match d
    case JObj(fields) =>
      JObj(seq(|fields|, i requires 0 <= i < |fields| =>
        Member(fields[i].key, TransformField(fields[i].key, fields[i].value, floatText))))
    case JList(items) =>
      JList(seq(|items|, i requires 0 <= i < |items| => Transform(items[i], floatText)))
    case JStr(s) => TransformText(s)
    case _ => d
  }

  /** A converted value is never numeric text again, and a formatted stock code is never a number. */
  lemma TextSettles(s: string)
    ensures TransformText(s).JStr? ==> !LooksNumeric(TransformText(s).s)
  {
  }

  /** Transforming twice is transforming once. */
  lemma {:induction false} TransformIdempotent(d: Json, floatText: real -> string)
    ensures Transform(Transform(d, floatText), floatText) == Transform(d, floatText)
    decreases d
  {
    var r := Transform(d, floatText);
    match d
    case JObj(fields) =>
      var again := Transform(r, floatText);
      assert |again.fields| == |fields|;
      forall i | 0 <= i < |fields|
        ensures again.fields[i] == r.fields[i]
      {
        var k := fields[i].key;
        var v := fields[i].value;
        assert r.fields[i] == Member(k, TransformField(k, v, floatText));
        assert again.fields[i] == Member(k, TransformField(k, r.fields[i].value, floatText));
        if k == "stk_cd" {
          assert !IsNumber(FormatCode(v, floatText));
        } else if !KeptAsText(k) {
          TransformIdempotent(v, floatText);
        }
      }
    case JList(items) =>
      var again := Transform(r, floatText);
      forall i | 0 <= i < |items|
        ensures again.items[i] == r.items[i]
      {
        TransformIdempotent(items[i], floatText);
      }
    case JStr(s) =>
      TextSettles(s);
    case _ =>
  }

  // ---------------------------------------------------------------------
  // What numeric text becomes
  // ---------------------------------------------------------------------

  /** Text that is digits after its optional sign reads as those digits, signed. */
  lemma WholeText(t: string)
    requires IsDigits(Decimal.Unsigned(t))
    ensures LooksNumeric(t)
    ensures TextValue(t) == Decimal.Signed(|t| > 0 && t[0] == '-', Decimal.DigitsValue(Decimal.Unsigned(t))) as real
  {
    var u := Decimal.Unsigned(t);
    assert '.' !in u;
    SplitWithout(u, '.');
    assert DecimalText(t);
  }

  /** A whole number, signed or not, becomes that integer. */
  lemma WholeTextIsInteger(t: string)
    requires IsDigits(Decimal.Unsigned(t))
    ensures TransformText(t) == JInt(Decimal.Signed(|t| > 0 && t[0] == '-', Decimal.DigitsValue(Decimal.Unsigned(t))))
  {
    WholeText(t);
  }

  /** The text `str(i)` turns back into the integer `i`. */
  lemma IntegerTextReadsBack(i: int)
    ensures TransformText(Decimal.IntToStr(i)) == JInt(i)
  {
    var s := Decimal.IntToStr(i);
    var n := if i < 0 then -i else i;
    assert Decimal.Unsigned(s) == Decimal.NatToDigits(n);
    WholeTextIsInteger(s);
    Decimal.DigitsRoundTrip(n);
  }

  /** An explicit plus sign reads as a positive number. */
  lemma PlusSignReadsPositive(n: nat)
    ensures TransformText("+" + Decimal.NatToDigits(n)) == JInt(n)
  {
    var s := "+" + Decimal.NatToDigits(n);
    assert Decimal.Unsigned(s) == Decimal.NatToDigits(n);
    WholeTextIsInteger(s);
    Decimal.DigitsRoundTrip(n);
  }

  /** `±(ip + fp / 10^|fp|)`. */
  function FractionValue(negative: bool, ip: string, fp: string): real
    requires IsDigits(ip) && IsDigits(fp)
  {
    var x := Decimal.DigitsValue(ip) as real + Decimal.DigitsValue(fp) as real / Decimal.Pow10(|fp|) as real;
    if negative then -x else x
  }

  /**
   * `ip.fp` with an optional minus sign: a fraction of zeros gives the
   * integer, any other fraction the float `±(ip + fp / 10^|fp|)`.
   */
  lemma FractionText(negative: bool, ip: string, fp: string)
    requires IsDigits(ip) && IsDigits(fp)
    ensures var v := FractionValue(negative, ip, fp);
            TransformText((if negative then "-" else "") + ip + "." + fp) ==
              if Decimal.DigitsValue(fp) == 0 then JInt(v.Floor) else JFloat(v)
  {
    var s := (if negative then "-" else "") + ip + "." + fp;
    var a := Decimal.DigitsValue(fp);
    var v := FractionValue(negative, ip, fp);
    assert TransformText(s) == ToNumber(v) by {
      FractionParts(negative, ip, fp);
      TextBecomes(s, v);
    }
    assert v == v.Floor as real <==> a == 0 by {
      Decimal.DigitsBelowPow10(fp);
      FractionBetween(Decimal.DigitsValue(ip), a, Decimal.Pow10(|fp|), negative, v);
    }
    WholeOrFloat(v, a == 0);
  }

  lemma TextBecomes(s: string, v: real)
    requires LooksNumeric(s) && TextValue(s) == v
    ensures TransformText(s) == ToNumber(v)
  {
  }

  lemma WholeOrFloat(v: real, whole: bool)
    requires v == v.Floor as real <==> whole
    ensures ToNumber(v) == if whole then JInt(v.Floor) else JFloat(v)
  {
  }

  /** Signed `ip.fp` is numeric text whose value is the whole part plus the scaled fraction. */
  lemma FractionParts(negative: bool, ip: string, fp: string)
    requires IsDigits(ip) && IsDigits(fp)
    ensures var s := (if negative then "-" else "") + ip + "." + fp;
            var magnitude := Decimal.DigitsValue(ip) as real + Decimal.DigitsValue(fp) as real / Decimal.Pow10(|fp|) as real;
            LooksNumeric(s) && TextValue(s) == if negative then -magnitude else magnitude
  {
    var s := (if negative then "-" else "") + ip + "." + fp;
    FractionMagnitude(negative, ip, fp);
    assert Matched(s) == s;
  }

  lemma FractionMagnitude(negative: bool, ip: string, fp: string)
    requires IsDigits(ip) && IsDigits(fp)
    ensures var s := (if negative then "-" else "") + ip + "." + fp;
            DecimalText(s) && (|s| > 0 && s[0] == '-' <==> negative) &&
            Magnitude(s) == Decimal.DigitsValue(ip) as real + Decimal.DigitsValue(fp) as real / Decimal.Pow10(|fp|) as real
  {
    var body := ip + "." + fp;
    var s := (if negative then "-" else "") + ip + "." + fp;
    assert Decimal.Unsigned(s) == body by {
      if negative {
        assert s == "-" + body;
        assert s[1..] == body;
      } else {
        assert s == body && s[0] == ip[0];
      }
    }
    assert '.' !in ip && '.' !in fp;
    Decimal.SplitAtOnly(ip, fp, '.');
    assert ip + [('.')] + fp == body;
    assert Split(Decimal.Unsigned(s), '.') == [ip, fp];
  }

  /** `n + a/p` with `0 <= a < p` is whole exactly when `a` is 0, and so is its negation. */
  lemma FractionBetween(n: nat, a: nat, p: nat, negative: bool, v: real)
    requires 0 <= a < p
    requires v == if negative then -(n as real + a as real / p as real) else n as real + a as real / p as real
    ensures v == v.Floor as real <==> a == 0
  {
    var f := a as real / p as real;
    assert 0.0 <= f < 1.0;
    var x := n as real + f;
    if a == 0 {
      assert x == n as real;
    } else {
      assert 0.0 < f;
      if negative {
        assert -(n as real) - 1.0 < -x < -(n as real);
        assert (-x).Floor == -(n as int) - 1;
      } else {
        assert n as real < x < n as real + 1.0;
        assert x.Floor == n;
      }
    }
  }

  /** Numeric text holds no newline, so a final newline after it is ignored. */
  lemma FinalNewlineIgnored(t: string)
    requires DecimalText(t)
    ensures TransformText(t + "\n") == TransformText(t)
  {
    var u := Decimal.Unsigned(t);
    var parts := Split(u, '.');
    SplitJoin(u, '.');
    if |parts| == 2 {
      assert u == parts[0] + ['.'] + parts[1];
    }
    assert '\n' !in u;
    assert '\n' !in t by {
      if |t| > 0 && (t[0] == '-' || t[0] == '+') {
        assert t == [t[0]] + u;
      }
    }
    var s := t + "\n";
    assert s[..|s| - 1] == t;
    assert !DecimalText(s) by {
      NewlineNotNumeric(t);
    }
  }

  lemma NewlineNotNumeric(t: string)
    ensures !DecimalText(t + "\n")
  {
    var s := t + "\n";
    var u := Decimal.Unsigned(s);
    assert |u| > 0 && u[|u| - 1] == '\n';
    SplitJoin(u, '.');
  }
}
