/**
 * The JSON text a step manager keeps its list of trade prices in:
 * `json.dumps` writes `[p0, p1, ...]` and `json.loads` reads it back.
 * Only integer lists are modelled.
 */
module PriceListJson {
  import opened Wrappers
  import opened PyStr
  import opened Decimal

  /** The items of `json.dumps(xs)`, separated by a comma and a space. */
  function EncodeItems(xs: seq<int>): string
  {
    if |xs| == 0 then ""
    else if |xs| == 1 then IntToStr(xs[0])
    else IntToStr(xs[0]) + ", " + EncodeItems(xs[1..])
  }

  /** `json.dumps(xs)` for a list of integers. */
  function Encode(xs: seq<int>): (t: string)
    ensures |t| >= 2 && t[0] == '[' && t[|t| - 1] == ']'
  {
    "[" + EncodeItems(xs) + "]"
  }

  /** The digits of an item after its optional minus sign. */
  function ItemDigits(t: string): string {
    if |t| > 0 && t[0] == '-' then t[1..] else t
  }

  /**
   * One list item: surrounding whitespace, an optional minus sign, digits;
   * JSON allows no plus sign and no leading zero before another digit.
   */
  function DecodeItem(p: string): (r: Option<int>)
    ensures var t := Strip(p);
            r.Some? <==> !(|t| > 0 && t[0] == '+') && !(|ItemDigits(t)| > 1 && ItemDigits(t)[0] == '0')
                         && ParseSigned(t).Some?
    ensures r.Some? ==> r == ParseSigned(Strip(p))
  {
    var t := Strip(p);
    if |t| > 0 && t[0] == '+' then None
    else if |ItemDigits(t)| > 1 && ItemDigits(t)[0] == '0' then None
    else ParseSigned(t)
  }

  /** `json.loads` refuses a leading zero: a list such as `[01]` is a decode error. */
  lemma LeadingZeroRejected(digits: string)
    requires |digits| > 1 && digits[0] == '0' && IsDigits(digits)
    ensures Decode("[" + digits + "]").None?
  {
    assert IsDigit(digits[0]) && IsDigit(digits[|digits| - 1]);
    StripNoEdgeSpace(digits);
    assert Strip(digits) == digits;
    assert ItemDigits(digits) == digits;
    assert DecodeItem(digits).None?;
    DigitsExclude(digits, ',');
    SplitWithout(digits, ',');
    assert DecodeItems([digits]).None?;
    DecodeBracketed(digits);
  }

  function DecodeItems(parts: seq<string>): (r: Option<seq<int>>)
    ensures r.Some? ==> |r.value| == |parts|
  {
    if |parts| == 0 then Some([])
    else
      var head := DecodeItem(parts[0]);
      var tail := DecodeItems(parts[1..]);
      if head.Some? && tail.Some? then Some([head.value] + tail.value) else None
  }

  /** `json.loads(t)` for a list of integers; `None` stands for a decode error. */
  function Decode(t: string): Option<seq<int>>
  {
    var s := Strip(t);
    if |s| < 2 || s[0] != '[' || s[|s| - 1] != ']' then None
    else
      var inner := s[1..|s| - 1];
      if |Strip(inner)| == 0 then Some([])
      else DecodeItems(Split(inner, ','))
  }

  /** Items written after a comma: each preceded by one space. */
  function Spaced(ys: seq<int>): (r: seq<string>)
    ensures |r| == |ys|
  {
    if |ys| == 0 then [] else [" " + IntToStr(ys[0])] + Spaced(ys[1..])
  }

  /** The comma-separated parts of `EncodeItems(xs)`: the first bare, the rest after a space. */
  function Pieces(xs: seq<int>): seq<string>
    requires |xs| > 0
  {
    [IntToStr(xs[0])] + Spaced(xs[1..])
  }

  lemma IntToStrHasNoComma(x: int)
    ensures ',' !in IntToStr(x)
  {
    var s := IntToStr(x);
    if x < 0 {
      DigitsExclude(s[1..], ',');
      assert s == [s[0]] + s[1..];
    } else {
      DigitsExclude(s, ',');
    }
  }

  lemma {:induction false} SplitEncodeItems(xs: seq<int>)
    requires |xs| > 0
    ensures Split(EncodeItems(xs), ',') == Pieces(xs)
  {
    IntToStrHasNoComma(xs[0]);
    if |xs| == 1 {
      SplitWithout(IntToStr(xs[0]), ',');
    } else {
      var rest := EncodeItems(xs[1..]);
      assert EncodeItems(xs) == IntToStr(xs[0]) + [','] + (" " + rest);
      SplitCons(IntToStr(xs[0]), " " + rest, ',');
      SplitEncodeItems(xs[1..]);
      SplitLeadingSpace(rest);
      assert Split(" " + rest, ',') == Spaced(xs[1..]);
    }
  }

  /** A space before the text joins the first part and leaves the rest alone. */
  lemma SplitLeadingSpace(s: string)
    ensures var r := Split(" " + s, ','); var q := Split(s, ',');
            r == [" " + q[0]] + q[1..]
  {
    assert (" " + s)[1..] == s;
  }

  lemma IntToStrDecodes(x: int)
    ensures DecodeItem(IntToStr(x)) == Some(x)
  {
    var s := IntToStr(x);
    StripNoEdgeSpace(s);
    assert Strip(s) == s;
    assert s[0] != '+';
    assert ItemDigits(s) == NatToDigits(if x < 0 then -x else x);
    ParseIntRoundTrip(x);
    assert ParseSigned(s) == Some(x);
  }

  lemma SpacedIntToStrDecodes(x: int)
    ensures DecodeItem(" " + IntToStr(x)) == Some(x)
  {
    var s := IntToStr(x);
    StripLeadingSpace(' ', s);
    assert Strip(" " + s) == Strip(s);
    IntToStrDecodes(x);
  }

  /** Parts that each decode give the list of their values. */
  lemma {:induction false} DecodeAll(parts: seq<string>, xs: seq<int>)
    requires |parts| == |xs|
    requires forall k :: 0 <= k < |parts| ==> DecodeItem(parts[k]) == Some(xs[k])
    ensures DecodeItems(parts) == Some(xs)
  {
    if |parts| > 0 {
      DecodeAll(parts[1..], xs[1..]);
      assert xs == [xs[0]] + xs[1..];
    }
  }

  lemma {:induction false} SpacedAt(ys: seq<int>, k: int)
    requires 0 <= k < |ys|
    ensures Spaced(ys)[k] == " " + IntToStr(ys[k])
  {
    if k > 0 {
      SpacedAt(ys[1..], k - 1);
    }
  }

  lemma DecodePieces(xs: seq<int>)
    requires |xs| > 0
    ensures DecodeItems(Pieces(xs)) == Some(xs)
  {
    var ps := Pieces(xs);
    forall k | 0 <= k < |ps|
      ensures DecodeItem(ps[k]) == Some(xs[k])
    {
      PieceDecodes(xs, k);
    }
    DecodeAll(ps, xs);
  }

  lemma PieceDecodes(xs: seq<int>, k: int)
    requires 0 <= k < |xs|
    ensures DecodeItem(Pieces(xs)[k]) == Some(xs[k])
  {
    var p := Pieces(xs)[k];
    if k == 0 {
      assert p == IntToStr(xs[0]);
      BareDecodes(p, xs[0]);
    } else {
      var ys := xs[1..];
      assert p == Spaced(ys)[k - 1];
      SpacedAt(ys, k - 1);
      assert ys[k - 1] == xs[k];
      SpacedDecodes(p, xs[k]);
    }
  }

  lemma BareDecodes(p: string, x: int)
    requires p == IntToStr(x)
    ensures DecodeItem(p) == Some(x)
  {
    IntToStrDecodes(x);
  }

  lemma SpacedDecodes(p: string, x: int)
    requires p == " " + IntToStr(x)
    ensures DecodeItem(p) == Some(x)
  {
    SpacedIntToStrDecodes(x);
  }

  /** Text between brackets is decoded as its comma-separated items. */
  lemma DecodeBracketed(inner: string)
    ensures Decode("[" + inner + "]") ==
              if |Strip(inner)| == 0 then Some([]) else DecodeItems(Split(inner, ','))
  {
    var t := "[" + inner + "]";
    StripNoEdgeSpace(t);
    assert t[1..|t| - 1] == inner;
  }

  /** The items of a non-empty list do not strip away to nothing. */
  lemma {:induction false} EncodeItemsNotBlank(xs: seq<int>)
    requires |xs| > 0
    ensures |Strip(EncodeItems(xs))| > 0
  {
    var inner := EncodeItems(xs);
    var s0 := IntToStr(xs[0]);
    assert inner[0] == s0[0] by {
      if |xs| > 1 {
        var head := s0 + ", ";
        assert inner == head + EncodeItems(xs[1..]);
        assert head[0] == s0[0];
      }
    }
    assert !IsSpace(inner[0]);
    StripEmpty(inner);
  }

  /** `json.loads(json.dumps(xs)) == xs` for every list of integers. */
  lemma RoundTrip(xs: seq<int>)
    ensures Decode(Encode(xs)) == Some(xs)
  {
    DecodeBracketed(EncodeItems(xs));
    if |xs| > 0 {
      EncodeItemsNotBlank(xs);
      SplitEncodeItems(xs);
      DecodePieces(xs);
    } else {
      StripEmpty("");
    }
  }
}
