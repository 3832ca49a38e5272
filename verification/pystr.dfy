/**
 * The handful of Python `str` operations the trading code leans on:
 * `strip`, `isdigit`, `replace(c, "")`, `in`, `startswith`, `split`,
 * `zfill` and `lower`. Only the ASCII behaviour is modelled; Python's Unicode
 * whitespace and Unicode digits are not.
 */
module PyStr {

  /** Whitespace as `str.strip()` and `str.isspace()` see it, in the ASCII range. */
  predicate IsSpace(c: char) {
    9 <= c as int <= 13 || 28 <= c as int <= 32
  }

  predicate IsDigit(c: char) {
    '0' <= c <= '9'
  }

  /** `s.isdigit()`: non-empty and every character a digit. */
  predicate IsDigits(s: string) {
    |s| > 0 && forall i :: 0 <= i < |s| ==> IsDigit(s[i])
  }

  function LStrip(s: string): (r: string)
    ensures |r| <= |s| && r == s[|s| - |r|..]
    ensures |r| > 0 ==> !IsSpace(r[0])
  {
    if |s| > 0 && IsSpace(s[0]) then LStrip(s[1..]) else s
  }

  /** Everything `lstrip` removes is whitespace. */
  lemma {:induction false} LStripRemovesSpace(s: string)
    ensures forall i :: 0 <= i < |s| - |LStrip(s)| ==> IsSpace(s[i])
  {
    if |s| > 0 && IsSpace(s[0]) {
      LStripRemovesSpace(s[1..]);
      assert forall i :: 1 <= i < |s| ==> s[i] == s[1..][i - 1];
    }
  }

  function RStrip(s: string): (r: string)
    ensures |r| <= |s| && r == s[..|r|]
    ensures |r| > 0 ==> !IsSpace(r[|r| - 1])
  {
    if |s| > 0 && IsSpace(s[|s| - 1]) then RStrip(s[..|s| - 1]) else s
  }

  /** Everything `rstrip` removes is whitespace. */
  lemma {:induction false} RStripRemovesSpace(s: string)
    ensures forall i :: |RStrip(s)| <= i < |s| ==> IsSpace(s[i])
  {
    if |s| > 0 && IsSpace(s[|s| - 1]) {
      RStripRemovesSpace(s[..|s| - 1]);
    }
  }

  /** `s.strip()`: `s` without whitespace at either end. */
  function Strip(s: string): (r: string)
    ensures |r| > 0 ==> !IsSpace(r[0]) && !IsSpace(r[|r| - 1])
  {
    RStrip(LStrip(s))
  }

  /** What `strip` keeps is an infix of its input. */
  lemma StripInfix(s: string)
    ensures exists a :: OccursAt(s, Strip(s), a)
  {
    var l := LStrip(s);
    assert Strip(s) == RStrip(l);
    assert OccursAt(s, RStrip(l), |s| - |l|);
  }

  /** `strip` gives the empty string exactly when the input is all whitespace. */
  lemma StripEmpty(s: string)
    ensures Strip(s) == [] <==> forall i :: 0 <= i < |s| ==> IsSpace(s[i])
  {
    var l := LStrip(s);
    assert Strip(s) == RStrip(l);
    LStripRemovesSpace(s);
    RStripRemovesSpace(l);
    assert |l| > 0 ==> |RStrip(l)| > 0;
    assert forall i :: |s| - |l| <= i < |s| ==> s[i] == l[i - (|s| - |l|)];
  }

  /** Stripping is idempotent. */
  lemma StripIdempotent(s: string)
    ensures Strip(Strip(s)) == Strip(s)
  {
    var t := Strip(s);
    if |t| > 0 {
      assert LStrip(t) == t;
      assert RStrip(t) == t;
    }
  }

  /** A character other than whitespace survives `strip`. */
  lemma StripKeepsNonSpace(s: string, c: char)
    requires c in s && !IsSpace(c)
    ensures c in Strip(s)
  {
    var l := LStrip(s);
    LStripRemovesSpace(s);
    RStripRemovesSpace(l);
    var i :| 0 <= i < |s| && s[i] == c;
    assert l[i - (|s| - |l|)] == c;
    assert Strip(s)[i - (|s| - |l|)] == c;
  }

  /** A string with no whitespace at its ends is left alone by `strip`. */
  lemma StripNoEdgeSpace(s: string)
    requires |s| > 0 ==> !IsSpace(s[0]) && !IsSpace(s[|s| - 1])
    ensures Strip(s) == s
  {
    assert LStrip(s) == s;
    assert RStrip(s) == s;
  }

  /** `s.replace(c, "")`. */
  function Remove(s: string, c: char): (r: string)
    ensures |r| <= |s|
    ensures forall x :: x in r <==> x in s && x != c
  {
    if |s| == 0 then ""
    else
      var rest := Remove(s[1..], c);
      assert forall x :: x in s <==> x == s[0] || x in s[1..];
      if s[0] == c then rest else [s[0]] + rest
  }

  /** Removing a character that does not occur changes nothing. */
  lemma {:induction false} RemoveAbsent(s: string, c: char)
    requires c !in s
    ensures Remove(s, c) == s
  {
    if |s| > 0 {
      assert c !in s[1..];
      RemoveAbsent(s[1..], c);
    }
  }

  /** `s.startswith(p)`. */
  predicate StartsWith(s: string, p: string) {
    |p| <= |s| && s[..|p|] == p
  }

  predicate OccursAt(s: string, sub: string, i: int) {
    0 <= i && i + |sub| <= |s| && s[i..i + |sub|] == sub
  }

  /** `sub in s`, searched from the left. */
  function Contains(s: string, sub: string): (r: bool)
    ensures r <==> exists i :: OccursAt(s, sub, i)
  {
    if |sub| > |s| then
      assert forall i :: !OccursAt(s, sub, i);
      false
    else if s[..|sub|] == sub then
      assert OccursAt(s, sub, 0);
      true
    else
      var rest := Contains(s[1..], sub);
      assert forall i :: OccursAt(s[1..], sub, i) <==> OccursAt(s, sub, i + 1);
      assert forall i :: OccursAt(s, sub, i) ==> i == 0 || OccursAt(s[1..], sub, i - 1);
      rest
  }

  /** `s[1:] if s.startswith('A') else s`: the exchange prefix of a stock code removed. */
  function DropA(s: string): (r: string)
    ensures StartsWith(s, "A") ==> [s[0]] + r == s
    ensures !StartsWith(s, "A") ==> r == s
  {
    if StartsWith(s, "A") then s[1..] else s
  }

  /** `"".join` with a separator character between consecutive parts. */
  function Join(parts: seq<string>, sep: char): string
  {
    if |parts| == 0 then ""
    else if |parts| == 1 then parts[0]
    else parts[0] + [sep] + Join(parts[1..], sep)
  }

  /** `s.split(sep)` for a one-character separator. */
  function Split(s: string, sep: char): (r: seq<string>)
    ensures |r| >= 1
  {
    if |s| == 0 then [""]
    else
      var rest := Split(s[1..], sep);
      if s[0] == sep then [""] + rest
      else [[s[0]] + rest[0]] + rest[1..]
  }

  /**
   * The parts of a split hold no separator, and joining them back with the
   * separator gives the original text.
   */
  lemma {:induction false} SplitJoin(s: string, sep: char)
    ensures forall k :: 0 <= k < |Split(s, sep)| ==> sep !in Split(s, sep)[k]
    ensures Join(Split(s, sep), sep) == s
  {
    if |s| > 0 {
      SplitJoin(s[1..], sep);
      var rest := Split(s[1..], sep);
      assert s == [s[0]] + s[1..];
      if s[0] != sep {
        var r := Split(s, sep);
        assert r[1..] == rest[1..];
        assert forall x :: x in r[0] <==> x == s[0] || x in rest[0];
      }
    }
  }

  /** A leading part free of the separator splits off as the first part. */
  lemma {:induction false} SplitCons(a: string, b: string, sep: char)
    requires sep !in a
    ensures Split(a + [sep] + b, sep) == [a] + Split(b, sep)
  {
    if |a| == 0 {
      assert a + [sep] + b == [sep] + b;
      assert ([sep] + b)[1..] == b;
    } else {
      assert (a + [sep] + b)[1..] == a[1..] + [sep] + b;
      assert sep !in a[1..];
      SplitCons(a[1..], b, sep);
      assert [a[0]] + a[1..] == a;
    }
  }

  /** A string holding the separator splits into at least two parts. */
  lemma {:induction false} SplitAtSeparator(s: string, sep: char)
    requires sep in s
    ensures |Split(s, sep)| >= 2
  {
    if s[0] != sep {
      assert sep in s[1..] by { assert forall x :: x in s && x != s[0] ==> x in s[1..]; }
      SplitAtSeparator(s[1..], sep);
    }
  }

  /** Every string, split on a separator it does not contain, is one part. */
  lemma {:induction false} SplitWithout(s: string, sep: char)
    requires sep !in s
    ensures Split(s, sep) == [s]
  {
    if |s| > 0 {
      assert sep !in s[1..];
      SplitWithout(s[1..], sep);
      assert [s[0]] + s[1..] == s;
    }
  }

  /** Leading whitespace does not survive `strip`. */
  lemma StripLeadingSpace(c: char, s: string)
    requires IsSpace(c)
    ensures Strip([c] + s) == Strip(s)
  {
    assert ([c] + s)[1..] == s;
  }

  /** `s.zfill(w)`: zeros inserted after an optional sign until the width is `w`. */
  function ZFill(s: string, w: int): (r: string)
    ensures |r| == if w > |s| then w else |s|
    ensures w <= |s| ==> r == s
    ensures w > |s| && !(|s| > 0 && (s[0] == '-' || s[0] == '+')) ==>
              r[w - |s|..] == s && forall i :: 0 <= i < w - |s| ==> r[i] == '0'
    ensures w > |s| && |s| > 0 && (s[0] == '-' || s[0] == '+') ==>
              r[0] == s[0] && r[1 + w - |s|..] == s[1..] && forall i :: 1 <= i < 1 + w - |s| ==> r[i] == '0'
  {
    if w <= |s| then s
    else if |s| > 0 && (s[0] == '-' || s[0] == '+') then [s[0]] + Zeros(w - |s|) + s[1..]
    else Zeros(w - |s|) + s
  }

  function Zeros(n: nat): (r: string)
    ensures |r| == n && forall i :: 0 <= i < n ==> r[i] == '0'
  {
    if n == 0 then "" else "0" + Zeros(n - 1)
  }

  function LowerChar(c: char): char {
    if 'A' <= c <= 'Z' then (c as int + 32) as char else c
  }

  /** `s.lower()` on ASCII letters. */
  function Lower(s: string): (r: string)
    ensures |r| == |s|
    ensures forall i :: 0 <= i < |s| ==> r[i] == LowerChar(s[i])
  {
    if |s| == 0 then "" else [LowerChar(s[0])] + Lower(s[1..])
  }
}
