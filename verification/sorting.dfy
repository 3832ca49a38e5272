/**
 * Python's ordering of strings and `list.sort(key=...)` on a string key:
 * a stable sort, written here as an insertion sort.
 */
module Sorting {

  /** `a <= b` on strings: lexicographic by code point, a prefix before its extensions. */
  predicate StrLe(a: string, b: string)
    decreases |a|
  {
    |a| == 0 || (|b| > 0 && (a[0] < b[0] || (a[0] == b[0] && StrLe(a[1..], b[1..]))))
  }

  lemma {:induction false} StrLeTotal(a: string, b: string)
    ensures StrLe(a, b) || StrLe(b, a)
    decreases |a|
  {
    if |a| > 0 && |b| > 0 && a[0] == b[0] {
      StrLeTotal(a[1..], b[1..]);
    }
  }

  lemma {:induction false} StrLeTrans(a: string, b: string, c: string)
    requires StrLe(a, b) && StrLe(b, c)
    ensures StrLe(a, c)
    decreases |a|
  {
    if |a| > 0 && a[0] == b[0] && b[0] == c[0] {
      StrLeTrans(a[1..], b[1..], c[1..]);
    }
  }

  predicate SortedBy<T>(s: seq<T>, key: T -> string) {
    forall i, j :: 0 <= i < j < |s| ==> StrLe(key(s[i]), key(s[j]))
  }

  /** Puts `x` after every element whose key is not above its own. */
  function Insert<T>(x: T, s: seq<T>, key: T -> string): (r: seq<T>)
    requires SortedBy(s, key)
    ensures multiset(r) == multiset(s) + multiset{x}
    ensures SortedBy(r, key)
    decreases |s|
  {
    if |s| == 0 then [x]
    else if StrLe(key(s[0]), key(x)) then
      var rest := Insert(x, s[1..], key);
      assert s == [s[0]] + s[1..];
      HeadBelowAll(s[0], s[1..], x, rest, key);
      [s[0]] + rest
    else
      BelowHeadBelowAll(x, s, key);
      [x] + s
  }

  /** An element whose key is below the head of a sorted list can go in front of it. */
  lemma BelowHeadBelowAll<T>(x: T, s: seq<T>, key: T -> string)
    requires |s| > 0 && SortedBy(s, key) && !StrLe(key(s[0]), key(x))
    ensures SortedBy([x] + s, key)
  {
    StrLeTotal(key(s[0]), key(x));
    forall j | 0 <= j < |s| ensures StrLe(key(x), key(s[j])) {
      if j > 0 {
        StrLeTrans(key(x), key(s[0]), key(s[j]));
      }
    }
    var r := [x] + s;
    forall i, j | 0 <= i < j < |r| ensures StrLe(key(r[i]), key(r[j])) {
      if i > 0 {
        assert r[i] == s[i - 1] && r[j] == s[j - 1];
      }
    }
  }

  /** A head below its tail and below `x` stays below everything the tail becomes with `x`. */
  lemma HeadBelowAll<T>(h: T, tail: seq<T>, x: T, rest: seq<T>, key: T -> string)
    requires forall j :: 0 <= j < |tail| ==> StrLe(key(h), key(tail[j]))
    requires StrLe(key(h), key(x))
    requires multiset(rest) == multiset(tail) + multiset{x}
    requires SortedBy(tail, key) && SortedBy(rest, key)
    ensures SortedBy([h] + rest, key)
  {
    forall j | 0 <= j < |rest| ensures StrLe(key(h), key(rest[j])) {
      assert rest[j] in multiset(rest);
      if rest[j] != x {
        assert rest[j] in multiset(tail);
        var k :| 0 <= k < |tail| && tail[k] == rest[j];
      }
    }
    var r := [h] + rest;
    forall i, j | 0 <= i < j < |r| ensures StrLe(key(r[i]), key(r[j])) {
      if i > 0 {
        assert r[i] == rest[i - 1] && r[j] == rest[j - 1];
      }
    }
  }

  /** `sorted(s, key=key)`: sorted, and a permutation of the input. */
  function SortBy<T>(s: seq<T>, key: T -> string): (r: seq<T>)
    ensures multiset(r) == multiset(s) && |r| == |s|
    ensures SortedBy(r, key)
  {
    if |s| == 0 then []
    else
      var sorted := SortBy(s[..|s| - 1], key);
      assert s == s[..|s| - 1] + [s[|s| - 1]];
      var r := Insert(s[|s| - 1], sorted, key);
      assert |r| == |multiset(r)|;
      r
  }

  /** `np.sort` on numbers: ascending order. */
  predicate Ascending(s: seq<real>) {
    forall i, j :: 0 <= i < j < |s| ==> s[i] <= s[j]
  }

  predicate Descending(s: seq<real>) {
    forall i, j :: 0 <= i < j < |s| ==> s[i] >= s[j]
  }

  function InsertReal(x: real, s: seq<real>): (r: seq<real>)
    requires Ascending(s)
    ensures multiset(r) == multiset(s) + multiset{x}
    ensures Ascending(r)
    decreases |s|
  {
    if |s| == 0 then [x]
    else if s[0] <= x then
      var rest := InsertReal(x, s[1..]);
      assert s == [s[0]] + s[1..];
      LeastStaysFirst(s[0], s[1..], x, rest);
      [s[0]] + rest
    else
      [x] + s
  }

  /** A value below a sorted tail and below `x` stays first once `x` joins the tail. */
  lemma LeastStaysFirst(h: real, tail: seq<real>, x: real, rest: seq<real>)
    requires forall j :: 0 <= j < |tail| ==> h <= tail[j]
    requires h <= x
    requires multiset(rest) == multiset(tail) + multiset{x}
    requires Ascending(rest)
    ensures Ascending([h] + rest)
  {
    forall j | 0 <= j < |rest| ensures h <= rest[j] {
      assert rest[j] in multiset(rest);
      if rest[j] != x {
        assert rest[j] in multiset(tail);
        var k :| 0 <= k < |tail| && tail[k] == rest[j];
      }
    }
  }

  function SortReals(s: seq<real>): (r: seq<real>)
    ensures multiset(r) == multiset(s) && |r| == |s|
    ensures Ascending(r)
  {
    if |s| == 0 then []
    else
      assert s == s[..|s| - 1] + [s[|s| - 1]];
      var r := InsertReal(s[|s| - 1], SortReals(s[..|s| - 1]));
      assert |r| == |multiset(r)|;
      r
  }

  function Reverse<T>(s: seq<T>): (r: seq<T>)
    ensures |r| == |s|
    ensures forall i :: 0 <= i < |s| ==> r[i] == s[|s| - 1 - i]
    ensures multiset(r) == multiset(s)
  {
    if |s| == 0 then []
    else
      assert s == [s[0]] + s[1..];
      Reverse(s[1..]) + [s[0]]
  }

  /** `np.sort(s)[::-1]`: descending order, the same values. */
  function SortRealsDescending(s: seq<real>): (r: seq<real>)
    ensures multiset(r) == multiset(s) && |r| == |s|
    ensures Descending(r)
  {
    var up := SortReals(s);
    ReversedAscending(up);
    Reverse(up)
  }

  lemma ReversedAscending(up: seq<real>)
    requires Ascending(up)
    ensures Descending(Reverse(up))
  {
    var r := Reverse(up);
    forall i, j | 0 <= i < j < |r| ensures r[i] >= r[j] {
      assert r[i] == up[|up| - 1 - i];
      assert r[j] == up[|up| - 1 - j];
    }
  }
}
