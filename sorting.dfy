/**
 * Lexicographic order on strings by code point (Unicode scalar value),
 * standing for the comparator-less `Array.prototype.sort` order that
 * `env.sort()` uses, and a stable sort by a string key in that order.
 * JavaScript compares UTF-16 code units; the two orders agree except
 * between a character above U+FFFF and one from U+E000 to U+FFFF. The
 * lockfile writer sorts with `localeCompare` instead; its model uses this
 * order in its place.
 */
module Sorting {

  /** `a` sorts at or before `b`: `a` is a prefix of `b` or is smaller at the first difference. */
  predicate StrLe(a: string, b: string)
  {
    |a| == 0 || (|b| > 0 && (a[0] < b[0] || (a[0] == b[0] && StrLe(a[1..], b[1..]))))
  }

  lemma {:induction false} StrLeTotal(a: string, b: string)
    ensures StrLe(a, b) || StrLe(b, a)
    decreases |a|
  {
    if |a| > 0 && |b| > 0 && a[0] == b[0] {
      StrLeTotal(a[1..], b[1..]);
    }
  }

  lemma {:induction false} StrLeTransitive(a: string, b: string, c: string)
    requires StrLe(a, b) && StrLe(b, c)
    ensures StrLe(a, c)
    decreases |a|
  {
    if |a| > 0 && a[0] == b[0] && b[0] == c[0] {
      StrLeTransitive(a[1..], b[1..], c[1..]);
    }
  }

  lemma {:induction false} StrLeAntisymmetric(a: string, b: string)
    requires StrLe(a, b) && StrLe(b, a)
    ensures a == b
    decreases |a|
  {
    if |a| > 0 {
      StrLeAntisymmetric(a[1..], b[1..]);
      assert a == [a[0]] + a[1..] && b == [b[0]] + b[1..];
    }
  }

  /** `s` is in non-decreasing order of `key`. */
  ghost predicate SortedBy<T>(s: seq<T>, key: T -> string)
  {
    forall i, j :: 0 <= i < j < |s| ==> StrLe(key(s[i]), key(s[j]))
  }

  /** `x` placed before the first element it sorts at or before. */
  function Insert<T>(x: T, s: seq<T>, key: T -> string): (r: seq<T>)
    ensures multiset(r) == multiset(s) + multiset{x}
    ensures |r| == |s| + 1
  {
    if |s| == 0 then [x]
    else if StrLe(key(x), key(s[0])) then [x] + s
    else
      var r := [s[0]] + Insert(x, s[1..], key);
      assert s == [s[0]] + s[1..];
      r
  }

  lemma {:induction false} InsertSorted<T>(x: T, s: seq<T>, key: T -> string)
    requires SortedBy(s, key)
    ensures SortedBy(Insert(x, s, key), key)
    decreases |s|
  {
    if |s| > 0 {
      if StrLe(key(x), key(s[0])) {
        InsertFront(x, s, key);
      } else {
        StrLeTotal(key(x), key(s[0]));
        InsertSorted(x, s[1..], key);
        InsertAfterHead(x, s, key);
      }
    }
  }

  /** `x` sorting at or before the head of `s` goes in front, keeping the order. */
  lemma InsertFront<T>(x: T, s: seq<T>, key: T -> string)
    requires SortedBy(s, key) && |s| > 0 && StrLe(key(x), key(s[0]))
    ensures SortedBy([x] + s, key)
  {
    var r := [x] + s;
    forall i, j | 0 <= i < j < |r| ensures StrLe(key(r[i]), key(r[j])) {
      if i == 0 && j > 1 { StrLeTransitive(key(x), key(s[0]), key(s[j - 1])); }
    }
  }

  /** The head of `s` stays in front of `x` inserted into the (sorted) rest. */
  lemma InsertAfterHead<T>(x: T, s: seq<T>, key: T -> string)
    requires SortedBy(s, key) && |s| > 0 && StrLe(key(s[0]), key(x))
    requires SortedBy(Insert(x, s[1..], key), key)
    ensures SortedBy([s[0]] + Insert(x, s[1..], key), key)
  {
    var tail := Insert(x, s[1..], key);
    InsertAbove(x, s[1..], key, key(s[0]));
    var r := [s[0]] + tail;
    forall i, j | 0 <= i < j < |r| ensures StrLe(key(r[i]), key(r[j])) {
      if i > 0 { assert r[i] == tail[i - 1] && r[j] == tail[j - 1]; }
    }
  }

  /** Insertion keeps a lower bound that `x` and every element of `t` respect. */
  lemma InsertAbove<T>(x: T, t: seq<T>, key: T -> string, lo: string)
    requires StrLe(lo, key(x)) && forall i :: 0 <= i < |t| ==> StrLe(lo, key(t[i]))
    ensures forall j :: 0 <= j < |Insert(x, t, key)| ==> StrLe(lo, key(Insert(x, t, key)[j]))
  {
    var r := Insert(x, t, key);
    forall j | 0 <= j < |r| ensures StrLe(lo, key(r[j])) {
      assert r[j] in multiset(r);
      assert r[j] in multiset(t) + multiset{x};
      if r[j] != x {
        assert r[j] in t;
        var k :| 0 <= k < |t| && t[k] == r[j];
      }
    }
  }

  /** A stable insertion sort by `key`. */
  function SortBy<T>(s: seq<T>, key: T -> string): (r: seq<T>)
    ensures multiset(r) == multiset(s)
    ensures |r| == |s|
  {
    if |s| == 0 then []
    else
      assert s == [s[0]] + s[1..];
      Insert(s[0], SortBy(s[1..], key), key)
  }

  lemma {:induction false} SortBySorted<T>(s: seq<T>, key: T -> string)
    ensures SortedBy(SortBy(s, key), key)
  {
    if |s| > 0 {
      SortBySorted(s[1..], key);
      InsertSorted(s[0], SortBy(s[1..], key), key);
    }
  }

  /** Sorting keeps exactly the elements it was given. */
  lemma SortByMembers<T>(s: seq<T>, key: T -> string)
    ensures forall x :: x in SortBy(s, key) <==> x in s
  {
    var r := SortBy(s, key);
    forall x ensures x in r <==> x in s {
      assert x in r <==> x in multiset(r);
      assert x in s <==> x in multiset(s);
    }
  }

  /** `x` placed before the first string it sorts at or before. */
  function InsertString(x: string, s: seq<string>): seq<string>
  {
    if |s| == 0 then [x]
    else if StrLe(x, s[0]) then [x] + s
    else [s[0]] + InsertString(x, s[1..])
  }

  /** `strings.sort()`: an insertion sort in code-point order. */
  function SortStrings(s: seq<string>): seq<string>
  {
    if |s| == 0 then [] else InsertString(s[0], SortStrings(s[1..]))
  }

  /** The strings are in non-decreasing order. */
  predicate StringsSorted(s: seq<string>)
  {
    forall i, j :: 0 <= i < j < |s| ==> StrLe(s[i], s[j])
  }

  lemma {:induction false} InsertStringPermutes(x: string, s: seq<string>)
    ensures multiset(InsertString(x, s)) == multiset(s) + multiset{x}
  {
    if |s| > 0 && !StrLe(x, s[0]) {
      InsertStringPermutes(x, s[1..]);
      assert s == [s[0]] + s[1..];
    }
  }

  lemma {:induction false} InsertStringSorted(x: string, s: seq<string>)
    requires StringsSorted(s)
    ensures StringsSorted(InsertString(x, s))
    ensures |s| > 0 ==> InsertString(x, s)[0] == x || InsertString(x, s)[0] == s[0]
  {
    if |s| > 0 {
      if StrLe(x, s[0]) {
        forall k | 0 <= k < |s| ensures StrLe(x, s[k]) {
          if k > 0 { StrLeTransitive(x, s[0], s[k]); }
        }
        ConsSorted(x, s);
      } else {
        StrLeTotal(x, s[0]);
        assert StringsSorted(s[1..]);
        InsertStringSorted(x, s[1..]);
        InsertStringBelow(s[0], x, s[1..]);
        ConsSorted(s[0], InsertString(x, s[1..]));
      }
    }
  }

  /** A string at or before every element of a sorted sequence can go in front. */
  lemma ConsSorted(h: string, t: seq<string>)
    requires StringsSorted(t) && forall k :: 0 <= k < |t| ==> StrLe(h, t[k])
    ensures StringsSorted([h] + t)
  {
    var r := [h] + t;
    forall i, j | 0 <= i < j < |r| ensures StrLe(r[i], r[j]) {
      assert r[j] == t[j - 1];
      if i > 0 { assert r[i] == t[i - 1]; }
    }
  }

  /** A lower bound of `x` and of every element of `s` bounds the insertion too. */
  lemma InsertStringBelow(b: string, x: string, s: seq<string>)
    requires StrLe(b, x) && forall k :: 0 <= k < |s| ==> StrLe(b, s[k])
    ensures forall k :: 0 <= k < |InsertString(x, s)| ==> StrLe(b, InsertString(x, s)[k])
  {
    var t := InsertString(x, s);
    InsertStringPermutes(x, s);
    forall j | 0 <= j < |t| ensures StrLe(b, t[j]) {
      assert t[j] in multiset(t);
      if t[j] != x {
        assert t[j] in multiset(s);
        var k :| 0 <= k < |s| && s[k] == t[j];
      }
    }
  }

  /** Sorting keeps the multiset of strings. */
  lemma {:induction false} SortStringsPermutes(s: seq<string>)
    ensures multiset(SortStrings(s)) == multiset(s)
    ensures |SortStrings(s)| == |s|
  {
    if |s| > 0 {
      SortStringsPermutes(s[1..]);
      InsertStringPermutes(s[0], SortStrings(s[1..]));
      assert s == [s[0]] + s[1..];
    }
  }

  /** The sorted strings are in order. */
  lemma {:induction false} SortStringsSorted(s: seq<string>)
    ensures StringsSorted(SortStrings(s))
  {
    if |s| > 0 {
      SortStringsSorted(s[1..]);
      InsertStringSorted(s[0], SortStrings(s[1..]));
    }
  }

  lemma {:induction false} InsertStringMembers(x: string, s: seq<string>, y: string)
    ensures y in InsertString(x, s) <==> y == x || y in s
  {
    if |s| > 0 && !StrLe(x, s[0]) {
      InsertStringMembers(x, s[1..], y);
      assert s == [s[0]] + s[1..];
    }
  }

  /** Sorting keeps exactly the strings it was given. */
  lemma {:induction false} SortStringsMembers(s: seq<string>, y: string)
    ensures y in SortStrings(s) <==> y in s
  {
    if |s| > 0 {
      SortStringsMembers(s[1..], y);
      InsertStringMembers(s[0], SortStrings(s[1..]), y);
      assert s == [s[0]] + s[1..];
    }
  }
}
