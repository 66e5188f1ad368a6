/**
 * JavaScript string operations as the modelled TypeScript uses them:
 * `indexOf`/`lastIndexOf` returning -1, `slice` with negative and
 * out-of-range indices, `split` on one character, `join`, `trim`.
 */
module Strings {

  /** Characters matched by the JavaScript `\s` class (and dropped by `trim`). */
  predicate IsJsSpace(c: char)
  {
    c == ' ' || c == '\t' || c == '\n' || c == '\U{000B}' || c == '\U{000C}' || c == '\r'
    || c == '\U{00A0}' || c == '\U{1680}' || ('\U{2000}' <= c <= '\U{200A}')
    || c == '\U{2028}' || c == '\U{2029}' || c == '\U{202F}' || c == '\U{205F}'
    || c == '\U{3000}' || c == '\U{FEFF}'
  }

  predicate StartsWith(s: string, prefix: string)
  {
    prefix <= s
  }

  predicate EndsWith(s: string, suffix: string)
  {
    |suffix| <= |s| && s[|s| - |suffix|..] == suffix
  }

  /** `s.indexOf(c, from)`: the first position at or after `from` holding `c`, or -1. */
  function IndexOfFrom(s: string, c: char, from: int): (r: int)
    ensures -1 <= r < |s|
    ensures r >= 0 ==> r >= from && s[r] == c
    ensures r >= 0 ==> forall k :: from <= k < r && 0 <= k ==> s[k] != c
    ensures r == -1 ==> forall k :: from <= k < |s| && 0 <= k ==> s[k] != c
    decreases |s| - from
  {
    if from < 0 then IndexOfFrom(s, c, 0)
    else if from >= |s| then -1
    else if s[from] == c then from
    else IndexOfFrom(s, c, from + 1)
  }

  /** `s.indexOf(c)`. */
  function IndexOf(s: string, c: char): (r: int)
    ensures -1 <= r < |s|
    ensures r >= 0 ==> s[r] == c && c !in s[..r]
    ensures r == -1 <==> c !in s
  {
    var r := IndexOfFrom(s, c, 0);
    assert r >= 0 ==> forall k :: 0 <= k < r ==> s[..r][k] != c;
    r
  }

  /** `s.lastIndexOf(c)`. */
  function LastIndexOf(s: string, c: char): (r: int)
    ensures -1 <= r < |s|
    ensures r >= 0 ==> s[r] == c && c !in s[r + 1..]
    ensures r == -1 <==> c !in s
  {
    if |s| == 0 then -1
    else if s[|s| - 1] == c then |s| - 1
    else
      var r := LastIndexOf(s[..|s| - 1], c);
      assert s == s[..|s| - 1] + [s[|s| - 1]];
      r
  }

  /** `sub` occurs in `s` at position `k`. */
  predicate OccursAt(s: string, sub: string, k: int)
  {
    0 <= k && k + |sub| <= |s| && s[k..k + |sub|] == sub
  }

  /** `s.indexOf(sub, from)` for a non-empty `sub`. */
  function IndexOfSubFrom(s: string, sub: string, from: int): (r: int)
    requires |sub| > 0
    ensures -1 <= r < |s|
    ensures r >= 0 ==> r >= from && OccursAt(s, sub, r)
    ensures r >= 0 ==> forall k :: from <= k < r ==> !OccursAt(s, sub, k)
    ensures r == -1 ==> forall k :: from <= k ==> !OccursAt(s, sub, k)
    decreases |s| - from
  {
    if from < 0 then IndexOfSubFrom(s, sub, 0)
    else if from + |sub| > |s| then -1
    else if s[from..from + |sub|] == sub then from
    else IndexOfSubFrom(s, sub, from + 1)
  }

  /** A JavaScript string index argument, made a position in `0..len`. */
  function ClampIndex(i: int, len: nat): (r: nat)
    ensures r <= len
    ensures 0 <= i <= len ==> r == i
  {
    if i < 0 then (if len + i < 0 then 0 else len + i)
    else if i > len then len
    else i
  }

  /** `s.slice(start, end)`: negative indices count from the end; out-of-range ones are clamped. */
  function Slice(s: string, start: int, end: int): (r: string)
    ensures |r| <= |s|
    ensures 0 <= start <= end <= |s| ==> r == s[start..end]
  {
    var a := ClampIndex(start, |s|);
    var b := ClampIndex(end, |s|);
    if a < b then s[a..b] else []
  }

  /** `s.slice(start)`. */
  function SliceFrom(s: string, start: int): (r: string)
    ensures 0 <= start <= |s| ==> r == s[start..]
  {
    Slice(s, start, |s|)
  }

  /** `s.split(c)`: the pieces between occurrences of `c`, always at least one. */
  function Split(s: string, c: char): (r: seq<string>)
    ensures |r| >= 1
    ensures forall k :: 0 <= k < |r| ==> c !in r[k]
    ensures c !in s ==> r == [s]
    decreases |s|
  {
    var i := IndexOf(s, c);
    if i < 0 then [s] else [s[..i]] + Split(s[i + 1..], c)
  }

  /** A text without `c` splits into itself alone. */
  lemma SplitWithout(s: string, c: char)
    requires c !in s
    ensures Split(s, c) == [s]
  {
  }

  /** Splitting at a first `c` gives the text before it, then the pieces of the rest. */
  lemma SplitAt(a: string, b: string, c: char)
    requires c !in a
    ensures Split(a + [c] + b, c) == [a] + Split(b, c)
  {
    var s := a + [c] + b;
    assert s[|a|] == c && s[..|a|] == a;
    assert IndexOf(s, c) == |a|;
    assert s[|a| + 1..] == b;
  }

  /** `s.split(sep)` for a non-empty separator string. */
  function SplitOn(s: string, sep: string): (r: seq<string>)
    requires |sep| > 0
    ensures |r| >= 1
    decreases |s|
  {
    var i := IndexOfSubFrom(s, sep, 0);
    if i < 0 then [s] else [s[..i]] + SplitOn(s[i + |sep|..], sep)
  }

  /** `parts.join(sep)`. */
  function Join(parts: seq<string>, sep: string): string
  {
    if |parts| == 0 then []
    else if |parts| == 1 then parts[0]
    else parts[0] + sep + Join(parts[1..], sep)
  }

  lemma {:induction false} JoinSplit(s: string, c: char)
    ensures Join(Split(s, c), [c]) == s
    decreases |s|
  {
    var i := IndexOf(s, c);
    if i >= 0 {
      var a, b := s[..i], s[i + 1..];
      assert s == a + [c] + b;
      SplitAt(a, b, c);
      JoinSplit(b, c);
      JoinCons(a, Split(b, c), [c]);
    }
  }

  /** Splitting a join on a character none of the parts contains gives the parts back. */
  lemma {:induction false} SplitJoin(parts: seq<string>, c: char)
    requires |parts| >= 1 && forall k :: 0 <= k < |parts| ==> c !in parts[k]
    ensures Split(Join(parts, [c]), c) == parts
  {
    if |parts| > 1 {
      SplitJoin(parts[1..], c);
      SplitAt(parts[0], Join(parts[1..], [c]), c);
      assert parts == [parts[0]] + parts[1..];
    }
  }

  lemma JoinCons(head: string, rest: seq<string>, sep: string)
    requires |rest| >= 1
    ensures Join([head] + rest, sep) == head + sep + Join(rest, sep)
  {
    assert ([head] + rest)[1..] == rest;
  }

  /** The first piece of `s.split(c)` is everything before the first `c`. */
  lemma SplitHead(s: string, c: char)
    ensures Split(s, c)[0] == if IndexOf(s, c) < 0 then s else s[..IndexOf(s, c)]
  {
  }

  /** Every `pattern` character replaced by `replacement` (`s.replace(/x/g, replacement)`). */
  function ReplaceAll(s: string, pattern: char, replacement: string): (r: string)
    ensures pattern !in s ==> r == s
  {
    if |s| == 0 then []
    else (if s[0] == pattern then replacement else [s[0]]) + ReplaceAll(s[1..], pattern, replacement)
  }

  lemma {:induction false} ReplaceAllRemoves(s: string, pattern: char, replacement: string)
    requires pattern !in replacement
    ensures pattern !in ReplaceAll(s, pattern, replacement)
    decreases |s|
  {
    if |s| > 0 {
      ReplaceAllRemoves(s[1..], pattern, replacement);
    }
  }

  /** `s.trimStart()`. */
  function TrimStart(s: string): (r: string)
    ensures |r| <= |s| && EndsWith(s, r)
    ensures |r| > 0 ==> !IsJsSpace(r[0])
  {
    if |s| > 0 && IsJsSpace(s[0]) then TrimStart(s[1..]) else s
  }

  /** `s.trimEnd()`. */
  function TrimEnd(s: string): (r: string)
    ensures |r| <= |s| && r <= s
    ensures |r| > 0 ==> !IsJsSpace(r[|r| - 1])
  {
    if |s| > 0 && IsJsSpace(s[|s| - 1]) then TrimEnd(s[..|s| - 1]) else s
  }

  /** `s.trim()`. */
  function Trim(s: string): (r: string)
    ensures |r| > 0 ==> !IsJsSpace(r[0]) && !IsJsSpace(r[|r| - 1])
  {
    TrimEnd(TrimStart(s))
  }

  /** A text that neither starts nor ends with white space trims to itself. */
  lemma TrimUnspaced(s: string)
    requires |s| > 0 && !IsJsSpace(s[0]) && !IsJsSpace(s[|s| - 1])
    ensures Trim(s) == s
  {
  }

  /** The number of times `c` occurs in `s`. */
  function Count(s: string, c: char): nat
  {
    if |s| == 0 then 0 else (if s[0] == c then 1 else 0) + Count(s[1..], c)
  }

  lemma {:induction false} SplitLength(s: string, c: char)
    ensures |Split(s, c)| == Count(s, c) + 1
    decreases |s|
  {
    var i := IndexOf(s, c);
    if i < 0 {
      CountAbsent(s, c);
    } else {
      var a, b := s[..i], s[i + 1..];
      assert s == a + [c] + b;
      SplitLength(b, c);
      SplitAt(a, b, c);
      CountCons(a, c, b);
    }
  }

  lemma CountCons(a: string, c: char, b: string)
    requires c !in a
    ensures Count(a + [c] + b, c) == 1 + Count(b, c)
  {
    CountAbsent(a, c);
    CountConcat(a, [c] + b, c);
    assert a + [c] + b == a + ([c] + b);
    assert ([c] + b)[1..] == b;
  }

  lemma {:induction false} CountAbsent(s: string, c: char)
    requires c !in s
    ensures Count(s, c) == 0
    decreases |s|
  {
    if |s| > 0 {
      assert c !in s[1..];
      CountAbsent(s[1..], c);
    }
  }

  lemma {:induction false} CountConcat(a: string, b: string, c: char)
    ensures Count(a + b, c) == Count(a, c) + Count(b, c)
    decreases |a|
  {
    if |a| > 0 {
      assert (a + b)[1..] == a[1..] + b;
      CountConcat(a[1..], b, c);
    } else {
      assert a + b == b;
    }
  }

  /** A character JavaScript stores as a surrogate pair: one above U+FFFF. */
  predicate Astral(c: char)
  {
    c as int > 0xFFFF
  }

  /**
   * A string's JavaScript `length`: its UTF-16 code units, one per
   * character and two for a character above U+FFFF.
   */
  function Utf16Length(s: string): (r: nat)
    ensures |s| <= r <= 2 * |s|
    ensures |s| > 0 && Astral(s[0]) ==> r > |s|
  {
    if |s| == 0 then 0 else (if Astral(s[0]) then 2 else 1) + Utf16Length(s[1..])
  }

  /** The `length` counts the characters exactly when none is above U+FFFF. */
  lemma {:induction false} Utf16LengthCounts(s: string)
    ensures Utf16Length(s) == |s| <==> forall i :: 0 <= i < |s| ==> !Astral(s[i])
  {
    if |s| > 0 {
      Utf16LengthCounts(s[1..]);
      assert forall i :: 1 <= i < |s| ==> s[i] == s[1..][i - 1];
      if !Astral(s[0]) && forall i :: 0 <= i < |s[1..]| ==> !Astral(s[1..][i]) {
        forall i | 0 <= i < |s| ensures !Astral(s[i]) {
          if i > 0 { assert s[i] == s[1..][i - 1]; }
        }
      }
    }
  }
}
