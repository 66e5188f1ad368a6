/**
 * The terminal text helpers of src/cli/format.ts: `indent` prefixes every
 * line of a text but the first, and `printFrame` prints a window of a
 * source's lines behind a right-aligned line-number gutter.
 */
module Format {
  import opened Strings

  // ------------------------------------------------------------------ indent

  /** `lines.map(line => p + line)`. */
  function Prefixed(lines: seq<string>, p: string): (r: seq<string>)
    ensures |r| == |lines| && forall k :: 0 <= k < |lines| ==> r[k] == p + lines[k]
  {
    if |lines| == 0 then [] else [p + lines[0]] + Prefixed(lines[1..], p)
  }

  /**
   * `indent(source, p)`: every line prefixed with `p`, joined by newlines,
   * and the first `|p|` characters (the first line's prefix) cut off.
   */
  function Indent(source: string, p: string): (r: string)
    ensures r == Join(Split(source, '\n'), "\n" + p)
  {
    JoinPrefixed(Split(source, '\n'), p);
    assert (p + Join(Split(source, '\n'), "\n" + p))[|p|..] == Join(Split(source, '\n'), "\n" + p);
    SliceFrom(Join(Prefixed(Split(source, '\n'), p), "\n"), |p|)
  }

  /** Prefixing every part and joining puts the prefix in front and after every separator. */
  lemma {:induction false} JoinPrefixed(lines: seq<string>, p: string)
    requires |lines| >= 1
    ensures Join(Prefixed(lines, p), "\n") == p + Join(lines, "\n" + p)
  {
    if |lines| > 1 {
      var r := Prefixed(lines, p);
      assert r[1..] == Prefixed(lines[1..], p);
      JoinPrefixed(lines[1..], p);
    }
  }

  /** The first line unchanged, every later line with `p` in front. */
  function PrefixTail(lines: seq<string>, p: string): (r: seq<string>)
    requires |lines| >= 1
    ensures |r| == |lines| && r[0] == lines[0]
    ensures forall k :: 1 <= k < |lines| ==> r[k] == p + lines[k]
  {
    [lines[0]] + Prefixed(lines[1..], p)
  }

  lemma {:induction false} JoinWithPrefix(lines: seq<string>, p: string)
    requires |lines| >= 1
    ensures Join(lines, "\n" + p) == Join(PrefixTail(lines, p), "\n")
  {
    if |lines| > 1 {
      JoinPrefixed(lines[1..], p);
      var t := PrefixTail(lines, p);
      assert t[1..] == Prefixed(lines[1..], p);
    }
  }

  /**
   * For a prefix without newlines, the lines of `indent(s, p)` are the
   * lines of `s`, as many of them, the first unchanged and every other one
   * with `p` in front.
   */
  lemma IndentLines(source: string, p: string)
    requires '\n' !in p
    ensures Split(Indent(source, p), '\n') == PrefixTail(Split(source, '\n'), p)
    ensures |Split(Indent(source, p), '\n')| == |Split(source, '\n')|
  {
    var lines := Split(source, '\n');
    JoinWithPrefix(lines, p);
    var t := PrefixTail(lines, p);
    forall k | 0 <= k < |t| ensures '\n' !in t[k] {
      if k > 0 { assert t[k] == p + lines[k]; }
    }
    SplitJoin(t, '\n');
  }

  /** `indent(s, '')` is `s`. */
  lemma IndentEmpty(source: string)
    ensures Indent(source, "") == source
  {
    var lines := Split(source, '\n');
    forall k | 0 <= k < |lines| ensures Prefixed(lines, "")[k] == lines[k] {
      assert "" + lines[k] == lines[k];
    }
    assert Prefixed(lines, "") == lines;
    JoinSplit(source, '\n');
  }

  // -------------------------------------------------------------- printFrame

  /** A `before`/`after` argument: `Infinity` (the default) or a number of lines. */
  datatype Extent = Infinite | Lines(n: int)

  /** The decimal digits of `n`, as `n.toString()` prints them. */
  function Digits(n: nat): (r: string)
    ensures |r| >= 1
    ensures forall k :: 0 <= k < |r| ==> '0' <= r[k] <= '9'
  {
    if n < 10 then ['0' + n as char] else Digits(n / 10) + ['0' + (n % 10) as char]
  }

  /** A number never has more digits than a larger one. */
  lemma {:induction false} DigitsMonotone(n: nat, m: nat)
    requires n <= m
    ensures |Digits(n)| <= |Digits(m)|
  {
    if n >= 10 {
      DigitsMonotone(n / 10, m / 10);
    }
  }

  /** `s.padStart(width, ' ')`. */
  function PadStart(s: string, width: int): (r: string)
    ensures |s| <= width ==> |r| == width && r[width - |s|..] == s
    ensures |s| <= width ==> forall k :: 0 <= k < width - |s| ==> r[k] == ' '
    ensures |s| > width ==> r == s
  {
    if |s| < width then seq(width - |s|, _ => ' ') + s else s
  }

  /** The gutter of printed line `number` in a frame of `count` lines. */
  function Gutter(number: nat, count: nat): string
  {
    PadStart(Digits(number), |Digits(count)|)
  }

  /** `(index + 1).toString().padStart(gutterWidth, ' ') + '|' + '  ' + line` for every line of the window. */
  function Numbered(window: seq<string>): (r: seq<string>)
    ensures |r| == |window|
  {
    seq(|window|, k requires 0 <= k < |window| => Gutter(k + 1, |window|) + "|  " + window[k])
  }

  /** The printed frame: the numbered lines joined by newlines. */
  function Frame(window: seq<string>): string
  {
    Join(Numbered(window), "\n")
  }

  /** `lines.slice(start, end)`: negative indices count from the end; out-of-range ones are clamped. */
  function SliceLines(lines: seq<string>, start: int, end: int): (r: seq<string>)
    ensures 0 <= start <= end <= |lines| ==> r == lines[start..end]
    ensures |r| <= |lines| && forall k :: 0 <= k < |r| ==> r[k] in lines
  {
    var a := ClampIndex(start, |lines|);
    var b := ClampIndex(end, |lines|);
    if a < b then lines[a..b] else []
  }

  /**
   * The window of lines `printFrame` prints, as written: the start is
   * `Math.min(line - 1 - before, 0)` and the end `Math.max(line + after,
   * lines.length)`. `Infinity` makes them `-Infinity` and `Infinity`,
   * which `slice` clamps to the whole array.
   */
  function WindowAsWritten(lines: seq<string>, line: int, before: Extent, after: Extent): (r: seq<string>)
    ensures |r| <= |lines| && r == lines[|lines| - |r|..]
    ensures forall k :: 0 <= k < |r| ==> r[k] in lines
  {
    var start := if before.Infinite? then -|lines| else (if line - 1 - before.n < 0 then line - 1 - before.n else 0);
    var end := if after.Infinite? then |lines| else (if line + after.n > |lines| then line + after.n else |lines|);
    SliceLines(lines, start, end)
  }

  /** `printFrame(source, line, before, after)` as written (the column arguments are unused). */
  function PrintFrameAsWritten(source: string, line: int, before: Extent, after: Extent): (r: string)
    ensures var w := WindowAsWritten(Split(source, '\n'), line, before, after);
      |w| >= 1 ==> Split(r, '\n') == Numbered(w)
  {
    var w := WindowAsWritten(Split(source, '\n'), line, before, after);
    if |w| >= 1 then FrameLines(w); Frame(w) else Frame(w)
  }

  /**
   * The window as evidently intended: `Math.max(line - 1 - before, 0)` to
   * `Math.min(line + after, lines.length)`, the `before` lines above line
   * `line` (counted from 1), the line itself and the `after` lines below.
   */
  function Window(lines: seq<string>, line: int, before: Extent, after: Extent): (r: seq<string>)
    ensures |r| <= |lines| && forall k :: 0 <= k < |r| ==> r[k] in lines
    ensures before.Infinite? && after.Infinite? ==> r == lines
    ensures before.Lines? && after.Lines? && line >= 1 && before.n >= 0 && after.n >= 0 ==>
      |r| <= before.n + after.n + 1
  {
    var start := if before.Infinite? then 0 else (if line - 1 - before.n > 0 then line - 1 - before.n else 0);
    var end := if after.Infinite? then |lines| else (if line + after.n < |lines| then line + after.n else |lines|);
    SliceLines(lines, start, end)
  }

  /** `printFrame` with the window corrected. */
  function PrintFrame(source: string, line: int, before: Extent, after: Extent): (r: string)
    ensures var w := Window(Split(source, '\n'), line, before, after);
      |w| >= 1 ==> Split(r, '\n') == Numbered(w)
  {
    var w := Window(Split(source, '\n'), line, before, after);
    if |w| >= 1 then FrameLines(w); Frame(w) else Frame(w)
  }

  /**
   * The gutter of line `number` in a frame of `count` lines is exactly as
   * wide as `count` has digits: the digits of `number` right-aligned
   * behind spaces.
   */
  lemma GutterAligned(number: nat, count: nat)
    requires number <= count
    ensures var g := Gutter(number, count);
      && |g| == |Digits(count)|
      && g[|g| - |Digits(number)|..] == Digits(number)
      && (forall j :: 0 <= j < |g| - |Digits(number)| ==> g[j] == ' ')
      && '\n' !in g
  {
    DigitsMonotone(number, count);
  }

  /**
   * The printed lines of a frame are exactly the numbered window lines:
   * line `k` of the window is printed behind the gutter of number `k + 1`
   * and `|  `.
   */
  lemma FrameLines(window: seq<string>)
    requires forall k :: 0 <= k < |window| ==> '\n' !in window[k]
    requires |window| >= 1
    ensures Split(Frame(window), '\n') == Numbered(window)
    ensures forall k :: 0 <= k < |window| ==>
      Numbered(window)[k] == Gutter(k + 1, |window|) + "|  " + window[k]
  {
    var n := Numbered(window);
    forall k | 0 <= k < |n| ensures '\n' !in n[k] {
      NumberedLine(window, k);
    }
    SplitJoin(n, '\n');
  }

  lemma NumberedLine(window: seq<string>, k: nat)
    requires k < |window| && '\n' !in window[k]
    ensures '\n' !in Numbered(window)[k]
  {
    GutterAligned(k + 1, |window|);
    var g := Gutter(k + 1, |window|);
    var line := Numbered(window)[k];
    assert line == g + "|  " + window[k];
    forall j | 0 <= j < |line| ensures line[j] != '\n' {
      if j < |g| { assert line[j] == g[j]; }
      else if j < |g| + 3 { assert line[j] == "|  "[j - |g|]; }
      else { assert line[j] == window[k][j - |g| - 3]; }
    }
  }

  /** With the default `before` and `after`, every line of the source is printed, as written and corrected. */
  lemma DefaultFramesAll(source: string, line: int)
    ensures WindowAsWritten(Split(source, '\n'), line, Infinite, Infinite) == Split(source, '\n')
    ensures Window(Split(source, '\n'), line, Infinite, Infinite) == Split(source, '\n')
  {
  }

  /**
   * As written, finite `before`/`after` never narrow the window at its
   * end, and a negative start counts from the end: asking for line 1 of
   * "a\nb\nc" with one line before and none after prints only "c", and
   * line 2 with no context prints all three lines.
   */
  lemma WindowAsWrittenWrong()
    ensures WindowAsWritten(["a", "b", "c"], 1, Lines(1), Lines(0)) == ["c"]
    ensures WindowAsWritten(["a", "b", "c"], 2, Lines(0), Lines(0)) == ["a", "b", "c"]
    ensures Window(["a", "b", "c"], 1, Lines(1), Lines(0)) == ["a"]
    ensures Window(["a", "b", "c"], 2, Lines(0), Lines(0)) == ["b"]
  {
    var lines := ["a", "b", "c"];
    assert SliceLines(lines, -1, 3) == lines[2..3];
    assert SliceLines(lines, 0, 3) == lines[0..3];
    assert SliceLines(lines, 0, 1) == lines[0..1];
    assert SliceLines(lines, 1, 2) == lines[1..2];
  }

  /**
   * The corrected window of an existing line with non-negative context is
   * the contiguous run of lines from `before` above to `after` below it,
   * cut at the ends of the source; it holds the requested line.
   */
  lemma WindowAroundLine(lines: seq<string>, line: int, before: nat, after: nat)
    requires 1 <= line <= |lines|
    ensures var lo := if line - 1 - before > 0 then line - 1 - before else 0;
            var hi := if line + after < |lines| then line + after else |lines|;
            && lo <= line - 1 < hi
            && Window(lines, line, Lines(before), Lines(after)) == lines[lo..hi]
            && Window(lines, line, Lines(before), Lines(after))[line - 1 - lo] == lines[line - 1]
            && |Window(lines, line, Lines(before), Lines(after))| <= before + after + 1
  {
  }
}
