/**
 * Style-preserving JSON files (src/common/json.ts): `detectStyle` reads
 * the newline, base indentation, quote and trailing newline of a JSON
 * text, `parseStyled` parses a file keeping its style, and
 * `stringifyStyled` writes a value back out in a given style.
 * `JSON.parse`, `JSON.stringify` and the platform's `os.EOL` are parameters.
 */
module JsonStyle {
  import opened Wrappers
  import opened Strings

  /** `JsonStyle`. */
  datatype Style = Style(tab: string, newline: string, trailingNewline: string, indent: string, quote: string)

  /** `os.EOL` on the platforms Node.js runs on. */
  predicate IsEol(eol: string)
  {
    eol == "\n" || eol == "\r\n"
  }

  /** `defaultStyle`: two-space tabs, the platform newline, no base indent, double quotes. */
  function DefaultStyle(eol: string): Style
  {
    Style("  ", eol, eol, "", "\"")
  }

  /**
   * A style object held by reference: the exported `defaultStyle` is one,
   * shared by everyone who reads it, and assigning into it changes it for
   * all of them.
   */
  class StyleObject {
    var style: Style

    constructor(style: Style)
      ensures this.style == style
    {
      this.style := style;
    }
  }

  // ------------------------------------------------------------ scanning

  /** The first position whose character satisfies `p`, or -1. */
  function FirstWhere(s: string, p: char -> bool): (r: int)
    ensures -1 <= r < |s|
    ensures r >= 0 ==> p(s[r]) && forall k :: 0 <= k < r ==> !p(s[k])
    ensures r == -1 ==> forall k :: 0 <= k < |s| ==> !p(s[k])
  {
    if |s| == 0 then -1
    else if p(s[0]) then 0
    else
      assert forall k :: 1 <= k < |s| ==> s[k] == s[1..][k - 1];
      if FirstWhere(s[1..], p) == -1 then -1 else FirstWhere(s[1..], p) + 1
  }

  predicate IsTerminator(c: char)
  {
    c == '\r' || c == '\n'
  }

  predicate IsQuote(c: char)
  {
    c == '"' || c == '\''
  }

  /**
   * `string.match(/\r?\n|\r(?!\n)/)`: at the first `\r` or `\n`, a `\r\n`
   * pair or the single character.
   */
  function NewlineMatch(s: string): (r: Option<string>)
    ensures r.None? <==> FirstWhere(s, IsTerminator) == -1
    ensures r.Some? ==> r.value in ["\n", "\r", "\r\n"] && OccursAt(s, r.value, FirstWhere(s, IsTerminator))
    ensures r == Some("\r") ==> FirstWhere(s, IsTerminator) + 1 == |s| || s[FirstWhere(s, IsTerminator) + 1] != '\n'
  {
    var p := FirstWhere(s, IsTerminator);
    if p < 0 then None
    else if s[p] == '\r' && p + 1 < |s| && s[p + 1] == '\n' then
      assert s[p..p + 2] == "\r\n";
      Some("\r\n")
    else
      assert s[p..p + 1] == [s[p]];
      Some([s[p]])
  }

  /** `string.match(/"|'/)`: the first quote character of either kind. */
  function QuoteMatch(s: string): (r: Option<string>)
    ensures r.None? <==> FirstWhere(s, IsQuote) == -1
    ensures r.Some? ==> r.value == [s[FirstWhere(s, IsQuote)]]
  {
    var p := FirstWhere(s, IsQuote);
    if p < 0 then None else Some([s[p]])
  }

  /** The leading run of `\s` characters of a line. */
  function LeadingSpace(line: string): (r: string)
    ensures r <= line
    ensures forall k :: 0 <= k < |r| ==> IsJsSpace(r[k])
    ensures |r| < |line| ==> !IsJsSpace(line[|r|])
  {
    if |line| == 0 || !IsJsSpace(line[0]) then []
    else [line[0]] + LeadingSpace(line[1..])
  }

  /** `line.match(/^\s*[^\s]/)` succeeds: the line has a non-space character. */
  predicate HasContent(line: string)
  {
    |LeadingSpace(line)| < |line|
  }

  // -------------------------------------------------------------- indent

  /**
   * `curIndent.length`: `curIndent` is the match array, whose length is
   * always one, not the length of the matched indentation.
   */
  const MatchArrayLength := 1

  /** One pass of the indent loop as written. */
  function IndentStep(indent: Option<string>, line: string): Option<string>
  {
    if HasContent(line) && (indent.None? || MatchArrayLength < |indent.value|) then Some(LeadingSpace(line)) else indent
  }

  /** The indent after the loop over `lines`; `None` is `undefined`. */
  function IndentAsWritten(lines: seq<string>): Option<string>
  {
    if |lines| == 0 then None else IndentStep(IndentAsWritten(lines[..|lines| - 1]), lines[|lines| - 1])
  }

  /** The indent is found exactly when some line has content, and it is the indentation of one of them. */
  lemma {:induction false} IndentAsWrittenFrom(lines: seq<string>)
    ensures IndentAsWritten(lines).None? <==> forall k :: 0 <= k < |lines| ==> !HasContent(lines[k])
    ensures IndentAsWritten(lines).Some? ==>
      exists k :: 0 <= k < |lines| && HasContent(lines[k]) && IndentAsWritten(lines).value == LeadingSpace(lines[k])
  {
    if |lines| > 0 {
      var init := lines[..|lines| - 1];
      IndentAsWrittenFrom(init);
      if IndentAsWritten(lines) != IndentAsWritten(init) {
        assert IndentAsWritten(lines).value == LeadingSpace(lines[|lines| - 1]);
      } else if IndentAsWritten(init).Some? {
        var k :| 0 <= k < |init| && HasContent(init[k]) && IndentAsWritten(init).value == LeadingSpace(init[k]);
        assert lines[k] == init[k];
      }
      if forall k :: 0 <= k < |lines| ==> !HasContent(lines[k]) {
        assert forall k :: 0 <= k < |init| ==> init[k] == lines[k];
      }
    }
  }

  /** The indent loop with the comparison evidently meant: the matched indentation's own length. */
  function IndentStepCorrected(indent: Option<string>, line: string): Option<string>
  {
    if HasContent(line) && (indent.None? || |LeadingSpace(line)| < |indent.value|) then Some(LeadingSpace(line)) else indent
  }

  function MinIndent(lines: seq<string>): Option<string>
  {
    if |lines| == 0 then None else IndentStepCorrected(MinIndent(lines[..|lines| - 1]), lines[|lines| - 1])
  }

  /** Corrected, the indent is the shortest indentation of the lines with content. */
  lemma {:induction false} MinIndentIsMinimum(lines: seq<string>, k: nat)
    requires k < |lines| && HasContent(lines[k])
    ensures MinIndent(lines).Some? && |MinIndent(lines).value| <= |LeadingSpace(lines[k])|
  {
    var init := lines[..|lines| - 1];
    if k < |lines| - 1 {
      assert init[k] == lines[k];
      MinIndentIsMinimum(init, k);
    }
  }

  /**
   * As written, the first line fixes the indent only when it is shorter
   * than two characters; `"  [\n    1]"` gets the deeper indentation of
   * its second line.
   */
  lemma IndentAsWrittenDeeper()
    ensures IndentAsWritten(["  [", "    1]"]) == Some("    ")
  {
    var lines := ["  [", "    1]"];
    assert LeadingSpace("  [") == "  " by {
      assert LeadingSpace("[") == [];
      assert "  ["[1..] == " [" && " ["[1..] == "[";
    }
    assert LeadingSpace("    1]") == "    " by {
      assert LeadingSpace("1]") == [];
      assert "    1]"[1..] == "   1]" && "   1]"[1..] == "  1]" && "  1]"[1..] == " 1]" && " 1]"[1..] == "1]";
    }
    assert lines[..1] == ["  ["] && lines[..1][..0] == [];
  }

  /** Corrected, the same text gets the indentation of its first line. */
  lemma IndentCorrectedShallower()
    ensures MinIndent(["  [", "    1]"]) == Some("  ")
  {
    var lines := ["  [", "    1]"];
    assert LeadingSpace("  [") == "  " by {
      assert LeadingSpace("[") == [];
      assert "  ["[1..] == " [" && " ["[1..] == "[";
    }
    assert LeadingSpace("    1]") == "    " by {
      assert LeadingSpace("1]") == [];
      assert "    1]"[1..] == "   1]" && "   1]"[1..] == "  1]" && "  1]"[1..] == " 1]" && " 1]"[1..] == "1]";
    }
    assert lines[..1] == ["  ["] && lines[..1][..0] == [];
  }

  // --------------------------------------------------------- detectStyle

  /** `style.newline`: the first newline sequence found, else `os.EOL`. */
  function NewlineOf(s: string, eol: string): (r: string)
    requires IsEol(eol)
    ensures |r| > 0
  {
    match NewlineMatch(s)
    case Some(m) => m
    case None => eol
  }

  /** `string && string.match(new RegExp(newline + '$'))`: the text ends with the newline. */
  function TrailingOf(s: string, newline: string): (r: string)
    ensures r == newline || r == ""
    ensures |newline| > 0 ==> (r == newline <==> EndsWith(s, newline))
  {
    if s != "" && EndsWith(s, newline) then newline else ""
  }

  /**
   * `detectStyle(string)`. The tab is always the default: the frequency
   * tables are computed but the sample table is read with `Object.keys`,
   * which lists nothing for a `Map`. A text with no non-space character
   * leaves the indent `undefined`, and `indent.length` then throws.
   */
  function DetectedStyle(s: string, eol: string): (r: Result<Style>)
    requires IsEol(eol)
    ensures r.Err? <==> IndentAsWritten(SplitOn(s, NewlineOf(s, eol))).None?
    ensures r.Err? ==> r.error == PlainError("TypeError")
    ensures r.Ok? ==> r.value.tab == DefaultStyle(eol).tab
    ensures r.Ok? ==> r.value.newline == NewlineOf(s, eol)
    ensures r.Ok? ==> r.value.quote == QuoteMatch(s).UnwrapOr("\"")
    ensures r.Ok? ==> (r.value.trailingNewline == r.value.newline <==> EndsWith(s, r.value.newline))
    ensures r.Ok? ==> r.value.trailingNewline in [r.value.newline, ""]
  {
    var newline := NewlineOf(s, eol);
    match IndentAsWritten(SplitOn(s, newline))
    case None => Err(PlainError("TypeError"))
    case Some(indent) => Ok(Style("  ", newline, TrailingOf(s, newline), indent, QuoteMatch(s).UnwrapOr("\"")))
  }

  /** `detectStyle`, updating a copy of the default style step by step. */
  method DetectStyle(s: string, eol: string) returns (r: Result<Style>)
    requires IsEol(eol)
    ensures r == DetectedStyle(s, eol)
  {
    var style := DefaultStyle(eol);
    var newLineMatch := NewlineMatch(s);
    if newLineMatch.Some? {
      style := style.(newline := newLineMatch.value);
    }
    var lines := SplitOn(s, style.newline);
    var indent: Option<string> := None;
    for i := 0 to |lines|
      invariant indent == IndentAsWritten(lines[..i])
    {
      assert lines[..i + 1][..i] == lines[..i];
      var line := lines[i];
      if HasContent(line) && (indent.None? || MatchArrayLength < |indent.value|) {
        indent := Some(LeadingSpace(line));
      }
    }
    assert lines[..|lines|] == lines;
    if indent.None? {
      return Err(PlainError("TypeError"));
    }
    style := style.(indent := indent.value);
    var quoteMatch := QuoteMatch(s);
    if quoteMatch.Some? {
      style := style.(quote := quoteMatch.value);
    }
    style := style.(trailingNewline := if s != "" && EndsWith(s, style.newline) then style.newline else "");
    return Ok(style);
  }

  /** Without any newline in the text, the platform newline is kept. */
  lemma NewlineDefault(s: string, eol: string)
    requires IsEol(eol) && '\r' !in s && '\n' !in s
    ensures NewlineOf(s, eol) == eol
  {
    forall k | 0 <= k < |s| ensures !IsTerminator(s[k]) {
      assert s[k] in s;
    }
  }

  /** A Windows text gets `\r\n` from its first line break. */
  lemma NewlineCrLf(a: string, b: string, eol: string)
    requires IsEol(eol) && '\r' !in a && '\n' !in a
    ensures NewlineOf(a + "\r\n" + b, eol) == "\r\n"
  {
    var s := a + "\r\n" + b;
    assert s[|a|] == '\r' && s[|a| + 1] == '\n';
    assert forall k :: 0 <= k < |a| ==> s[k] == a[k];
    forall k | 0 <= k < |a| ensures !IsTerminator(s[k]) {
      assert a[k] in a;
    }
  }

  // --------------------------------------------------------- parseStyled

  /** A parsed value with the style of its text. */
  datatype Styled<J> = Styled(json: J, style: Style)

  /** `source.startsWith('﻿') ? source.substr(1) : source`. */
  function WithoutBom(source: string): (r: string)
    ensures StartsWith(source, "\U{FEFF}") ==> source == "\U{FEFF}" + r
    ensures !StartsWith(source, "\U{FEFF}") ==> r == source
  {
    if StartsWith(source, "\U{FEFF}") then source[1..] else source
  }

  /** `Error parsing JSON file`, followed by the file name when one (non-empty) is given. */
  function ParseMessage(fileName: Option<string>): (m: string)
    ensures fileName.Some? && fileName.value != "" ==> m == "Error parsing JSON file " + fileName.value
    ensures fileName.None? || fileName.value == "" ==> m == "Error parsing JSON file"
  {
    if fileName.Some? && fileName.value != "" then "Error parsing JSON file " + fileName.value else "Error parsing JSON file"
  }

  /**
   * `parseStyled(source, fileName)` with `JSON.parse` as `parse` (`None`
   * when it throws). The style is detected before parsing, so its error
   * comes first.
   */
  function ParseStyled<J>(source: string, fileName: Option<string>, eol: string, parse: string -> Option<J>): (r: Result<Styled<J>>)
    requires IsEol(eol)
    ensures DetectedStyle(WithoutBom(source), eol).Err? ==> r == Err(DetectedStyle(WithoutBom(source), eol).error)
    ensures DetectedStyle(WithoutBom(source), eol).Ok? && parse(WithoutBom(source)).None? ==> r == Err(JspmError(ParseMessage(fileName), ""))
    ensures r.Ok? ==> Some(r.value.json) == parse(WithoutBom(source)) && Ok(r.value.style) == DetectedStyle(WithoutBom(source), eol)
  {
    var text := WithoutBom(source);
    match DetectedStyle(text, eol)
    case Err(e) => Err(e)
    case Ok(style) =>
      match parse(text)
      case None => Err(JspmError(ParseMessage(fileName), ""))
      case Some(json) => Ok(Styled(json, style))
  }

  /** A leading byte order mark changes nothing: the text after it is what is read. */
  lemma ParseStyledBom<J>(source: string, fileName: Option<string>, eol: string, parse: string -> Option<J>)
    requires IsEol(eol) && !StartsWith(source, "\U{FEFF}")
    ensures ParseStyled("\U{FEFF}" + source, fileName, eol, parse) == ParseStyled(source, fileName, eol, parse)
  {
    var s := "\U{FEFF}" + source;
    assert StartsWith(s, "\U{FEFF}");
    assert s[1..] == source;
  }

  /**
   * As written, an empty (or all-space) file throws the `TypeError` of
   * `indent.length` instead of the parse error naming the file.
   */
  lemma ParseEmptyAsWritten<J>(eol: string, parse: string -> Option<J>)
    requires IsEol(eol)
    ensures ParseStyled("", Some("package.json"), eol, parse) == Err(PlainError("TypeError"))
  {
    assert !StartsWith("", "\U{FEFF}");
    assert SplitOn("", NewlineOf("", eol)) == [""];
    assert LeadingSpace("") == [];
    assert [""][..0] == [];
  }

  /** `detectStyle` with both loops corrected: the shortest indentation, and the default indent when there is none. */
  function DetectedStyleCorrected(s: string, eol: string): (r: Style)
    requires IsEol(eol)
    ensures r.newline == NewlineOf(s, eol)
    ensures r.indent == MinIndent(SplitOn(s, NewlineOf(s, eol))).UnwrapOr(DefaultStyle(eol).indent)
  {
    var newline := NewlineOf(s, eol);
    Style("  ", newline, TrailingOf(s, newline), MinIndent(SplitOn(s, newline)).UnwrapOr(""), QuoteMatch(s).UnwrapOr("\""))
  }

  /** `parseStyled` over the corrected style detection. */
  function ParseStyledCorrected<J>(source: string, fileName: Option<string>, eol: string, parse: string -> Option<J>): (r: Result<Styled<J>>)
    requires IsEol(eol)
    ensures r.Err? <==> parse(WithoutBom(source)).None?
    ensures r.Err? ==> r.error == JspmError(ParseMessage(fileName), "")
    ensures r.Ok? ==> r.value == Styled(parse(WithoutBom(source)).value, DetectedStyleCorrected(WithoutBom(source), eol))
  {
    var text := WithoutBom(source);
    match parse(text)
    case None => Err(JspmError(ParseMessage(fileName), ""))
    case Some(json) => Ok(Styled(json, DetectedStyleCorrected(text, eol)))
  }

  /** Corrected, an unparsable empty file gets the parse error naming the file. */
  lemma ParseEmptyCorrected<J>(eol: string, parse: string -> Option<J>)
    requires IsEol(eol) && parse("").None?
    ensures ParseStyledCorrected("", Some("package.json"), eol, parse) == Err(JspmError("Error parsing JSON file package.json", ""))
  {
    assert !StartsWith("", "\U{FEFF}");
  }

  // ----------------------------------------------------- stringifyStyled

  /** `.replace(/([^\\])""/g, '$1' + q + q)`: a `""` after any character but a backslash. */
  function ReplaceEmptyStrings(s: string, q: string): string
  {
    if |s| < 3 then s
    else if s[0] != '\\' && s[1] == '"' && s[2] == '"' then [s[0]] + q + q + ReplaceEmptyStrings(s[3..], q)
    else [s[0]] + ReplaceEmptyStrings(s[1..], q)
  }

  /** `.replace(/([^\\])"/g, '$1' + q)`: a `"` after any character but a backslash. */
  function ReplaceQuotes(s: string, q: string): string
  {
    if |s| < 2 then s
    else if s[0] != '\\' && s[1] == '"' then [s[0]] + q + ReplaceQuotes(s[2..], q)
    else [s[0]] + ReplaceQuotes(s[1..], q)
  }

  /** With the double quote itself, the empty-string pass changes nothing. */
  lemma {:induction false} ReplaceEmptyStringsIdentity(s: string)
    ensures ReplaceEmptyStrings(s, "\"") == s
    decreases |s|
  {
    if |s| >= 3 {
      if s[0] != '\\' && s[1] == '"' && s[2] == '"' {
        ReplaceEmptyStringsIdentity(s[3..]);
        assert s == [s[0]] + "\"" + "\"" + s[3..];
      } else {
        ReplaceEmptyStringsIdentity(s[1..]);
        assert s == [s[0]] + s[1..];
      }
    }
  }

  /** With the double quote itself, the quote pass changes nothing. */
  lemma {:induction false} ReplaceQuotesIdentity(s: string)
    ensures ReplaceQuotes(s, "\"") == s
    decreases |s|
  {
    if |s| >= 2 {
      if s[0] != '\\' && s[1] == '"' {
        ReplaceQuotesIdentity(s[2..]);
        assert s == [s[0]] + "\"" + s[2..];
      } else {
        ReplaceQuotesIdentity(s[1..]);
        assert s == [s[0]] + s[1..];
      }
    }
  }

  /** The quote pass never adds or removes a line break. */
  lemma {:induction false} ReplaceQuotesNewlines(s: string, q: string)
    requires '\n' !in q
    ensures Count(ReplaceQuotes(s, q), '\n') == Count(s, '\n')
    decreases |s|
  {
    if |s| >= 2 {
      if s[0] != '\\' && s[1] == '"' {
        ReplaceQuotesNewlines(s[2..], q);
        CountAbsent(q, '\n');
        CountConcat([s[0]] + q, ReplaceQuotes(s[2..], q), '\n');
        CountConcat([s[0]], q, '\n');
        CountConcat([s[0], s[1]], s[2..], '\n');
        assert s == [s[0], s[1]] + s[2..];
        assert Count([s[0], s[1]], '\n') == Count([s[0]], '\n') by {
          CountConcat([s[0]], [s[1]], '\n');
          assert [s[0], s[1]] == [s[0]] + [s[1]];
        }
      } else {
        ReplaceQuotesNewlines(s[1..], q);
        CountConcat([s[0]], s[1..], '\n');
        CountConcat([s[0]], ReplaceQuotes(s[1..], q), '\n');
        assert s == [s[0]] + s[1..];
      }
    }
  }

  /**
   * `stringifyStyled(json, style)` with `JSON.stringify(json, null, tab)`
   * as `stringify`. A `$` in the quote, newline or indent would be read
   * as a replacement pattern; styles that `detectStyle` produces have none.
   */
  function StringifyStyled<J>(json: J, style: Style, stringify: (J, string) -> string): (r: string)
    ensures StartsWith(r, style.indent)
    ensures EndsWith(r, style.trailingNewline)
  {
    style.indent
      + ReplaceAll(ReplaceQuotes(ReplaceEmptyStrings(stringify(json, style.tab), style.quote), style.quote), '\n', style.newline + style.indent)
      + style.trailingNewline
  }

  /**
   * In a double-quoted `\n` style with no base indent and no trailing
   * newline, the output is exactly what `JSON.stringify` gives.
   */
  lemma StringifyPlain<J>(json: J, tab: string, stringify: (J, string) -> string)
    ensures StringifyStyled(json, Style(tab, "\n", "", "", "\""), stringify) == stringify(json, tab)
  {
    var t := stringify(json, tab);
    ReplaceEmptyStringsIdentity(t);
    ReplaceQuotesIdentity(t);
    ReplaceAllSame(t, '\n');
    assert "\n" + "" == ['\n'];
    assert "" + t + "" == t;
  }

  /** Replacing a character by itself changes nothing. */
  lemma {:induction false} ReplaceAllSame(s: string, c: char)
    ensures ReplaceAll(s, c, [c]) == s
  {
    if |s| > 0 {
      ReplaceAllSame(s[1..], c);
      assert s == [s[0]] + s[1..];
    }
  }
}
