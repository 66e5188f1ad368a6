/**
 * The hand-written HTML `<script>` lexer (src/inject/script-lexer.ts):
 * a cursor `i` over `source` finds `<script>` elements, their attributes
 * and their inner text, skipping comments and other tags.
 *
 * Reading past the end of the text gives `NaN`, which equals nothing, and
 * every loop stops at the end only through a test `i === source.length`.
 * When the cursor has already passed the end that test never holds again,
 * so a loop whose condition holds for `NaN` runs forever; the model
 * reports that as a hang. With `fixed` set, the end tests read
 * `i >= source.length` and a script's `start` and `innerEnd` are taken at
 * the `<` of its tags.
 */
module ScriptLexer {
  import opened Strings

  /** `ParsedAttribute`: offsets of the name and of the value (-1 when there is none). */
  datatype Attribute = Attribute(nameStart: int, nameEnd: int, valueStart: int, valueEnd: int)

  /** `ParsedScript`. */
  datatype Script = Script(start: int, end: int, attributes: seq<Attribute>, innerStart: int, innerEnd: int)

  /** `isWs(ch)` on a character code. */
  predicate IsWs(code: int)
  {
    code == 32 || (code < 14 && code > 8)
  }

  /** `isWs` holds for the space and the codes 9 to 13, and nothing else. */
  lemma IsWsCodes(code: int)
    ensures IsWs(code) <==> code in {9, 10, 11, 12, 13, 32}
  {
  }

  /** `isWs(source.charCodeAt(k))`: past either end the code is `NaN`, not a space. */
  predicate WsAt(s: string, k: int)
  {
    0 <= k < |s| && IsWs(s[k] as int)
  }

  /** `source.charCodeAt(k) === c`. */
  predicate Is(s: string, k: int, c: char)
  {
    0 <= k < |s| && s[k] == c
  }

  predicate IsQuote(c: char)
  {
    c == '"' || c == '\''
  }

  /** The end test: `i === source.length` as written, `i >= source.length` when fixed. */
  predicate AtEnd(k: int, len: int, fixed: bool)
  {
    if fixed then k >= len else k == len
  }

  // ------------------------------------------------------- loop outcomes

  /** How a scanning loop ends: its condition fails (cursor `at`), it returns, or it never ends. */
  datatype Loop = Exit(at: int) | Quit(at: int) | Hung

  /** A loop over spaces, which cannot run past the end. */
  datatype Skip = Skipped(at: int) | SkipQuit(at: int)

  /** The attribute-name loop, which can also return at a `>`. */
  datatype NameEnd = NameExit(at: int) | NameGt(at: int) | NameQuit(at: int) | NameHang

  /** `readTagName()`: a name, `undefined`, or a hang. */
  datatype Tag = TagName(name: string, at: int) | NoTag(at: int) | TagHang

  /** `scanAttr()`: an attribute, `undefined`, or a hang. */
  datatype Scan = Attr(attr: Attribute, at: int) | NoAttr(at: int) | ScanHang

  /** `while (attr = scanAttr()) ...`. */
  datatype Attrs = AttrsDone(attrs: seq<Attribute>, at: int) | AttrsHang

  /** The search for `</script`: found, input ended (`return scripts`), or a hang. */
  datatype Body = Closed(innerEnd: int, end: int) | BodyQuit | BodyHang

  /** `parseScripts(source)`: the scripts, or a hang. */
  datatype Parsed = Scripts(scripts: seq<Script>) | ParseHang

  // ------------------------------------------------------------- scanning

  /** `while (source.charCodeAt(i++) !== c) if (i === source.length) return;` */
  function ScanTo(s: string, i: int, c: char, fixed: bool): (r: Loop)
    requires 0 <= i
    ensures r.Exit? ==> i < r.at <= |s| && s[r.at - 1] == c && forall k :: i <= k < r.at - 1 ==> s[k] != c
    ensures r.Quit? ==> i < r.at && |s| <= r.at && (fixed || r.at == |s|) && forall k :: i <= k < |s| ==> s[k] != c
    ensures r.Hung? ==> !fixed
    decreases |s| + 1 - i
  {
    if Is(s, i, c) then Exit(i + 1)
    else if AtEnd(i + 1, |s|, fixed) then Quit(i + 1)
    else if i + 1 > |s| then Hung
    else ScanTo(s, i + 1, c, fixed)
  }

  /** `readTagName()`'s loop from `start`, now at `i`: up to a space (consumed) or a `>` (not consumed). */
  function TagScan(s: string, start: int, i: int, fixed: bool): (r: Tag)
    requires 0 <= start <= i
    ensures r.TagName? ==> start + |r.name| <= r.at <= |s| && r.name == s[start..start + |r.name|]
    ensures r.TagName? ==> if r.at == start + |r.name| then Is(s, r.at, '>') else r.at == start + |r.name| + 1 && WsAt(s, r.at - 1)
    ensures r.TagHang? ==> !fixed
    decreases |s| + 1 - i
  {
    if WsAt(s, i) || Is(s, i, '>') then TagName(s[start..i], if Is(s, i, '>') then i else i + 1)
    else if AtEnd(i + 1, |s|, fixed) then NoTag(i + 1)
    else if i + 1 > |s| then TagHang
    else TagScan(s, start, i + 1, fixed)
  }

  function ReadTag(s: string, i: int, fixed: bool): Tag
    requires 0 <= i
  {
    TagScan(s, i, i, fixed)
  }

  /** `while (isWs(ch = source.charCodeAt(i))) if (++i === source.length) return;` */
  function SkipWs(s: string, i: int, fixed: bool): (r: Skip)
    requires 0 <= i
    ensures r.at >= i
    ensures r.Skipped? ==> !WsAt(s, r.at) && (r.at > i ==> r.at <= |s|)
    ensures r.SkipQuit? ==> r.at > i && r.at >= |s|
    decreases |s| - i
  {
    if !WsAt(s, i) then Skipped(i)
    else if AtEnd(i + 1, |s|, fixed) then SkipQuit(i + 1)
    else SkipWs(s, i + 1, fixed)
  }

  /** `while (isWs(ch = source.charCodeAt(i++))) { if (i === source.length) return; ... }`: the stopping character is consumed. */
  function SkipWsPast(s: string, i: int, fixed: bool): (r: Skip)
    requires 0 <= i
    ensures r.at > i
    ensures r.Skipped? ==> !WsAt(s, r.at - 1)
    ensures r.SkipQuit? ==> r.at >= |s|
    decreases |s| - i
  {
    if !WsAt(s, i) then Skipped(i + 1)
    else if AtEnd(i + 1, |s|, fixed) then SkipQuit(i + 1)
    else SkipWsPast(s, i + 1, fixed)
  }

  /** The attribute-name loop: up to a space or `=` (consumed), returning at the end or at a `>`. */
  function NameScan(s: string, i: int, fixed: bool): (r: NameEnd)
    requires 0 <= i
    ensures r.NameExit? ==> i < r.at <= |s| && (WsAt(s, r.at - 1) || Is(s, r.at - 1, '='))
    ensures r.NameGt? ==> i <= r.at < |s| && s[r.at] == '>'
    ensures r.NameQuit? ==> r.at > i
    ensures r.NameHang? ==> !fixed
    decreases |s| + 1 - i
  {
    if WsAt(s, i) || Is(s, i, '=') then NameExit(i + 1)
    else if AtEnd(i + 1, |s|, fixed) then NameQuit(i + 1)
    else if Is(s, i, '>') then NameGt(i)
    else if i + 1 > |s| then NameHang
    else NameScan(s, i + 1, fixed)
  }

  /** `while (!isWs(ch = source.charCodeAt(i)) && ch !== 62) if (++i === source.length) return;` */
  function UnquotedScan(s: string, i: int, fixed: bool): (r: Loop)
    requires 0 <= i
    ensures r.Exit? ==> i <= r.at < |s| && (WsAt(s, r.at) || Is(s, r.at, '>'))
    ensures r.Quit? ==> r.at > i
    ensures r.Hung? ==> !fixed
    decreases |s| + 1 - i
  {
    if WsAt(s, i) || Is(s, i, '>') then Exit(i)
    else if AtEnd(i + 1, |s|, fixed) then Quit(i + 1)
    else if i + 1 > |s| then Hung
    else UnquotedScan(s, i + 1, fixed)
  }

  /** The comment loop: up to the next `-->`. */
  function CommentScan(s: string, i: int, fixed: bool): (r: Loop)
    requires 0 <= i
    ensures r.Exit? ==> i <= r.at && OccursAt(s, "-->", r.at)
    ensures r.Quit? ==> r.at > i
    ensures r.Hung? ==> !fixed
    decreases |s| + 1 - i
  {
    if Is(s, i, '-') && Is(s, i + 1, '-') && Is(s, i + 2, '>') then
      assert s[i..i + 3] == "-->";
      Exit(i)
    else if AtEnd(i + 1, |s|, fixed) then Quit(i + 1)
    else if i + 1 > |s| then Hung
    else CommentScan(s, i + 1, fixed)
  }

  // ------------------------------------------------------------ scanAttr

  /**
   * Where an attribute's value lies: none (-1, -1); between quotes, the
   * closing one at `valueEnd` and no other of its kind in between; or
   * unquoted, ending before a space or `>`.
   */
  predicate ValueSpan(s: string, a: Attribute)
  {
    (a.valueStart == -1 && a.valueEnd == -1)
    || (1 <= a.valueStart <= a.valueEnd < |s| && IsQuote(s[a.valueStart - 1]) && s[a.valueEnd] == s[a.valueStart - 1]
        && forall k :: a.valueStart <= k < a.valueEnd ==> s[k] != s[a.valueStart - 1])
    || (0 <= a.valueStart < a.valueEnd < |s| && (WsAt(s, a.valueEnd) || s[a.valueEnd] == '>'))
  }

  predicate AttrOk(s: string, a: Attribute)
  {
    0 <= a.nameStart <= a.nameEnd && ValueSpan(s, a)
  }

  /** The value part of `scanAttr()`, from the cursor after the name (and its `=`, when read). */
  function ValueScan(s: string, nameStart: int, nameEnd: int, i: int, fixed: bool): (r: Scan)
    requires 0 <= nameStart <= nameEnd < i
    ensures r.Attr? ==> i < r.at <= |s| && r.attr.nameStart == nameStart && r.attr.nameEnd == nameEnd && AttrOk(s, r.attr)
    ensures r.NoAttr? ==> r.at > i
    ensures r.ScanHang? ==> !fixed
  {
    match SkipWsPast(s, i, fixed)
    case SkipQuit(k) => NoAttr(k)
    case Skipped(k) =>
      if Is(s, k - 1, '"') || Is(s, k - 1, '\'') then
        match ScanTo(s, k, s[k - 1], fixed)
        case Exit(m) => Attr(Attribute(nameStart, nameEnd, k, m - 1), m)
        case Quit(m) => NoAttr(m)
        case Hung => ScanHang
      else
        match UnquotedScan(s, k + 1, fixed)
        case Exit(m) => Attr(Attribute(nameStart, nameEnd, k - 1, m), m)
        case Quit(m) => NoAttr(m)
        case Hung => ScanHang
  }

  /** `scanAttr()` from the start of a name (a non-space that is not `>`). */
  function NamedScan(s: string, nameStart: int, fixed: bool): (r: Scan)
    requires 0 <= nameStart && !Is(s, nameStart, '>')
    ensures r.Attr? ==> nameStart < r.at <= |s| && r.attr.nameStart == nameStart && AttrOk(s, r.attr)
    ensures r.NoAttr? ==> r.at > nameStart
    ensures r.ScanHang? ==> !fixed
  {
    match NameScan(s, nameStart, fixed)
    case NameHang => ScanHang
    case NameQuit(j) => NoAttr(j)
    case NameGt(j) => Attr(Attribute(nameStart, j, -1, -1), j)
    case NameExit(j) =>
      if Is(s, j - 1, '=') then ValueScan(s, nameStart, j - 1, j, fixed)
      else
        match SkipWs(s, j, fixed)
        case SkipQuit(k) => NoAttr(k)
        case Skipped(k) =>
          if Is(s, k, '=') then ValueScan(s, nameStart, j - 1, k, fixed)
          else Attr(Attribute(nameStart, j - 1, -1, -1), k)
  }

  /** `scanAttr()`: an attribute advances the cursor and stays within the text. */
  function AttrScan(s: string, i: int, fixed: bool): (r: Scan)
    requires 0 <= i
    ensures r.Attr? ==> i < r.at <= |s| && AttrOk(s, r.attr)
    ensures r.NoAttr? ==> r.at >= i
    ensures r.ScanHang? ==> !fixed
  {
    match SkipWs(s, i, fixed)
    case SkipQuit(j) => NoAttr(j)
    case Skipped(j) =>
      if Is(s, j, '>') then NoAttr(j + 1)
      else NamedScan(s, j, fixed)
  }

  /** `while (attr = scanAttr()) attributes.push(attr);` after `acc`. */
  function AttrsScan(s: string, i: int, fixed: bool, acc: seq<Attribute>): (r: Attrs)
    requires 0 <= i
    ensures r.AttrsDone? ==> r.at >= i
    ensures r.AttrsDone? && (forall k :: 0 <= k < |acc| ==> AttrOk(s, acc[k])) ==> forall k :: 0 <= k < |r.attrs| ==> AttrOk(s, r.attrs[k])
    ensures r.AttrsHang? ==> !fixed
    decreases |s| + 1 - i
  {
    match AttrScan(s, i, fixed)
    case ScanHang => AttrsHang
    case NoAttr(j) => AttrsDone(acc, j)
    case Attr(a, j) => AttrsScan(s, j, fixed, acc + [a])
  }

  // --------------------------------------------------------- parseScripts

  /** A script's offsets in order. */
  predicate Ordered(sc: Script)
  {
    sc.start < sc.innerStart <= sc.innerEnd < sc.end
  }

  /** A script whose `start` and `innerEnd` are at the `<` of `<script` and of `</script`. */
  predicate Located(s: string, sc: Script)
  {
    OccursAt(s, "<script", sc.start) && OccursAt(s, "</script", sc.innerEnd)
  }

  predicate WellFormed(s: string, sc: Script, fixed: bool)
  {
    Ordered(sc) && (fixed ==> Located(s, sc)) && forall k :: 0 <= k < |sc.attributes| ==> AttrOk(s, sc.attributes[k])
  }

  /** A name read after a `<` occurs with the `<` one place earlier. */
  lemma LtBefore(s: string, x: int, name: string)
    requires 1 <= x && x + |name| <= |s| && s[x - 1] == '<' && s[x..x + |name|] == name
    ensures OccursAt(s, "<" + name, x - 1)
  {
    assert s[x - 1..x + |name|] == [s[x - 1]] + s[x..x + |name|];
  }

  /** The `/script` tag read from `x` (after its `<`) up to `k`, then its attributes skipped. */
  function Closing(s: string, x: int, k: int, fixed: bool): (r: Body)
    requires 1 <= x <= |s| && s[x - 1] == '<' && x + 7 <= k <= |s| && s[x..x + 7] == "/script"
    ensures r.Closed? ==> x - 1 <= r.innerEnd < r.end
    ensures r.Closed? && fixed ==> OccursAt(s, "</script", r.innerEnd)
    ensures r.BodyHang? ==> !fixed
  {
    match AttrsScan(s, k, fixed, [])
    case AttrsHang => BodyHang
    case AttrsDone(_, m) =>
      LtBefore(s, x, "/script");
      Closed(if fixed then x - 1 else k - 8, m)
  }

  /** The inner `while (true)` loop: tags are read until `/script`. */
  function BodyScan(s: string, i: int, fixed: bool): (r: Body)
    requires 0 <= i
    ensures r.Closed? ==> i <= r.innerEnd < r.end
    ensures r.Closed? && fixed ==> OccursAt(s, "</script", r.innerEnd)
    ensures r.BodyHang? ==> !fixed
    decreases |s| + 1 - i
  {
    match ScanTo(s, i, '<', fixed)
    case Hung => BodyHang
    case Quit(_) => BodyQuit
    case Exit(x) =>
      match ReadTag(s, x, fixed)
      case TagHang => BodyHang
      case NoTag(_) => BodyQuit
      case TagName(name, k) =>
        if name == "/script" then Closing(s, x, k, fixed)
        else BodyScan(s, k, fixed)
  }

  /** A `<script` element: its opening tag read from `x` (after its `<`) up to `k`, its attributes and its body. */
  datatype Element = Element(script: Script) | ElementQuit | ElementHang

  /** The script `ScriptElement` builds from its attributes and body is well formed. */
  lemma ElementOk(s: string, x: int, k: int, fixed: bool, attrs: seq<Attribute>, m: int, innerEnd: int, end: int)
    requires 1 <= x && x + 6 <= |s| && s[x - 1] == '<' && x + 6 <= k <= m && s[x..x + 6] == "script"
    requires forall j :: 0 <= j < |attrs| ==> AttrOk(s, attrs[j])
    requires m <= innerEnd < end && (fixed ==> OccursAt(s, "</script", innerEnd))
    ensures WellFormed(s, Script(if fixed then x - 1 else k - 8, end, attrs, m, innerEnd), fixed) && end > x
  {
    if fixed {
      LtBefore(s, x, "script");
    }
  }

  function ScriptElement(s: string, x: int, k: int, fixed: bool): (r: Element)
    requires 1 <= x <= |s| && s[x - 1] == '<' && x + 6 <= k <= |s| && s[x..x + 6] == "script"
    ensures r.Element? ==> WellFormed(s, r.script, fixed) && r.script.end > x
    ensures r.ElementHang? ==> !fixed
  {
    match AttrsScan(s, k, fixed, [])
    case AttrsHang => ElementHang
    case AttrsDone(attrs, m) =>
      match BodyScan(s, m, fixed)
      case BodyHang => ElementHang
      case BodyQuit => ElementQuit
      case Closed(innerEnd, end) =>
        ElementOk(s, x, k, fixed, attrs, m, innerEnd, end);
        Element(Script(if fixed then x - 1 else k - 8, end, attrs, m, innerEnd))
  }

  predicate AllWellFormed(s: string, scripts: seq<Script>, fixed: bool)
  {
    forall k :: 0 <= k < |scripts| ==> WellFormed(s, scripts[k], fixed)
  }

  /** One pass of the outer loop: the input ends, the lexer hangs, or the cursor moves on, past at most one script. */
  datatype Step = StepEnd | StepHang | StepOn(at: int, found: seq<Script>)

  /** The body of the outer `while (i < source.length)` loop from `i`. */
  function Next(s: string, i: int, fixed: bool): (r: Step)
    requires 0 <= i
    ensures r.StepOn? ==> r.at > i && |r.found| <= 1 && AllWellFormed(s, r.found, fixed)
    ensures r.StepHang? ==> !fixed
  {
    match ScanTo(s, i, '<', fixed)
    case Hung => StepHang
    case Quit(_) => StepEnd
    case Exit(x) =>
      match ReadTag(s, x, fixed)
      case TagHang => StepHang
      case NoTag(_) => StepEnd
      case TagName(name, k) => AfterTag(s, x, name, k, fixed)
  }

  /** The rest of the outer loop's body once a tag name was read from `x` (after its `<`) up to `k`. */
  function AfterTag(s: string, x: int, name: string, k: int, fixed: bool): (r: Step)
    requires 1 <= x && x + |name| <= k <= |s| && s[x - 1] == '<' && s[x..x + |name|] == name
    ensures r.StepOn? ==> r.at >= x && |r.found| <= 1 && AllWellFormed(s, r.found, fixed)
    ensures r.StepHang? ==> !fixed
  {
    if name == "!--" then
      match CommentScan(s, k, fixed)
      case Hung => StepHang
      case Quit(_) => StepEnd
      case Exit(m) => StepOn(m + 3, [])
    else if name == "script" then
      match ScriptElement(s, x, k, fixed)
      case ElementHang => StepHang
      case ElementQuit => StepEnd
      case Element(sc) => StepOn(sc.end, [sc])
    else
      match AttrsScan(s, k, fixed, [])
      case AttrsHang => StepHang
      case AttrsDone(_, m) => StepOn(m, [])
  }

  /** The outer `while (i < source.length)` loop, with `scripts` found so far. */
  function OuterScan(s: string, i: int, fixed: bool, scripts: seq<Script>): (r: Parsed)
    requires 0 <= i
    ensures r.ParseHang? ==> !fixed
    decreases |s| - i
  {
    if i >= |s| then Scripts(scripts)
    else
      match Next(s, i, fixed)
      case StepEnd => Scripts(scripts)
      case StepHang => ParseHang
      case StepOn(j, found) => OuterScan(s, j, fixed, scripts + found)
  }

  lemma AppendWellFormed(s: string, scripts: seq<Script>, found: seq<Script>, fixed: bool)
    requires AllWellFormed(s, scripts, fixed) && AllWellFormed(s, found, fixed)
    ensures AllWellFormed(s, scripts + found, fixed)
  {
    forall j | 0 <= j < |scripts + found|
      ensures WellFormed(s, (scripts + found)[j], fixed)
    {
      if j < |scripts| {
        assert (scripts + found)[j] == scripts[j];
      } else {
        assert (scripts + found)[j] == found[j - |scripts|];
      }
    }
  }

  /** The outer loop adds only well-formed scripts. */
  lemma {:induction false} OuterWellFormed(s: string, i: int, fixed: bool, scripts: seq<Script>)
    requires 0 <= i && AllWellFormed(s, scripts, fixed)
    ensures OuterScan(s, i, fixed, scripts).Scripts? ==> AllWellFormed(s, OuterScan(s, i, fixed, scripts).scripts, fixed)
    decreases |s| - i
  {
    if i < |s| {
      match Next(s, i, fixed)
      case StepEnd =>
      case StepHang =>
      case StepOn(j, found) =>
        AppendWellFormed(s, scripts, found, fixed);
        OuterWellFormed(s, j, fixed, scripts + found);
    }
  }

  /** `parseScripts(source)`: fixed, it never hangs. */
  function Parse(s: string, fixed: bool): (r: Parsed)
    ensures fixed ==> r.Scripts?
  {
    OuterScan(s, 0, fixed, [])
  }

  /**
   * Every script `parseScripts` finds has its offsets in order and its
   * attribute spans as `ValueSpan` describes; fixed, its offsets sit on
   * the `<` of its tags.
   */
  lemma ParseWellFormed(s: string, fixed: bool)
    ensures Parse(s, fixed).Scripts? ==> AllWellFormed(s, Parse(s, fixed).scripts, fixed)
  {
    OuterWellFormed(s, 0, fixed, []);
  }

  // ------------------------------------------------------------ examples

  /** The tag-name loop passes over characters that are neither spaces nor `>`. */
  lemma {:induction false} TagScanRun(s: string, start: int, i: int, j: int, fixed: bool)
    requires 0 <= start <= i <= j < |s|
    requires forall p :: i <= p < j ==> !WsAt(s, p) && s[p] != '>'
    ensures TagScan(s, start, i, fixed) == TagScan(s, start, j, fixed)
    decreases j - i
  {
    if i < j {
      TagScanRun(s, start, i + 1, j, fixed);
    }
  }

  /** A tag name followed by a space or `>` is read whole. */
  lemma TagNameAt(s: string, x: int, name: string, fixed: bool)
    requires 0 <= x && x + |name| < |s| && s[x..x + |name|] == name
    requires forall p :: 0 <= p < |name| ==> !IsWs(name[p] as int) && name[p] != '>'
    requires IsWs(s[x + |name|] as int) || s[x + |name|] == '>'
    ensures ReadTag(s, x, fixed) == TagName(name, if s[x + |name|] == '>' then x + |name| else x + |name| + 1)
  {
    forall p | x <= p < x + |name|
      ensures !WsAt(s, p) && s[p] != '>'
    {
      assert s[p] == name[p - x];
    }
    TagScanRun(s, x, x, x + |name|, fixed);
  }

  /** The search for `c` passes over other characters. */
  lemma {:induction false} ScanToRun(s: string, i: int, j: int, c: char, fixed: bool)
    requires 0 <= i <= j < |s|
    requires forall p :: i <= p < j ==> s[p] != c
    ensures ScanTo(s, i, c, fixed) == ScanTo(s, j, c, fixed)
    decreases j - i
  {
    if i < j {
      ScanToRun(s, i + 1, j, c, fixed);
    }
  }

  /** The attribute-name loop passes over characters that are not spaces, `=` or `>`. */
  lemma {:induction false} NameScanRun(s: string, i: int, j: int, fixed: bool)
    requires 0 <= i <= j < |s|
    requires forall p :: i <= p < j ==> !WsAt(s, p) && s[p] != '=' && s[p] != '>'
    ensures NameScan(s, i, fixed) == NameScan(s, j, fixed)
    decreases j - i
  {
    if i < j {
      NameScanRun(s, i + 1, j, fixed);
    }
  }

  /** The comment loop passes over positions where `-->` does not start. */
  lemma {:induction false} CommentScanRun(s: string, i: int, j: int, fixed: bool)
    requires 0 <= i <= j < |s|
    requires forall p :: i <= p < j ==> !(s[p] == '-' && Is(s, p + 1, '-') && Is(s, p + 2, '>'))
    ensures CommentScan(s, i, fixed) == CommentScan(s, j, fixed)
    decreases j - i
  {
    if i < j {
      CommentScanRun(s, i + 1, j, fixed);
    }
  }

  /** A text whose last character is `<`: as written the lexer never returns; fixed, it finds nothing. */
  lemma TrailingLtHangs()
    ensures Parse("<", false) == ParseHang
    ensures Parse("<", true) == Scripts([])
  {
  }

  lemma OffsetsTags(s: string)
    requires s == "<script>x</script >"
    ensures s[1..7] == "script" && s[10..17] == "/script"
  {
    assert s[..7] == "<script";
    assert s[9..] == "</script >";
  }

  /** `<script>x</script >`: the opening tag name ends at the `>`. */
  lemma OffsetsOpen(s: string, fixed: bool)
    requires s == "<script>x</script >"
    ensures ReadTag(s, 1, fixed) == TagName("script", 7)
  {
    OffsetsTags(s);
    TagNameAt(s, 1, "script", fixed);
  }

  /** The closing tag name ends at the space, which is consumed. */
  lemma OffsetsClose(s: string, fixed: bool)
    requires s == "<script>x</script >"
    ensures ReadTag(s, 10, fixed) == TagName("/script", 18)
  {
    OffsetsTags(s);
    TagNameAt(s, 10, "/script", fixed);
  }

  lemma OffsetsTail(s: string, fixed: bool)
    requires s == "<script>x</script >"
    ensures AttrsScan(s, 18, fixed, []) == AttrsDone([], 19)
  {
    assert AttrScan(s, 18, fixed) == NoAttr(19);
  }

  lemma OffsetsBody(s: string, fixed: bool)
    requires s == "<script>x</script >"
    ensures BodyScan(s, 8, fixed) == Closed(if fixed then 9 else 10, 19)
  {
    OffsetsClose(s, fixed);
    OffsetsTail(s, fixed);
    assert ScanTo(s, 8, '<', fixed) == Exit(10);
  }

  lemma OffsetsElement(s: string, fixed: bool)
    requires s == "<script>x</script >"
    ensures ScriptElement(s, 1, 7, fixed) == Element(Script(if fixed then 0 else -1, 19, [], 8, if fixed then 9 else 10))
  {
    OffsetsBody(s, fixed);
    assert AttrScan(s, 7, fixed) == NoAttr(8);
    assert AttrsScan(s, 7, fixed, []) == AttrsDone([], 8);
  }

  lemma OffsetsNext(s: string, fixed: bool)
    requires s == "<script>x</script >"
    ensures Next(s, 0, fixed) == StepOn(19, [Script(if fixed then 0 else -1, 19, [], 8, if fixed then 9 else 10)])
  {
    OffsetsOpen(s, fixed);
    OffsetsElement(s, fixed);
    assert ScanTo(s, 0, '<', fixed) == Exit(1);
  }

  lemma OffsetsParse(s: string, fixed: bool)
    requires s == "<script>x</script >"
    ensures Parse(s, fixed) == Scripts([Script(if fixed then 0 else -1, 19, [], 8, if fixed then 9 else 10)])
  {
    var sc := Script(if fixed then 0 else -1, 19, [], 8, if fixed then 9 else 10);
    OffsetsNext(s, fixed);
    assert [] + [sc] == [sc];
    assert OuterScan(s, 19, fixed, [sc]) == Scripts([sc]);
  }

  /**
   * As written, `start` is the cursor after the tag name less 8, one too
   * few when `<script` is followed by `>`, and so is `innerEnd`, one too
   * many when `</script` is followed by a space.
   */
  lemma OffsetsAsWritten()
    ensures Parse("<script>x</script >", false) == Scripts([Script(-1, 19, [], 8, 10)])
  {
    OffsetsParse("<script>x</script >", false);
  }

  /** Fixed, the same text gives the offsets of the two `<`. */
  lemma OffsetsCorrected()
    ensures Parse("<script>x</script >", true) == Scripts([Script(0, 19, [], 8, 9)])
  {
    OffsetsParse("<script>x</script >", true);
  }

  lemma SimpleTags(s: string)
    requires s == "<script type=\"module\">test</script>"
    ensures s[1..7] == "script" && s[27..34] == "/script"
  {
    assert s[..7] == "<script";
    assert s[26..] == "</script>";
  }

  lemma SimpleOpen(s: string)
    requires s == "<script type=\"module\">test</script>"
    ensures ReadTag(s, 1, false) == TagName("script", 8)
  {
    SimpleTags(s);
    TagNameAt(s, 1, "script", false);
  }

  lemma SimpleName(s: string)
    requires s == "<script type=\"module\">test</script>"
    ensures NameScan(s, 8, false) == NameExit(13)
  {
    NameScanRun(s, 8, 12, false);
  }

  lemma SimpleValue(s: string)
    requires s == "<script type=\"module\">test</script>"
    ensures ValueScan(s, 8, 12, 13, false) == Attr(Attribute(8, 12, 14, 20), 21)
  {
    assert SkipWsPast(s, 13, false) == Skipped(14);
    assert s[13] == '"';
    assert ScanTo(s, 14, '"', false) == Exit(21) by {
      ScanToRun(s, 14, 20, '"', false);
    }
  }

  lemma SimpleFirst(s: string)
    requires s == "<script type=\"module\">test</script>"
    ensures AttrScan(s, 8, false) == Attr(Attribute(8, 12, 14, 20), 21)
  {
    SimpleName(s);
    SimpleValue(s);
    assert SkipWs(s, 8, false) == Skipped(8);
  }

  lemma SimpleLast(s: string)
    requires s == "<script type=\"module\">test</script>"
    ensures AttrScan(s, 21, false) == NoAttr(22)
  {
  }

  lemma SimpleAttribute(s: string)
    requires s == "<script type=\"module\">test</script>"
    ensures AttrsScan(s, 8, false, []) == AttrsDone([Attribute(8, 12, 14, 20)], 22)
  {
    SimpleFirst(s);
    SimpleLast(s);
  }

  lemma SimpleClose(s: string)
    requires s == "<script type=\"module\">test</script>"
    ensures ReadTag(s, 27, false) == TagName("/script", 34)
  {
    SimpleTags(s);
    TagNameAt(s, 27, "/script", false);
  }

  lemma SimpleBody(s: string)
    requires s == "<script type=\"module\">test</script>"
    ensures BodyScan(s, 22, false) == Closed(26, 35)
  {
    ScanToRun(s, 22, 26, '<', false);
    SimpleClose(s);
    assert AttrScan(s, 34, false) == NoAttr(35);
    assert AttrsScan(s, 34, false, []) == AttrsDone([], 35);
  }

  lemma SimpleElement(s: string)
    requires s == "<script type=\"module\">test</script>"
    ensures s[1..7] == "script" && ScriptElement(s, 1, 8, false) == Element(Script(0, 35, [Attribute(8, 12, 14, 20)], 22, 26))
  {
    SimpleTags(s);
    SimpleAttribute(s);
    SimpleBody(s);
  }

  lemma SimpleNext(s: string)
    requires s == "<script type=\"module\">test</script>"
    ensures Next(s, 0, false) == StepOn(35, [Script(0, 35, [Attribute(8, 12, 14, 20)], 22, 26)])
  {
    SimpleOpen(s);
    SimpleElement(s);
    assert ScanTo(s, 0, '<', false) == Exit(1);
  }

  lemma SimpleParse(s: string)
    requires s == "<script type=\"module\">test</script>"
    ensures Parse(s, false) == Scripts([Script(0, 35, [Attribute(8, 12, 14, 20)], 22, 26)])
  {
    var sc := Script(0, 35, [Attribute(8, 12, 14, 20)], 22, 26);
    SimpleNext(s);
    assert [] + [sc] == [sc];
    assert OuterScan(s, 35, false, [sc]) == Scripts([sc]);
  }

  /** A script with a quoted attribute, at offset 0: the value excludes its quotes. */
  lemma SimpleScript()
    ensures Parse("<script type=\"module\">test</script>", false)
      == Scripts([Script(0, 35, [Attribute(8, 12, 14, 20)], 22, 26)])
  {
    SimpleParse("<script type=\"module\">test</script>");
  }

  lemma CommentOpen(s: string)
    requires s == "<!-- <script>-->"
    ensures ReadTag(s, 1, false) == TagName("!--", 5)
  {
    TagScanRun(s, 1, 1, 4, false);
    assert s[1..4] == "!--";
  }

  lemma CommentBody(s: string)
    requires s == "<!-- <script>-->"
    ensures CommentScan(s, 5, false) == Exit(13)
  {
    assert forall p | 5 <= p < 13 :: s[p] != '-';
    CommentScanRun(s, 5, 13, false);
  }

  lemma CommentNext(s: string)
    requires s == "<!-- <script>-->"
    ensures Next(s, 0, false) == StepOn(16, [])
  {
    CommentOpen(s);
    CommentBody(s);
    assert ScanTo(s, 0, '<', false) == Exit(1);
  }

  lemma CommentParse(s: string)
    requires s == "<!-- <script>-->"
    ensures Parse(s, false) == Scripts([])
  {
    CommentNext(s);
    var none: seq<Script> := [];
    assert none + none == none;
    assert OuterScan(s, 16, false, []) == Scripts([]);
  }

  /** A script inside a comment is not found. */
  lemma CommentedScript()
    ensures Parse("<!-- <script>-->", false) == Scripts([])
  {
    CommentParse("<!-- <script>-->");
  }

  // ----------------------------------------------------------- the lexer

  /** The module-level `source` and cursor `i`. */
  class Lexer {
    var source: string
    var i: int
    const fixed: bool

    constructor (fixed: bool)
      ensures this.fixed == fixed && source == "" && i == 0
    {
      this.fixed := fixed;
      source := "";
      i := 0;
    }

    /** Lines 25-26, 42-43, 101-102 and 107-108: advance past the next `c`. */
    method SkipPast(c: char) returns (r: Loop)
      requires 0 <= i
      modifies this
      ensures source == old(source) && r == ScanTo(source, old(i), c, fixed)
      ensures !r.Hung? ==> i == r.at
    {
      while true
        invariant source == old(source) && old(i) <= i
        invariant ScanTo(source, i, c, fixed) == ScanTo(source, old(i), c, fixed)
        decreases |source| + 1 - i
      {
        var hit := Is(source, i, c);
        i := i + 1;
        if hit {
          return Exit(i);
        }
        if AtEnd(i, |source|, fixed) {
          return Quit(i);
        }
        if i > |source| {
          return Hung;
        }
      }
    }

    /** `readTagName()`. */
    method ReadTagName() returns (t: Tag)
      requires 0 <= i
      modifies this
      ensures source == old(source) && t == ReadTag(source, old(i), fixed)
      ensures !t.TagHang? ==> i == t.at
    {
      var start := i;
      while true
        invariant source == old(source) && start <= i
        invariant TagScan(source, start, i, fixed) == TagScan(source, start, start, fixed)
        decreases |source| + 1 - i
      {
        var ws := WsAt(source, i);
        var gt := Is(source, i, '>');
        i := i + 1;
        if ws || gt {
          if gt {
            i := i - 1;
            return TagName(source[start..i], i);
          }
          return TagName(source[start..i - 1], i);
        }
        if AtEnd(i, |source|, fixed) {
          return NoTag(i);
        }
        if i > |source| {
          return TagHang;
        }
      }
    }

    /** Lines 75-76 and 89-92: skip spaces without consuming the next character. */
    method SkipSpaces() returns (r: Skip)
      requires 0 <= i
      modifies this
      ensures source == old(source) && r == SkipWs(source, old(i), fixed) && i == r.at
    {
      while WsAt(source, i)
        invariant source == old(source) && old(i) <= i
        invariant SkipWs(source, i, fixed) == SkipWs(source, old(i), fixed)
        decreases |source| - i
      {
        i := i + 1;
        if AtEnd(i, |source|, fixed) {
          return SkipQuit(i);
        }
      }
      return Skipped(i);
    }

    /** Lines 95-98: skip spaces and consume the character after them. */
    method SkipSpacesPast() returns (r: Skip)
      requires 0 <= i
      modifies this
      ensures source == old(source) && r == SkipWsPast(source, old(i), fixed) && i == r.at
    {
      while true
        invariant source == old(source) && old(i) <= i
        invariant SkipWsPast(source, i, fixed) == SkipWsPast(source, old(i), fixed)
        decreases |source| - i
      {
        var ws := WsAt(source, i);
        i := i + 1;
        if !ws {
          return Skipped(i);
        }
        if AtEnd(i, |source|, fixed) {
          return SkipQuit(i);
        }
      }
    }

    /** Lines 82-86: read an attribute name. */
    method ReadName() returns (r: NameEnd)
      requires 0 <= i
      modifies this
      ensures source == old(source) && r == NameScan(source, old(i), fixed)
      ensures !r.NameHang? ==> i == r.at
    {
      while true
        invariant source == old(source) && old(i) <= i
        invariant NameScan(source, i, fixed) == NameScan(source, old(i), fixed)
        decreases |source| + 1 - i
      {
        var stop := WsAt(source, i) || Is(source, i, '=');
        var gt := Is(source, i, '>');
        i := i + 1;
        if stop {
          return NameExit(i);
        }
        if AtEnd(i, |source|, fixed) {
          return NameQuit(i);
        }
        if gt {
          i := i - 1;
          return NameGt(i);
        }
        if i > |source| {
          return NameHang;
        }
      }
    }

    /** Lines 114-115: read an unquoted value. */
    method ReadUnquoted() returns (r: Loop)
      requires 0 <= i
      modifies this
      ensures source == old(source) && r == UnquotedScan(source, old(i), fixed)
      ensures !r.Hung? ==> i == r.at
    {
      while !(WsAt(source, i) || Is(source, i, '>'))
        invariant source == old(source) && old(i) <= i
        invariant UnquotedScan(source, i, fixed) == UnquotedScan(source, old(i), fixed)
        decreases |source| + 1 - i
      {
        i := i + 1;
        if AtEnd(i, |source|, fixed) {
          return Quit(i);
        }
        if i > |source| {
          return Hung;
        }
      }
      return Exit(i);
    }

    /** Lines 31-32: advance to the next `-->`. */
    method SkipComment() returns (r: Loop)
      requires 0 <= i
      modifies this
      ensures source == old(source) && r == CommentScan(source, old(i), fixed)
      ensures !r.Hung? ==> i == r.at
    {
      while !(Is(source, i, '-') && Is(source, i + 1, '-') && Is(source, i + 2, '>'))
        invariant source == old(source) && old(i) <= i
        invariant CommentScan(source, i, fixed) == CommentScan(source, old(i), fixed)
        decreases |source| + 1 - i
      {
        i := i + 1;
        if AtEnd(i, |source|, fixed) {
          return Quit(i);
        }
        if i > |source| {
          return Hung;
        }
      }
      return Exit(i);
    }

    /** `scanAttr()`. */
    method ScanAttr() returns (r: Scan)
      requires 0 <= i
      modifies this
      ensures source == old(source) && r == AttrScan(source, old(i), fixed)
      ensures !r.ScanHang? ==> i == r.at
    {
      var sk := SkipSpaces();
      if sk.SkipQuit? {
        return NoAttr(i);
      }
      if Is(source, i, '>') {
        i := i + 1;
        return NoAttr(i);
      }
      var nameStart := i;
      var n := ReadName();
      if n.NameHang? {
        return ScanHang;
      } else if n.NameQuit? {
        return NoAttr(i);
      } else if n.NameGt? {
        return Attr(Attribute(nameStart, i, -1, -1), i);
      }
      var nameEnd := i - 1;
      r := ReadValue(nameStart, nameEnd);
    }

    /** Lines 88-117: the value after a name, if there is one. */
    method ReadValue(nameStart: int, nameEnd: int) returns (r: Scan)
      requires 0 <= nameStart <= nameEnd < i && (WsAt(source, i - 1) || Is(source, i - 1, '='))
      modifies this
      ensures source == old(source)
      ensures r == if Is(source, old(i) - 1, '=') then ValueScan(source, nameStart, nameEnd, old(i), fixed)
        else match SkipWs(source, old(i), fixed)
          case SkipQuit(k) => NoAttr(k)
          case Skipped(k) => if Is(source, k, '=') then ValueScan(source, nameStart, nameEnd, k, fixed)
            else Attr(Attribute(nameStart, nameEnd, -1, -1), k)
      ensures !r.ScanHang? ==> i == r.at
    {
      if !Is(source, i - 1, '=') {
        var w := SkipSpaces();
        if w.SkipQuit? {
          return NoAttr(i);
        }
        if !Is(source, i, '=') {
          return Attr(Attribute(nameStart, nameEnd, -1, -1), i);
        }
      }
      r := ReadAssigned(nameStart, nameEnd);
    }

    /** The value after `=`: quoted, unquoted, or none when the text ends. */
    method ReadAssigned(nameStart: int, nameEnd: int) returns (r: Scan)
      requires 0 <= nameStart <= nameEnd < i
      modifies this
      ensures source == old(source) && r == ValueScan(source, nameStart, nameEnd, old(i), fixed)
      ensures !r.ScanHang? ==> i == r.at
    {
      var p := SkipSpacesPast();
      if p.SkipQuit? {
        return NoAttr(i);
      }
      if Is(source, i - 1, '"') || Is(source, i - 1, '\'') {
        var valueStart := i;
        var q := SkipPast(source[i - 1]);
        if q.Hung? {
          return ScanHang;
        } else if q.Quit? {
          return NoAttr(i);
        }
        return Attr(Attribute(nameStart, nameEnd, valueStart, i - 1), i);
      } else {
        var valueStart := i - 1;
        i := i + 1;
        var u := ReadUnquoted();
        if u.Hung? {
          return ScanHang;
        } else if u.Quit? {
          return NoAttr(i);
        }
        return Attr(Attribute(nameStart, nameEnd, valueStart, i), i);
      }
    }

    /** `while (attr = scanAttr()) curScript.attributes.push(attr);`, and `while (scanAttr());`. */
    method ScanAttrs() returns (r: Attrs)
      requires 0 <= i
      modifies this
      ensures source == old(source) && r == AttrsScan(source, old(i), fixed, [])
      ensures r.AttrsDone? ==> i == r.at
    {
      var attributes: seq<Attribute> := [];
      while true
        invariant source == old(source) && 0 <= i
        invariant AttrsScan(source, i, fixed, attributes) == AttrsScan(source, old(i), fixed, [])
        decreases |source| + 1 - i
      {
        var attr := ScanAttr();
        if attr.ScanHang? {
          return AttrsHang;
        } else if attr.NoAttr? {
          return AttrsDone(attributes, i);
        }
        attributes := attributes + [attr.attr];
      }
    }

    /** The inner `while (true)` loop of lines 41-52, from the end of the opening tag. */
    method ReadBody() returns (r: Body)
      requires 0 <= i
      modifies this
      ensures source == old(source) && r == BodyScan(source, old(i), fixed)
      ensures r.Closed? ==> i == r.end
    {
      while true
        invariant source == old(source) && 0 <= i
        invariant BodyScan(source, i, fixed) == BodyScan(source, old(i), fixed)
        decreases |source| + 1 - i
      {
        var lt := SkipPast('<');
        if lt.Hung? {
          return BodyHang;
        } else if lt.Quit? {
          return BodyQuit;
        }
        var x := i;
        var tag := ReadTagName();
        if tag.TagHang? {
          return BodyHang;
        } else if tag.NoTag? {
          return BodyQuit;
        }
        if tag.name == "/script" {
          var innerEnd := if fixed then x - 1 else i - 8;
          var rest := ScanAttrs();
          if rest.AttrsHang? {
            return BodyHang;
          }
          return Closed(innerEnd, i);
        }
      }
    }

    /** Lines 35-52: a `<script` element whose tag name was read from `x`. */
    method ReadScript(x: int) returns (r: Element)
      requires 1 <= x <= |source| && source[x - 1] == '<' && x + 6 <= i <= |source| && source[x..x + 6] == "script"
      modifies this
      ensures source == old(source) && r == ScriptElement(source, x, old(i), fixed)
      ensures r.Element? ==> i == r.script.end
    {
      var start := if fixed then x - 1 else i - 8;
      var attrs := ScanAttrs();
      if attrs.AttrsHang? {
        return ElementHang;
      }
      var innerStart := i;
      var body := ReadBody();
      if body.BodyHang? {
        return ElementHang;
      } else if body.BodyQuit? {
        return ElementQuit;
      }
      return Element(Script(start, body.end, attrs.attrs, innerStart, body.innerEnd));
    }

    /** Lines 24-60: one pass of the outer loop. */
    method ReadNext() returns (r: Step)
      requires 0 <= i
      modifies this
      ensures source == old(source) && r == Next(source, old(i), fixed)
      ensures r.StepOn? ==> i == r.at
    {
      var lt := SkipPast('<');
      if lt.Hung? {
        return StepHang;
      } else if lt.Quit? {
        return StepEnd;
      }
      var x := i;
      var tag := ReadTagName();
      if tag.TagHang? {
        return StepHang;
      } else if tag.NoTag? {
        return StepEnd;
      }
      if tag.name == "!--" {
        var c := SkipComment();
        if c.Hung? {
          return StepHang;
        } else if c.Quit? {
          return StepEnd;
        }
        i := i + 3;
        return StepOn(i, []);
      } else if tag.name == "script" {
        var element := ReadScript(x);
        if element.ElementHang? {
          return StepHang;
        } else if element.ElementQuit? {
          return StepEnd;
        }
        return StepOn(i, [element.script]);
      } else {
        var rest := ScanAttrs();
        if rest.AttrsHang? {
          return StepHang;
        }
        return StepOn(i, []);
      }
    }

    /** `parseScripts(_source)`. */
    method ParseScripts(text: string) returns (r: Parsed)
      modifies this
      ensures r == Parse(text, fixed)
    {
      source := text;
      i := 0;
      var scripts: seq<Script> := [];
      while i < |source|
        invariant source == text && 0 <= i
        invariant OuterScan(source, i, fixed, scripts) == Parse(text, fixed)
        decreases |source| - i
      {
        var step := ReadNext();
        if step.StepHang? {
          return ParseHang;
        } else if step.StepEnd? {
          return Scripts(scripts);
        }
        scripts := scripts + step.found;
      }
      return Scripts(scripts);
    }
  }
}
