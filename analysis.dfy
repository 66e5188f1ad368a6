/**
 * Module analysis in src/install/resolver.ts: the dependency lists read
 * from the lexer's import records (`createEsmAnalysis`), from a
 * `System.register` wrapper (`createSystemAnalysis`), and `analyze`, which
 * fetches a module and retries once when the lexer reports a parse error.
 * The lexer, the `System.register` regular expression, `JSON.parse` and
 * the integrity hash are parameters.
 */
module Analysis {
  import opened Wrappers
  import opened Strings
  import opened Fetch

  /** An `es-module-lexer` import record: start, end, and `d` (-1 static, -2 `import.meta`, >= 0 dynamic). */
  datatype ImportRecord = ImportRecord(s: int, e: int, d: int)

  datatype ModuleAnalysis = ModuleAnalysis(
    deps: seq<string>, dynamicDeps: seq<string>, size: nat, integrity: string, system: bool)

  /**
   * A match of `registerRegEx`: capture group 3 (the dependency array
   * text, brackets included, so never empty) and group 6 (the context
   * identifier, "" when that group did not take part).
   */
  datatype RegisterMatch = RegisterMatch(rawDeps: string, contextId: string)

  /**
   * The foreign functions analysis relies on: the lexer (an error is the
   * exception it throws), `source.match(registerRegEx)`, `JSON.parse` of
   * a string literal's body and of the dependency array, and
   * `computeIntegrity`.
   */
  datatype AnalysisOps = AnalysisOps(
    lex: string -> Result<seq<ImportRecord>>,
    register: string -> Option<RegisterMatch>,
    jsonString: string -> Option<string>,
    jsonList: string -> Result<seq<string>>,
    integrity: string -> string)

  /** The static imports' specifiers, in record order. */
  function EsmDeps(imports: seq<ImportRecord>, source: string): (r: seq<string>)
    ensures forall x :: x in r <==> exists i :: 0 <= i < |imports| && imports[i].d == -1 && x == Slice(source, imports[i].s, imports[i].e)
  {
    if |imports| == 0 then []
    else
      var init := imports[..|imports| - 1];
      var last := imports[|imports| - 1];
      var r := EsmDeps(init, source) + (if last.d == -1 then [Slice(source, last.s, last.e)] else []);
      assert forall i :: 0 <= i < |init| ==> init[i] == imports[i];
      r
  }

  /**
   * The specifier of a dynamic import record, when its expression is a
   * quoted string literal that `JSON.parse` accepts (the quotes are
   * replaced by double quotes); other expressions are skipped.
   */
  function DynamicSpecifier(record: ImportRecord, source: string, ops: AnalysisOps): (r: Option<string>)
    ensures r.Some? ==> record.d >= 0
  {
    if record.d < 0 then None
    else
      var expression := Slice(source, record.s, record.e);
      if StartsWith(expression, "\"") || StartsWith(expression, "'") then ops.jsonString(Slice(expression, 1, -1))
      else None
  }

  /** The dynamic imports' specifiers, in record order. */
  function EsmDynamics(imports: seq<ImportRecord>, source: string, ops: AnalysisOps): (r: seq<string>)
    ensures forall x :: x in r <==> exists i :: 0 <= i < |imports| && DynamicSpecifier(imports[i], source, ops) == Some(x)
  {
    if |imports| == 0 then []
    else
      var init := imports[..|imports| - 1];
      var last := imports[|imports| - 1];
      var found := DynamicSpecifier(last, source, ops);
      assert forall i :: 0 <= i < |init| ==> init[i] == imports[i];
      EsmDynamics(init, source, ops) + (if found.Some? then [found.value] else [])
  }

  /**
   * The dynamic import after an occurrence of `ctx.import(` at `i`: a
   * quote right after it, a closing quote of the same kind later, and a
   * body `JSON.parse` accepts.
   */
  function DynamicImportAt(source: string, call: string, i: nat, ops: AnalysisOps): Option<string>
  {
    var q := i + |call|;
    if q < |source| && (source[q] == '"' || source[q] == '\'') then
      var close := IndexOfFrom(source, source[q], q + 1);
      if close != -1 then ops.jsonString(Slice(source, q + 1, close)) else None
    else None
  }

  /**
   * The specifiers of the `ctx.import(` calls found from position `from`
   * on, in order of occurrence.
   */
  function SystemDynamics(source: string, call: string, from: nat, ops: AnalysisOps): seq<string>
    requires |call| > 0
    decreases |source| - from
  {
    var i := IndexOfSubFrom(source, call, from);
    if i < 0 then []
    else
      var here := DynamicImportAt(source, call, i, ops);
      (if here.Some? then [here.value] else []) + SystemDynamics(source, call, i + 1, ops)
  }

  /**
   * The scan reports exactly the parsable dynamic imports at the
   * occurrences of the call text: each reported specifier comes from one,
   * and each one is reported.
   */
  lemma SystemDynamicsMembers(source: string, call: string, from: nat, ops: AnalysisOps)
    requires |call| > 0
    ensures forall x :: x in SystemDynamics(source, call, from, ops) ==>
      exists i :: from <= i < |source| && OccursAt(source, call, i) && DynamicImportAt(source, call, i, ops) == Some(x)
    ensures forall i :: from <= i < |source| && OccursAt(source, call, i) && DynamicImportAt(source, call, i, ops).Some? ==>
      DynamicImportAt(source, call, i, ops).value in SystemDynamics(source, call, from, ops)
  {
    forall x | x in SystemDynamics(source, call, from, ops)
      ensures exists i :: from <= i < |source| && OccursAt(source, call, i) && DynamicImportAt(source, call, i, ops) == Some(x)
    {
      SystemDynamicsSound(source, call, from, ops, x);
    }
    forall i | from <= i < |source| && OccursAt(source, call, i) && DynamicImportAt(source, call, i, ops).Some?
      ensures DynamicImportAt(source, call, i, ops).value in SystemDynamics(source, call, from, ops)
    {
      SystemDynamicsComplete(source, call, from, ops, i);
    }
  }

  /** Each reported specifier comes from an occurrence of the call text at or after `from`. */
  lemma {:induction false} SystemDynamicsSound(source: string, call: string, from: nat, ops: AnalysisOps, x: string)
    requires |call| > 0
    requires x in SystemDynamics(source, call, from, ops)
    ensures exists i :: from <= i < |source| && OccursAt(source, call, i) && DynamicImportAt(source, call, i, ops) == Some(x)
    decreases |source| - from
  {
    var i := IndexOfSubFrom(source, call, from);
    assert i >= 0;
    var here := DynamicImportAt(source, call, i, ops);
    var rest := SystemDynamics(source, call, i + 1, ops);
    UnfoldDynamics(source, call, from, ops);
    if here != Some(x) {
      assert x in rest;
      SystemDynamicsSound(source, call, i + 1, ops, x);
    }
  }

  /** Each parsable occurrence at or after `from` is reported. */
  lemma {:induction false} SystemDynamicsComplete(source: string, call: string, from: nat, ops: AnalysisOps, j: nat)
    requires |call| > 0 && from <= j < |source|
    requires OccursAt(source, call, j) && DynamicImportAt(source, call, j, ops).Some?
    ensures DynamicImportAt(source, call, j, ops).value in SystemDynamics(source, call, from, ops)
    decreases |source| - from
  {
    var i := IndexOfSubFrom(source, call, from);
    FirstOccurrence(source, call, from, j);
    if i < j {
      SystemDynamicsComplete(source, call, i + 1, ops, j);
    }
    ReportedFrom(source, call, from, ops, DynamicImportAt(source, call, j, ops).value);
  }

  /** What the first occurrence from `from` gives, or what is reported after it, is reported from `from`. */
  lemma ReportedFrom(source: string, call: string, from: nat, ops: AnalysisOps, x: string)
    requires |call| > 0 && IndexOfSubFrom(source, call, from) >= 0
    requires DynamicImportAt(source, call, IndexOfSubFrom(source, call, from), ops) == Some(x) ||
             x in SystemDynamics(source, call, IndexOfSubFrom(source, call, from) + 1, ops)
    ensures x in SystemDynamics(source, call, from, ops)
  {
    UnfoldDynamics(source, call, from, ops);
  }

  lemma UnfoldDynamics(source: string, call: string, from: nat, ops: AnalysisOps)
    requires |call| > 0 && IndexOfSubFrom(source, call, from) >= 0
    ensures var i := IndexOfSubFrom(source, call, from);
      var here := DynamicImportAt(source, call, i, ops);
      SystemDynamics(source, call, from, ops) == (if here.Some? then [here.value] else []) + SystemDynamics(source, call, i + 1, ops)
  {
  }

  /** An occurrence at `j` leaves the first occurrence from `from` at or before `j`. */
  lemma FirstOccurrence(source: string, call: string, from: nat, j: nat)
    requires |call| > 0 && from <= j && OccursAt(source, call, j)
    ensures 0 <= IndexOfSubFrom(source, call, from) <= j
  {
  }

  /** The analysis of a `System.register` module with a matched wrapper. */
  function SystemSpec(source: string, m: RegisterMatch, ops: AnalysisOps): Result<ModuleAnalysis>
  {
    var deps := ops.jsonList(ReplaceAll(m.rawDeps, '\'', "\""));
    if deps.Err? then Err(deps.error)
    else
      var dynamics := if m.contextId != "" then SystemDynamics(source, m.contextId + ".import(", 0, ops) else [];
      Ok(ModuleAnalysis(deps.value, dynamics, Utf16Length(source), ops.integrity(source), true))
  }

  /** `createEsmAnalysis`: a module without imports that matches the wrapper is a System module. */
  function EsmSpec(imports: seq<ImportRecord>, source: string, ops: AnalysisOps): Result<ModuleAnalysis>
  {
    if |imports| == 0 && ops.register(source).Some? then SystemSpec(source, ops.register(source).value, ops)
    else Ok(ModuleAnalysis(EsmDeps(imports, source), EsmDynamics(imports, source, ops), Utf16Length(source), ops.integrity(source), false))
  }

  /** `createSystemAnalysis`: without a wrapper match it falls back to `createEsmAnalysis`. */
  function AnalysisSpec(system: bool, imports: seq<ImportRecord>, source: string, ops: AnalysisOps): Result<ModuleAnalysis>
  {
    if system && ops.register(source).Some? then SystemSpec(source, ops.register(source).value, ops)
    else EsmSpec(imports, source, ops)
  }

  /**
   * Both entry points agree whenever the source has no wrapper, every
   * analysis reports the source's JavaScript `length` (UTF-16 code units)
   * as its size, and a non-System analysis has no wrapper match or imports.
   */
  lemma AnalysisShape(system: bool, imports: seq<ImportRecord>, source: string, ops: AnalysisOps)
    ensures ops.register(source).None? ==> AnalysisSpec(system, imports, source, ops) == AnalysisSpec(!system, imports, source, ops)
    ensures AnalysisSpec(system, imports, source, ops).Ok? ==> AnalysisSpec(system, imports, source, ops).value.size == Utf16Length(source)
    ensures AnalysisSpec(system, imports, source, ops).Ok? && !AnalysisSpec(system, imports, source, ops).value.system ==>
      ops.register(source).None? || |imports| > 0
  {
  }

  /** `createEsmAnalysis(imports, source, url)`. */
  method CreateEsmAnalysis(imports: seq<ImportRecord>, source: string, ops: AnalysisOps) returns (r: Result<ModuleAnalysis>)
    ensures r == EsmSpec(imports, source, ops)
  {
    var registered := ops.register(source);
    if |imports| == 0 && registered.Some? {
      r := SystemAnalysisOf(source, registered.value, ops);
      return;
    }
    var deps: seq<string> := [];
    var dynamicDeps: seq<string> := [];
    for k := 0 to |imports|
      invariant deps == EsmDeps(imports[..k], source)
      invariant dynamicDeps == EsmDynamics(imports[..k], source, ops)
    {
      assert imports[..k + 1][..k] == imports[..k];
      var impt := imports[k];
      if impt.d == -1 {
        deps := deps + [Slice(source, impt.s, impt.e)];
        continue;
      }
      if impt.d >= 0 {
        var dynExpression := Slice(source, impt.s, impt.e);
        if StartsWith(dynExpression, "\"") || StartsWith(dynExpression, "'") {
          var parsed := ops.jsonString(Slice(dynExpression, 1, -1));
          if parsed.Some? {
            dynamicDeps := dynamicDeps + [parsed.value];
          }
        }
      }
    }
    assert imports[..|imports|] == imports;
    r := Ok(ModuleAnalysis(deps, dynamicDeps, Utf16Length(source), ops.integrity(source), false));
  }

  /** `createSystemAnalysis(source, imports, url)`. */
  method CreateSystemAnalysis(source: string, imports: seq<ImportRecord>, ops: AnalysisOps) returns (r: Result<ModuleAnalysis>)
    ensures r == AnalysisSpec(true, imports, source, ops)
  {
    var registered := ops.register(source);
    if registered.None? {
      r := CreateEsmAnalysis(imports, source, ops);
      return;
    }
    r := SystemAnalysisOf(source, registered.value, ops);
  }

  /** The part of `createSystemAnalysis` after a wrapper match, with its `indexOf` scan. */
  method SystemAnalysisOf(source: string, m: RegisterMatch, ops: AnalysisOps) returns (r: Result<ModuleAnalysis>)
    ensures r == SystemSpec(source, m, ops)
  {
    var deps := ops.jsonList(ReplaceAll(m.rawDeps, '\'', "\""));
    if deps.Err? {
      return Err(deps.error);
    }
    var dynamicDeps: seq<string> := [];
    if m.contextId != "" {
      dynamicDeps := ScanDynamicImports(source, m.contextId + ".import(", ops);
    }
    r := Ok(ModuleAnalysis(deps.value, dynamicDeps, Utf16Length(source), ops.integrity(source), true));
  }

  /** The `while ((i = source.indexOf(dynamicImport, i + 1)) !== -1)` loop. */
  method ScanDynamicImports(source: string, call: string, ops: AnalysisOps) returns (dynamicDeps: seq<string>)
    requires |call| > 0
    ensures dynamicDeps == SystemDynamics(source, call, 0, ops)
  {
    dynamicDeps := [];
    var i := -1;
    while true
      invariant -1 <= i < |source|
      invariant ScanFrom(source, call, i + 1, ops, dynamicDeps) == ScanFrom(source, call, 0, ops, [])
      decreases |source| - i
    {
      var next := IndexOfSubFrom(source, call, i + 1);
      if next == -1 {
        ScanMatches(source, call, 0, ops, []);
        return;
      }
      var found := DynamicImportAt(source, call, next, ops);
      if found.Some? {
        dynamicDeps := dynamicDeps + [found.value];
      }
      i := next;
    }
  }

  /** The scan as the loop runs it: what was reported so far, extended occurrence by occurrence. */
  ghost function ScanFrom(source: string, call: string, from: nat, ops: AnalysisOps, reported: seq<string>): seq<string>
    requires |call| > 0
    decreases |source| - from
  {
    var i := IndexOfSubFrom(source, call, from);
    if i < 0 then reported
    else
      var here := DynamicImportAt(source, call, i, ops);
      ScanFrom(source, call, i + 1, ops, if here.Some? then reported + [here.value] else reported)
  }

  /** Scanning on from `from` appends exactly the specifiers found from `from` on. */
  lemma {:induction false} ScanMatches(source: string, call: string, from: nat, ops: AnalysisOps, reported: seq<string>)
    requires |call| > 0
    ensures ScanFrom(source, call, from, ops, reported) == reported + SystemDynamics(source, call, from, ops)
    ensures reported == [] ==> ScanFrom(source, call, from, ops, reported) == SystemDynamics(source, call, from, ops)
    decreases |source| - from
  {
    assert [] + SystemDynamics(source, call, from, ops) == SystemDynamics(source, call, from, ops);
    var i := IndexOfSubFrom(source, call, from);
    if i < 0 {
      assert reported + [] == reported;
    } else {
      var here := DynamicImportAt(source, call, i, ops);
      var rest := SystemDynamics(source, call, i + 1, ops);
      UnfoldDynamics(source, call, from, ops);
      if here.Some? {
        ScanMatches(source, call, i + 1, ops, reported + [here.value]);
        Associate(reported, [here.value], rest);
      } else {
        ScanMatches(source, call, i + 1, ops, reported);
        assert [] + rest == rest;
      }
    }
  }

  lemma Associate<T>(a: seq<T>, b: seq<T>, c: seq<T>)
    ensures a + (b + c) == (a + b) + c
  {
  }


  /** A failure the lexer reports as a parse error. */
  predicate IsParseError(e: Error)
  {
    e.PlainError? && StartsWith(e.message, "Parse error @:")
  }

  /** The `line:column` text of a lexer parse error: from offset 14 up to the first newline. */
  function ParsePosition(message: string): string
  {
    Slice(message, 14, IndexOf(message, '\n'))
  }

  /** Reading one response: 404 is "Module not found", another failing status is invalid. */
  function ReadModule(url: string, res: TextResponse): (r: Result<string>)
    ensures r.Ok? <==> IsOk(res.status)
    ensures r.Ok? ==> r.value == res.text
    ensures r.Err? ==> r.error.JspmError?
  {
    if IsOk(res.status) then Ok(res.text)
    else if res.status == 404 then Err(JspmError("Module not found: " + url, ""))
    else Err(JspmError("Invalid status code loading " + url, ""))
  }

  /** One fetch-and-analyse attempt. */
  function Attempt(url: string, res: TextResponse, system: bool, ops: AnalysisOps): Result<ModuleAnalysis>
  {
    var source := ReadModule(url, res);
    if source.Err? then Err(source.error)
    else
      var imports := ops.lex(source.value);
      if imports.Err? then Err(imports.error)
      else AnalysisSpec(system, imports.value, source.value, ops)
  }

  /**
   * `analyze(resolvedUrl, parentUrl, system)`, given the responses of the
   * first and of the retried fetch: only a parse error triggers the
   * retry, and a second parse error becomes a `JspmError` naming the
   * position, so no raw parse error escapes.
   */
  method Analyze(url: string, first: TextResponse, second: TextResponse, system: bool, ops: AnalysisOps)
    returns (r: Result<ModuleAnalysis>)
    ensures !(Attempt(url, first, system, ops).Err? && IsParseError(Attempt(url, first, system, ops).error)) ==>
      r == Attempt(url, first, system, ops)
    ensures Attempt(url, first, system, ops).Err? && IsParseError(Attempt(url, first, system, ops).error) ==>
      var again := Attempt(url, second, system, ops);
      if again.Err? && IsParseError(again.error)
      then r == Err(JspmError("Error parsing " + url + ":" + ParsePosition(again.error.message), ""))
      else r == again
    ensures r.Err? ==> !IsParseError(r.error)
    ensures !IsOk(first.status) ==> r.Err? && r.error.JspmError?
  {
    r := AttemptOnce(url, first, system, ops);
    if r.Err? && IsParseError(r.error) {
      r := AttemptOnce(url, second, system, ops);
      if r.Err? && IsParseError(r.error) {
        r := Err(JspmError("Error parsing " + url + ":" + ParsePosition(r.error.message), ""));
      }
    }
  }

  method AttemptOnce(url: string, res: TextResponse, system: bool, ops: AnalysisOps) returns (r: Result<ModuleAnalysis>)
    ensures r == Attempt(url, res, system, ops)
  {
    var source := ReadModule(url, res);
    if source.Err? {
      return Err(source.error);
    }
    var imports := ops.lex(source.value);
    if imports.Err? {
      return Err(imports.error);
    }
    if system {
      r := CreateSystemAnalysis(source.value, imports.value, ops);
    } else {
      r := CreateEsmAnalysis(imports.value, source.value, ops);
    }
  }
}
