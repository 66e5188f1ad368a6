/**
 * Package exports resolution (src/install/resolver.ts): choosing a target
 * from a conditional `exports` value for an environment, building the
 * subpath map of a package from its configuration, and narrowing that map
 * to one subpath, expanding `*` patterns.
 */
module Exports {
  import opened Wrappers
  import opened Strings
  import opened Manifest

  /** A condition applies when it is `default` or one of the environment's conditions. */
  predicate Eligible(condition: string, env: seq<string>)
  {
    condition == "default" || condition in env
  }

  /** A resolved target that JavaScript treats as truthy: a non-empty string. */
  predicate Hit(r: Option<string>)
  {
    r.Some? && r.value != ""
  }

  /** `s` is one of the strings written somewhere inside `t`. */
  predicate Occurs(s: string, t: ExportsTarget)
  {
    match t
    case Str(x) => x == s
    case Null => false
    case Obj(entries) => exists i :: 0 <= i < |entries| && Occurs(s, entries[i].1)
    case Arr(items) => exists i :: 0 <= i < |items| && Occurs(s, items[i])
  }

  /**
   * `getExportsTarget`: a string is its own target; a condition object
   * yields the first truthy target among its eligible conditions, in key
   * order; an array yields the target of its first element; anything else
   * (and an exhausted object) is `null`, modelled as `None`.
   */
  function GetExportsTarget(t: ExportsTarget, env: seq<string>): (r: Option<string>)
    decreases t, 1
    ensures t.Str? ==> r == Some(t.s)
    ensures t.Null? ==> r.None?
    ensures t.Obj? ==> r.None? || Hit(r)
    ensures r.Some? ==> Occurs(r.value, t)
  {
    match t
    case Str(s) => Some(s)
    case Null => None
    case Obj(entries) => FirstCondition(t, 0, env)
    case Arr(items) =>
      if |items| == 0 then None
      else
        var r := GetExportsTarget(items[0], env);
        assert r.Some? ==> Occurs(r.value, items[0]);
        r
  }

  /**
   * The `for (const condition in target)` loop of `getExportsTarget`,
   * from the `i`-th key on: the first eligible condition whose target is
   * truthy decides, and no such condition gives `None`.
   */
  function FirstCondition(t: ExportsTarget, i: nat, env: seq<string>): (r: Option<string>)
    requires t.Obj? && i <= |t.entries|
    decreases t, 0, |t.entries| - i
    ensures r.None? <==>
      forall j :: i <= j < |t.entries| && Eligible(t.entries[j].0, env) ==> !Hit(GetExportsTarget(t.entries[j].1, env))
    ensures r.Some? ==> exists j :: i <= j < |t.entries| && FirstHit(t, env, i, j, r)
    ensures r.Some? ==> Occurs(r.value, t)
  {
    if i == |t.entries| then None
    else
      var (condition, target) := t.entries[i];
      var resolved := if Eligible(condition, env) then GetExportsTarget(target, env) else None;
      if Hit(resolved) then
        assert FirstHit(t, env, i, i, resolved);
        resolved
      else
        var r := FirstCondition(t, i + 1, env);
        assert r.Some? ==> exists j :: i <= j < |t.entries| && FirstHit(t, env, i, j, r) by {
          if r.Some? {
            var j :| i + 1 <= j < |t.entries| && FirstHit(t, env, i + 1, j, r);
            assert FirstHit(t, env, i, j, r);
          }
        }
        r
  }

  /**
   * Entry `j` decides the object from entry `i` on: it is eligible, its
   * target `r` is truthy, and no eligible entry between `i` and `j` is.
   */
  ghost predicate FirstHit(t: ExportsTarget, env: seq<string>, i: nat, j: nat, r: Option<string>)
    requires t.Obj? && i <= j < |t.entries|
    decreases t, 0, 0
  {
    Eligible(t.entries[j].0, env) && Hit(r) && GetExportsTarget(t.entries[j].1, env) == r &&
    forall k :: i <= k < j && Eligible(t.entries[k].0, env) ==> !Hit(GetExportsTarget(t.entries[k].1, env))
  }

  /**
   * Only an array's first element is ever consulted: the fallbacks after
   * it never change the result.
   */
  lemma FallbacksIgnored(first: ExportsTarget, fallbacks: seq<ExportsTarget>, env: seq<string>)
    ensures GetExportsTarget(Arr([first] + fallbacks), env) == GetExportsTarget(first, env)
  {
  }

  /**
   * An object's result does not depend on conditions the environment does
   * not have: dropping every ineligible entry leaves it unchanged.
   */
  lemma {:induction false} IneligibleIgnored(t: ExportsTarget, i: nat, env: seq<string>)
    requires t.Obj? && i <= |t.entries|
    ensures FirstCondition(t, i, env) == FirstCondition(Obj(EligibleOnly(t.entries[i..], env)), 0, env)
    decreases |t.entries| - i
  {
    var rest := EligibleOnly(t.entries[i..], env);
    if i < |t.entries| {
      IneligibleIgnored(t, i + 1, env);
      assert t.entries[i..][1..] == t.entries[i + 1..];
      if Eligible(t.entries[i].0, env) {
        assert rest == [t.entries[i]] + EligibleOnly(t.entries[i + 1..], env);
        ShiftCondition(rest, env);
      } else {
        assert rest == EligibleOnly(t.entries[i + 1..], env);
      }
    }
  }

  /** The entries whose condition is eligible, in order. */
  function EligibleOnly(entries: Dict<ExportsTarget>, env: seq<string>): (r: Dict<ExportsTarget>)
    ensures |r| <= |entries|
    ensures forall k :: 0 <= k < |r| ==> Eligible(r[k].0, env) && r[k] in entries
  {
    if |entries| == 0 then []
    else if Eligible(entries[0].0, env) then [entries[0]] + EligibleOnly(entries[1..], env)
    else EligibleOnly(entries[1..], env)
  }

  /** Scanning from the second entry is scanning the object without its first entry. */
  lemma {:induction false} ShiftCondition(entries: Dict<ExportsTarget>, env: seq<string>)
    requires |entries| > 0
    ensures FirstCondition(Obj(entries), 1, env) == FirstCondition(Obj(entries[1..]), 0, env)
  {
    ShiftFrom(entries, 1, env);
  }

  lemma {:induction false} ShiftFrom(entries: Dict<ExportsTarget>, i: nat, env: seq<string>)
    requires 1 <= i <= |entries|
    ensures FirstCondition(Obj(entries), i, env) == FirstCondition(Obj(entries[1..]), i - 1, env)
    decreases |entries| - i
  {
    if i < |entries| {
      ShiftFrom(entries, i + 1, env);
      assert entries[1..][i - 1] == entries[i];
    }
  }
  /** No string inside the target contains '*'. */
  predicate StarFree(t: ExportsTarget)
  {
    match t
    case Str(s) => '*' !in s
    case Null => true
    case Obj(entries) => forall i :: 0 <= i < |entries| ==> StarFree(entries[i].1)
    case Arr(items) => forall i :: 0 <= i < |items| ==> StarFree(items[i])
  }

  /** Same constructors, keys and lengths all the way down; only strings may differ. */
  predicate SameShape(a: ExportsTarget, b: ExportsTarget)
  {
    match a
    case Str(_) => b.Str?
    case Null => b.Null?
    case Obj(entries) =>
      b.Obj? && |b.entries| == |entries| &&
      forall i :: 0 <= i < |entries| ==> b.entries[i].0 == entries[i].0 && SameShape(entries[i].1, b.entries[i].1)
    case Arr(items) =>
      b.Arr? && |b.items| == |items| &&
      forall i :: 0 <= i < |items| ==> SameShape(items[i], b.items[i])
  }

  lemma StarsReplaced(s: string, replacement: string)
    ensures '*' !in replacement ==> '*' !in ReplaceAll(s, '*', replacement)
  {
    if '*' !in replacement {
      ReplaceAllRemoves(s, '*', replacement);
    }
  }

  /**
   * `replaceTargets`: every '*' in every string of the target becomes the
   * replacement; arrays, objects and `null` keep their structure.
   */
  function ReplaceTargets(t: ExportsTarget, replacement: string): (r: ExportsTarget)
    ensures SameShape(t, r)
    ensures StarFree(t) ==> r == t
    ensures '*' !in replacement ==> StarFree(r)
  {
    match t
    case Str(s) =>
      StarsReplaced(s, replacement);
      Str(ReplaceAll(s, '*', replacement))
    case Null => Null
    case Obj(entries) =>
      var r := Obj(seq(|entries|, i requires 0 <= i < |entries| => (entries[i].0, ReplaceTargets(entries[i].1, replacement))));
      assert StarFree(t) ==> r.entries == entries;
      r
    case Arr(items) =>
      var r := Arr(seq(|items|, i requires 0 <= i < |items| => ReplaceTargets(items[i], replacement)));
      assert StarFree(t) ==> r.items == items;
      r
  }
}

module ExportsMap {
  import opened Wrappers
  import opened Strings
  import opened Manifest
  import opened Exports

  /** `getExportsTarget`'s result as a stored exports value: a string or `null`. */
  function AsTarget(r: Option<string>): (t: ExportsTarget)
    ensures t.Str? || t.Null?
    ensures r.None? <==> t.Null?
  {
    if r.Some? then Str(r.value) else Null
  }

  /**
   * `allDotKeys`: every own key of the value begins with '.'. An array's
   * keys are its indices, so only the empty array qualifies; the empty
   * key has no first character and does not qualify.
   */
  predicate AllDotKeys(e: ExportsTarget)
  {
    match e
    case Obj(entries) => forall i :: 0 <= i < |entries| ==> |entries[i].0| > 0 && entries[i].0[0] == '.'
    case Arr(items) => |items| == 0
    case _ => true
  }

  /**
   * The exports map of a package with an `exports` field (neither absent
   * nor `null`): a string is the main entry; a value with a key not
   * starting with '.' is one conditional main entry; otherwise each
   * subpath resolves on its own, in key order.
   */
  method ConditionalExports(e: ExportsTarget, env: seq<string>) returns (exports: Dict<ExportsTarget>)
    requires !e.Null?
    ensures e.Str? ==> exports == [(".", e)]
    ensures !e.Str? && !AllDotKeys(e) ==> exports == [(".", AsTarget(GetExportsTarget(e, env)))]
    ensures e.Arr? && AllDotKeys(e) ==> exports == []
    ensures e.Obj? && AllDotKeys(e) && DistinctKeys(e.entries) ==>
      |exports| == |e.entries| &&
      forall i :: 0 <= i < |exports| ==> exports[i] == (e.entries[i].0, AsTarget(GetExportsTarget(e.entries[i].1, env)))
  {
    exports := [];
    if e.Str? {
      exports := Put(exports, ".", e);
    } else if !AllDotKeys(e) {
      exports := Put(exports, ".", AsTarget(GetExportsTarget(e, env)));
    } else if e.Obj? {
      var entries := e.entries;
      for i := 0 to |entries|
        invariant DistinctKeys(entries) ==>
          (|exports| == i &&
           forall k :: 0 <= k < i ==> exports[k] == (entries[k].0, AsTarget(GetExportsTarget(entries[k].1, env))))
      {
        exports := Put(exports, entries[i].0, AsTarget(GetExportsTarget(entries[i].1, env)));
      }
    }
  }

  /** A main or browser path as a relative subpath target: `./` is prefixed unless present. */
  function DotSlash(p: string): (r: string)
    ensures StartsWith(r, "./")
    ensures StartsWith(p, "./") ==> r == p
    ensures EndsWith(r, p)
  {
    if StartsWith(p, "./") then p else "./" + p
  }

  /** The main entry before the browser map applies: a string `browser`, else a string `main`. */
  function MainEntry(pcfg: PackageConfig): (r: Option<string>)
    ensures r.Some? ==> StartsWith(r.value, "./")
    ensures pcfg.browser.None? && pcfg.main.None? ==> r.None?
  {
    if pcfg.browser.Some? && pcfg.browser.value.BrowserPath? then Some(DotSlash(pcfg.browser.value.path))
    else if pcfg.main.Some? then Some(DotSlash(pcfg.main.value))
    else None
  }

  /** The `browser` replacements, or none when `browser` is not an object. */
  function BrowserReplacements(pcfg: PackageConfig): Dict<string>
  {
    if pcfg.browser.Some? && pcfg.browser.value.BrowserMap? then pcfg.browser.value.replacements else []
  }

  /**
   * The main entry after the browser replacements run in key order: each
   * `./` replacement whose key equals the current main entry replaces it,
   * so replacements chain.
   */
  function RemappedMain(main: Option<string>, replacements: Dict<string>): Option<string>
  {
    if |replacements| == 0 then main
    else
      var (subpath, target) := replacements[|replacements| - 1];
      var before := RemappedMain(main, replacements[..|replacements| - 1]);
      if StartsWith(subpath, "./") && before == Some(subpath) then Some(target) else before
  }

  /** A replacement that does not mention the main entry leaves it as it was. */
  lemma {:induction false} RemapUnrelated(main: string, replacements: Dict<string>)
    requires forall i :: 0 <= i < |replacements| ==> replacements[i].0 != main
    ensures RemappedMain(Some(main), replacements) == Some(main)
  {
    if |replacements| > 0 {
      RemapUnrelated(main, replacements[..|replacements| - 1]);
    }
  }

  /** The `./` keys of the replacements, with their values. */
  function SubpathReplacements(replacements: Dict<string>): (r: Dict<string>)
    ensures forall i :: 0 <= i < |r| ==> StartsWith(r[i].0, "./") && r[i] in replacements
  {
    if |replacements| == 0 then []
    else
      var init := SubpathReplacements(replacements[..|replacements| - 1]);
      var last := replacements[|replacements| - 1];
      if StartsWith(last.0, "./") then init + [last] else init
  }

  /** A truthy string, or the default in its place. */
  function OrDefault(o: Option<string>, default: string): (r: string)
    ensures o.Some? && o.value != "" ==> r == o.value
    ensures o.None? || o.value == "" ==> r == default
  {
    if o.Some? && o.value != "" then o.value else default
  }

  function AsStr(o: Option<string>): Option<ExportsTarget>
  {
    if o.Some? then Some(Str(o.value)) else None
  }

  /** The exports map state while the browser replacements are copied. */
  ghost predicate BrowserState(exports: Dict<ExportsTarget>, main: Option<string>, done: Dict<string>)
  {
    Get(exports, ".") == AsStr(RemappedMain(main, done)) &&
    (forall k :: StartsWith(k, "./") ==> Get(exports, k) == AsStr(Latest(SubpathReplacements(done), k))) &&
    (forall k :: k != "." && !StartsWith(k, "./") ==> Get(exports, k).None?)
  }

  /**
   * The exports map of a package without `exports`: the main entry
   * (after browser replacements) under ".", every `./` browser
   * replacement under its own subpath, the "./" directory entry, and the
   * defaults "." and "./" for whichever of those two is missing or empty.
   */
  method LegacyExports(pcfg: PackageConfig) returns (exports: Dict<ExportsTarget>)
    ensures Get(exports, ".") == Some(Str(OrDefault(RemappedMain(MainEntry(pcfg), BrowserReplacements(pcfg)), ".")))
    ensures Get(exports, "./") == Some(Str(OrDefault(Latest(SubpathReplacements(BrowserReplacements(pcfg)), "./"), "./")))
    ensures forall k :: StartsWith(k, "./") && k != "./" ==>
      Get(exports, k) == AsStr(Latest(SubpathReplacements(BrowserReplacements(pcfg)), k))
    ensures forall k :: k != "." && !StartsWith(k, "./") ==> Get(exports, k).None?
  {
    var main := MainEntry(pcfg);
    exports := [];
    if main.Some? {
      exports := Put(exports, ".", Str(main.value));
    }
    InitialState(exports, main);
    var replacements := BrowserReplacements(pcfg);
    exports := CopyReplacements(exports, main, replacements);
    var withDir := exports;
    var slash := Get(exports, "./");
    if !(slash.Some? && Truthy(slash.value)) {
      withDir := Put(exports, "./", Str("./"));
    }
    var dot := Get(withDir, ".");
    var final := withDir;
    if !(dot.Some? && Truthy(dot.value)) {
      final := Put(withDir, ".", Str("."));
    }
    Defaults(exports, withDir, final, main, replacements);
    exports := final;
  }

  lemma InitialState(exports: Dict<ExportsTarget>, main: Option<string>)
    requires exports == if main.Some? then Put([], ".", Str(main.value)) else []
    ensures BrowserState(exports, main, [])
  {
    forall k ensures Get(exports, k) == if main.Some? && k == "." then Some(Str(main.value)) else None {
      if main.Some? {
        GetPut([], ".", Str(main.value), k);
      }
    }
  }

  /** The browser replacements loop: every `./` replacement is copied, remapping the main entry. */
  method CopyReplacements(start: Dict<ExportsTarget>, main: Option<string>, replacements: Dict<string>)
    returns (exports: Dict<ExportsTarget>)
    requires BrowserState(start, main, [])
    ensures BrowserState(exports, main, replacements)
  {
    exports := start;
    for i := 0 to |replacements|
      invariant BrowserState(exports, main, replacements[..i])
    {
      var (subpath, target) := replacements[i];
      assert replacements[..i + 1][..i] == replacements[..i];
      if StartsWith(subpath, "./") {
        var before := exports;
        if Get(exports, ".") == Some(Str(subpath)) {
          exports := Put(exports, ".", Str(target));
        }
        var middle := exports;
        exports := Put(exports, subpath, Str(target));
        assert replacements[..i + 1] == replacements[..i] + [(subpath, target)];
        BrowserStep(before, middle, exports, main, replacements[..i + 1]);
      }
    }
    assert replacements[..|replacements|] == replacements;
  }

  /** Filling in the "./" and "." defaults gives the final exports map. */
  lemma Defaults(exports: Dict<ExportsTarget>, withDir: Dict<ExportsTarget>, final: Dict<ExportsTarget>,
                 main: Option<string>, replacements: Dict<string>)
    requires BrowserState(exports, main, replacements)
    requires withDir == if Get(exports, "./").Some? && Truthy(Get(exports, "./").value) then exports else Put(exports, "./", Str("./"))
    requires final == if Get(withDir, ".").Some? && Truthy(Get(withDir, ".").value) then withDir else Put(withDir, ".", Str("."))
    ensures Get(final, ".") == Some(Str(OrDefault(RemappedMain(main, replacements), ".")))
    ensures Get(final, "./") == Some(Str(OrDefault(Latest(SubpathReplacements(replacements), "./"), "./")))
    ensures forall k :: StartsWith(k, "./") && k != "./" ==>
      Get(final, k) == AsStr(Latest(SubpathReplacements(replacements), k))
    ensures forall k :: k != "." && !StartsWith(k, "./") ==> Get(final, k).None?
  {
    assert StartsWith("./", "./");
    PutDefault(exports, "./", "./", AsStr(Latest(SubpathReplacements(replacements), "./")), withDir);
    PutDefault(withDir, ".", ".", AsStr(RemappedMain(main, replacements)), final);
  }

  /** The string an optional string target holds. */
  function StrValue(o: Option<ExportsTarget>): Option<string>
    requires o.None? || o.value.Str?
  {
    if o.Some? then Some(o.value.s) else None
  }

  /** Setting `key` to `default` unless it already holds a truthy string. */
  lemma PutDefault(d: Dict<ExportsTarget>, key: string, default: string, current: Option<ExportsTarget>,
                   out: Dict<ExportsTarget>)
    requires Get(d, key) == current && (current.None? || current.value.Str?)
    requires out == if current.Some? && Truthy(current.value) then d else Put(d, key, Str(default))
    ensures forall k :: Get(out, k) == if k == key then Some(Str(OrDefault(StrValue(current), default))) else Get(d, k)
  {
    forall k ensures Get(out, k) == if k == key then Some(Str(OrDefault(StrValue(current), default))) else Get(d, k) {
      if !(current.Some? && Truthy(current.value)) {
        GetPut(d, key, Str(default), k);
      }
    }
  }

  lemma ForallGetPut(d: Dict<ExportsTarget>, key: string, value: ExportsTarget)
    ensures forall k :: Get(Put(d, key, value), k) == if k == key then Some(value) else Get(d, k)
  {
    forall k ensures Get(Put(d, key, value), k) == if k == key then Some(value) else Get(d, k) {
      GetPut(d, key, value, k);
    }
  }

  /** Copying one `./` replacement keeps the browser state. */
  lemma BrowserStep(before: Dict<ExportsTarget>, middle: Dict<ExportsTarget>, after: Dict<ExportsTarget>,
                    main: Option<string>, done: Dict<string>)
    requires |done| > 0 && StartsWith(done[|done| - 1].0, "./")
    requires BrowserState(before, main, done[..|done| - 1])
    requires middle == if Get(before, ".") == Some(Str(done[|done| - 1].0)) then Put(before, ".", Str(done[|done| - 1].1)) else before
    requires after == Put(middle, done[|done| - 1].0, Str(done[|done| - 1].1))
    ensures BrowserState(after, main, done)
  {
    var (subpath, target) := done[|done| - 1];
    var init := done[..|done| - 1];
    assert subpath != "." by {
      assert |subpath| >= 2;
    }
    GetPut(middle, subpath, Str(target), ".");
    if Get(before, ".") == Some(Str(subpath)) {
      GetPut(before, ".", Str(target), ".");
    }
    assert Get(after, ".") == AsStr(RemappedMain(main, done));
    SubpathsStep(before, middle, after, init, subpath, target);
    forall k | k != "." && !StartsWith(k, "./") ensures Get(after, k).None? {
      GetPut(middle, subpath, Str(target), k);
      GetPut(before, ".", Str(target), k);
    }
  }

  lemma SubpathsStep(before: Dict<ExportsTarget>, middle: Dict<ExportsTarget>, after: Dict<ExportsTarget>,
                     init: Dict<string>, subpath: string, target: string)
    requires StartsWith(subpath, "./")
    requires forall k :: StartsWith(k, "./") ==> Get(before, k) == AsStr(Latest(SubpathReplacements(init), k))
    requires middle == before || middle == Put(before, ".", Str(target))
    requires after == Put(middle, subpath, Str(target))
    ensures forall k :: StartsWith(k, "./") ==> Get(after, k) == AsStr(Latest(SubpathReplacements(init + [(subpath, target)]), k))
  {
    var done := init + [(subpath, target)];
    assert done[..|done| - 1] == init;
    assert SubpathReplacements(done) == SubpathReplacements(init) + [(subpath, target)];
    forall k | StartsWith(k, "./")
      ensures Get(after, k) == AsStr(Latest(SubpathReplacements(done), k))
    {
      assert k != "." by {
        assert |k| >= 2;
      }
      GetPut(middle, subpath, Str(target), k);
      GetPut(before, ".", Str(target), k);
      LatestAppend(SubpathReplacements(init), subpath, target, k);
    }
  }
}

/**
 * Narrowing an exports map to one subpath (the `subpathFilter` branch of
 * `resolveExports` in src/install/resolver.ts).
 */
module ExportsFilter {
  import opened Wrappers
  import opened Strings
  import opened Manifest
  import opened Exports

  /** `key` is the filter subpath itself or a path below it. */
  predicate ExactMatch(key: string, filter: string)
  {
    StartsWith(key, filter) && (|key| == |filter| || key[|filter|] == '/')
  }

  /** `key` is a `*` pattern whose base (the key without its '*') is a prefix of the filter. */
  predicate PatternMatch(key: string, filter: string)
  {
    !ExactMatch(key, filter) && EndsWith(key, "*") && StartsWith(filter, key[..|key| - 1])
  }

  /**
   * The assignments one exports entry makes to the filtered map: an exact
   * match moves to "." plus the rest of its key; a matching pattern
   * assigns "." with '*' replaced by the rest of the filter, and the
   * subpath pattern "./" + "*" with '*' replaced by that rest followed by
   * "/" + "*".
   */
  function Writes(entry: (string, ExportsTarget), filter: string): (w: Dict<ExportsTarget>)
    ensures forall i :: 0 <= i < |w| ==> w[i].0 == "." || StartsWith(w[i].0, "./")
  {
    var (key, target) := entry;
    if ExactMatch(key, filter) then [("." + key[|filter|..], target)]
    else if PatternMatch(key, filter) then
      var replacement := filter[|key| - 1..];
      [(".", ReplaceTargets(target, replacement)), ("./*", ReplaceTargets(target, replacement + "/*"))]
    else []
  }

  /** The assignments of all entries, in key order. */
  function AllWrites(exports: Dict<ExportsTarget>, filter: string): (w: Dict<ExportsTarget>)
    ensures forall i :: 0 <= i < |w| ==> w[i].0 == "." || StartsWith(w[i].0, "./")
  {
    if |exports| == 0 then [] else AllWrites(exports[..|exports| - 1], filter) + Writes(exports[|exports| - 1], filter)
  }

  /**
   * The filtered exports map: with a non-empty subpath filter, each key
   * holds what the last assignment to it gave it, and only "." and "./"
   * subpaths occur; with no filter (or the empty one) the map is
   * unchanged.
   */
  method FilterExports(exports: Dict<ExportsTarget>, subpathFilter: Option<string>) returns (filtered: Dict<ExportsTarget>)
    ensures subpathFilter.None? || subpathFilter.value == "" ==> filtered == exports
    ensures subpathFilter.Some? && subpathFilter.value != "" ==>
      forall k :: Get(filtered, k) == Latest(AllWrites(exports, "./" + subpathFilter.value), k)
    ensures subpathFilter.Some? && subpathFilter.value != "" ==>
      forall k :: k != "." && !StartsWith(k, "./") ==> Get(filtered, k).None?
  {
    if subpathFilter.None? || subpathFilter.value == "" {
      return exports;
    }
    var filter := "./" + subpathFilter.value;
    filtered := [];
    for i := 0 to |exports|
      invariant forall k :: Get(filtered, k) == Latest(AllWrites(exports[..i], filter), k)
    {
      assert exports[..i + 1] == exports[..i] + [exports[i]];
      filtered := ApplyEntry(filtered, exports[i], filter, AllWrites(exports[..i], filter));
    }
    assert exports[..|exports|] == exports;
    forall k | k != "." && !StartsWith(k, "./") ensures Get(filtered, k).None? {
      var w := AllWrites(exports, filter);
      assert forall i :: 0 <= i < |w| ==> w[i].0 != k;
    }
  }

  /** One iteration of the filtering loop: the entry's assignments are made in order. */
  method ApplyEntry(filtered: Dict<ExportsTarget>, entry: (string, ExportsTarget), filter: string, ghost done: Dict<ExportsTarget>)
    returns (next: Dict<ExportsTarget>)
    requires forall k :: Get(filtered, k) == Latest(done, k)
    ensures forall k :: Get(next, k) == Latest(done + Writes(entry, filter), k)
  {
    var (key, target) := entry;
    next := filtered;
    if ExactMatch(key, filter) {
      next := Put(filtered, "." + key[|filter|..], target);
      PutLatest(filtered, done, "." + key[|filter|..], target);
    } else if EndsWith(key, "*") {
      var patternBase := key[..|key| - 1];
      if StartsWith(filter, patternBase) {
        var replacement := filter[|patternBase|..];
        var dot := ReplaceTargets(target, replacement);
        var star := ReplaceTargets(target, replacement + "/*");
        var middle := Put(filtered, ".", dot);
        next := Put(middle, "./*", star);
        PutLatest(filtered, done, ".", dot);
        PutLatest(middle, done + [(".", dot)], "./*", star);
        assert done + Writes(entry, filter) == (done + [(".", dot)]) + [("./*", star)];
      } else {
        assert Writes(entry, filter) == [];
        assert done + Writes(entry, filter) == done;
      }
    } else {
      assert Writes(entry, filter) == [];
      assert done + Writes(entry, filter) == done;
    }
  }

  /** One assignment to the filtered map is one more entry of its history. */
  lemma PutLatest(d: Dict<ExportsTarget>, done: Dict<ExportsTarget>, key: string, value: ExportsTarget)
    requires forall k :: Get(d, k) == Latest(done, k)
    ensures forall k :: Get(Put(d, key, value), k) == Latest(done + [(key, value)], k)
  {
    forall k ensures Get(Put(d, key, value), k) == Latest(done + [(key, value)], k) {
      GetPut(d, key, value, k);
      LatestAppend(done, key, value, k);
    }
  }

  /**
   * Without `*` patterns, filtering re-roots the map at the filter: the
   * subpath "." + rest (rest empty or starting with '/') receives exactly
   * what the key filter + rest held.
   */
  lemma {:induction false} FilterReroots(exports: Dict<ExportsTarget>, filter: string, rest: string)
    requires forall i :: 0 <= i < |exports| ==> !EndsWith(exports[i].0, "*")
    requires rest == "" || rest[0] == '/'
    ensures Latest(AllWrites(exports, filter), "." + rest) == Latest(exports, filter + rest)
  {
    if |exports| > 0 {
      var init := exports[..|exports| - 1];
      var (key, target) := exports[|exports| - 1];
      FilterReroots(init, filter, rest);
      var done := AllWrites(init, filter);
      assert exports == init + [(key, target)];
      if ExactMatch(key, filter) {
        assert key == filter + key[|filter|..];
        LatestAppend(done, "." + key[|filter|..], target, "." + rest);
        assert ("." + key[|filter|..])[1..] == key[|filter|..];
        assert ("." + rest)[1..] == rest;
      } else {
        assert Writes((key, target), filter) == [];
        assert AllWrites(exports, filter) == done;
      }
    }
  }
}
