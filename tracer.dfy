/**
 * The `TraceMap` of src/tracemap/tracemap.ts: it traces a module graph
 * from entry specifiers, inserting each module's entry before analysing
 * it so that cycles end, resolves bare specifiers through the layered
 * lookup of `TraceResolve`, drives the installer, re-traces every entry
 * point until a full pass installs nothing new, and walks the traced graph
 * in post-order.
 *
 * `ImportMap.addMapping` (src/tracemap/map.ts) is not part of this model:
 * the mappings the tracer adds are kept, in order, as a log.
 */
module Tracer {
  import opened Wrappers
  import opened Strings
  import opened Package
  import opened Manifest
  import opened Lock
  import opened Analysis
  import opened TraceResolve
  import I = Installer

  /** The `TraceMapOptions` the modelled code reads. */
  datatype TraceOptions = TraceOptions(install: bool, staticOnly: bool, system: bool, fullMap: bool, fullInstall: bool)

  /**
   * A traced module: its static and dynamic dependencies by specifier,
   * and what analysis reported (`size` is `None` while it is still `NaN`).
   */
  datatype TraceEntry = TraceEntry(
    deps: Dict<string>, dynamicDeps: Dict<seq<string>>, hasStaticParent: bool,
    size: Option<nat>, integrity: string, system: bool)

  /** The entry `traceUrl` inserts before analysing a module. */
  const Placeholder := TraceEntry([], [], true, None, "", false)

  /** An `addMapping(specifier, target, scope)` call on the import map. */
  datatype Mapping = Mapping(specifier: string, target: string, scope: Option<string>)

  /** Every dependency recorded in the graph points at a traced module. */
  ghost predicate Closed(traced: map<string, TraceEntry>)
  {
    forall u :: u in traced ==>
      && (forall i :: 0 <= i < |traced[u].deps| ==> traced[u].deps[i].1 in traced)
      && (forall i, j :: 0 <= i < |traced[u].dynamicDeps| && 0 <= j < |traced[u].dynamicDeps[i].1| ==>
            traced[u].dynamicDeps[i].1[j] in traced)
  }

  /** The graph grew: no module was dropped and no finished entry changed. */
  ghost predicate Grew(before: map<string, TraceEntry>, after: map<string, TraceEntry>)
  {
    forall u :: u in before ==> u in after && after[u] == before[u]
  }

  /** `deps` followed by the dynamic dependencies not already listed, in order and without repeats. */
  function MergeDeps(deps: seq<string>, dynamicDeps: seq<string>): (r: seq<string>)
    ensures forall x :: x in r <==> x in deps || x in dynamicDeps
    ensures |r| >= |deps| && r[..|deps|] == deps
    ensures forall i, j :: |deps| <= i < j < |r| ==> r[i] != r[j]
    ensures forall i :: |deps| <= i < |r| ==> r[i] !in deps
    decreases |dynamicDeps|
  {
    if |dynamicDeps| == 0 then deps
    else
      var last := dynamicDeps[|dynamicDeps| - 1];
      var init := MergeDeps(deps, dynamicDeps[..|dynamicDeps| - 1]);
      if last in init then init else init + [last]
  }

  /** The dependencies `traceUrl` traces: the dynamic ones join only outside static mode. */
  function AllDeps(a: ModuleAnalysis, staticOnly: bool): (r: seq<string>)
    ensures forall x :: x in r <==> x in a.deps || (!staticOnly && x in a.dynamicDeps)
  {
    if |a.dynamicDeps| > 0 && !staticOnly then MergeDeps(a.deps, a.dynamicDeps) else a.deps
  }

  /**
   * A finished entry records what analysis reported; its static
   * dependencies are exactly the analysis's, and its dynamic ones those
   * the analysis lists as dynamic and that were traced.
   */
  ghost predicate Recorded(e: TraceEntry, a: ModuleAnalysis, staticOnly: bool)
  {
    && e.size == Some(a.size) && e.integrity == a.integrity && e.system == a.system && e.hasStaticParent
    && (forall d :: Get(e.deps, d).Some? <==> d in a.deps)
    && (forall d :: Get(e.dynamicDeps, d).Some? <==> d in a.dynamicDeps && (d in a.deps || !staticOnly))
  }

  /** An entry part way through `traceUrl`'s loop: it records the first `i` dependencies to trace. */
  ghost predicate RecordedUpTo(e: TraceEntry, a: ModuleAnalysis, allDeps: seq<string>, i: int)
    requires 0 <= i <= |allDeps|
  {
    && e.size == Some(a.size) && e.integrity == a.integrity && e.system == a.system && e.hasStaticParent
    && (forall d :: Get(e.deps, d).Some? <==> d in allDeps[..i] && d in a.deps)
    && (forall d :: Get(e.dynamicDeps, d).Some? <==> d in allDeps[..i] && d in a.dynamicDeps)
  }

  /** Recording dependency `i` extends the recorded prefix by one. */
  /**
   * `next` is `e` with `dep` recorded where the analysis lists it: the same
   * facts, and the same keys plus `dep`.
   */
  ghost predicate OneMore(e: TraceEntry, next: TraceEntry, dep: string, a: ModuleAnalysis)
  {
    && next.size == e.size && next.integrity == e.integrity && next.system == e.system
    && next.hasStaticParent == e.hasStaticParent
    && (forall d :: Get(next.deps, d).Some? <==> Get(e.deps, d).Some? || (d == dep && dep in a.deps))
    && (forall d :: Get(next.dynamicDeps, d).Some? <==> Get(e.dynamicDeps, d).Some? || (d == dep && dep in a.dynamicDeps))
  }

  lemma RecordedStep(e: TraceEntry, next: TraceEntry, a: ModuleAnalysis, allDeps: seq<string>, i: int)
    requires 0 <= i < |allDeps| && RecordedUpTo(e, a, allDeps, i)
    requires OneMore(e, next, allDeps[i], a)
    ensures RecordedUpTo(next, a, allDeps, i + 1)
  {
    assert allDeps[..i + 1] == allDeps[..i] + [allDeps[i]];
  }

  /** Once every dependency to trace is recorded, the entry records the analysis. */
  lemma RecordedAll(e: TraceEntry, a: ModuleAnalysis, staticOnly: bool)
    requires RecordedUpTo(e, a, AllDeps(a, staticOnly), |AllDeps(a, staticOnly)|)
    ensures Recorded(e, a, staticOnly)
  {
    var allDeps := AllDeps(a, staticOnly);
    assert allDeps[..|allDeps|] == allDeps;
  }

  /** A dictionary binds exactly the listed keys. */
  lemma PutKeys<V>(d: Dict<V>, key: string, value: V)
    ensures forall k :: Get(Put(d, key, value), k).Some? <==> Get(d, k).Some? || k == key
  {
    forall k ensures Get(Put(d, key, value), k).Some? <==> Get(d, k).Some? || k == key {
      GetPut(d, key, value, k);
    }
  }

  /** A value put into a dictionary whose values all satisfy a property keeps it so. */
  lemma PutTraced(d: Dict<string>, key: string, value: string, traced: set<string>)
    requires forall i :: 0 <= i < |d| ==> d[i].1 in traced
    requires value in traced
    ensures forall i :: 0 <= i < |Put(d, key, value)| ==> Put(d, key, value)[i].1 in traced
  {
  }

  /** The same for the one-element lists of dynamic dependencies. */
  lemma PutTracedList(d: Dict<seq<string>>, key: string, value: string, traced: set<string>)
    requires forall i, j :: 0 <= i < |d| && 0 <= j < |d[i].1| ==> d[i].1[j] in traced
    requires value in traced
    ensures forall i, j :: 0 <= i < |Put(d, key, [value])| && 0 <= j < |Put(d, key, [value])[i].1| ==> Put(d, key, [value])[i].1[j] in traced
  {
  }

  /** The entry after the dependency `dep`, resolved to `url`, is recorded where the analysis lists it. */
  function WithDep(e: TraceEntry, dep: string, url: string, a: ModuleAnalysis): (r: TraceEntry)
    ensures r.size == e.size && r.integrity == e.integrity && r.system == e.system && r.hasStaticParent == e.hasStaticParent
    ensures forall d :: Get(r.deps, d).Some? <==> Get(e.deps, d).Some? || (d == dep && dep in a.deps)
    ensures forall d :: Get(r.dynamicDeps, d).Some? <==> Get(e.dynamicDeps, d).Some? || (d == dep && dep in a.dynamicDeps)
  {
    PutKeys(e.deps, dep, url);
    PutKeys(e.dynamicDeps, dep, [url]);
    var withStatic := if dep in a.deps then e.(deps := Put(e.deps, dep, url)) else e;
    if dep in a.dynamicDeps then withStatic.(dynamicDeps := Put(withStatic.dynamicDeps, dep, [url])) else withStatic
  }

  /** Recording a dependency on a traced module keeps the graph closed. */
  lemma WithDepClosed(traced: map<string, TraceEntry>, u: string, dep: string, url: string, a: ModuleAnalysis)
    requires Closed(traced) && u in traced && url in traced
    ensures Closed(traced[u := WithDep(traced[u], dep, url, a)])
  {
    var e := traced[u];
    PutTraced(e.deps, dep, url, traced.Keys);
    PutTracedList(e.dynamicDeps, dep, url, traced.Keys);
  }

  /** What a prefix holds, the whole sequence holds. */
  lemma InPrefix<T>(a: seq<T>, b: seq<T>, x: T)
    requires a <= b && x in a
    ensures x in b
  {
    var i :| 0 <= i < |a| && a[i] == x;
    assert b[i] == x;
  }

  /** Every module of the pass is a traced URL reached from a recorded entry specifier. */
  ghost predicate ModulesTraced(modules: Dict<string>, urls: set<string>, traces: seq<(string, string)>)
  {
    forall i :: 0 <= i < |modules| ==> modules[i].0 in urls && modules[i].1 in Specifiers(traces)
  }

  /** Growth from a map without `u` is growth from the map itself when it never held `u`. */
  lemma GrewWithout(before: map<string, TraceEntry>, after: map<string, TraceEntry>, u: string)
    requires u !in before && Grew(before - {u}, after)
    ensures Grew(before, after)
  {
    forall v | v in before ensures v in after && after[v] == before[v] {
      assert v in before - {u};
    }
  }

  /** A list whose members are in a prefix has them in the whole. */
  lemma PrefixKeeps<T>(a: seq<T>, b: seq<T>, xs: seq<T>)
    requires a <= b && forall x :: x in xs ==> x in a
    ensures forall x :: x in xs ==> x in b
  {
    forall x | x in xs ensures x in b {
      InPrefix(a, b, x);
    }
  }

  /** Recording a traced module keeps the pass's modules traced as tracing grows. */
  lemma PutTracedModule(modules: Dict<string>, urls0: set<string>, urls1: set<string>,
                        traces0: seq<(string, string)>, traces1: seq<(string, string)>, url: string, specifier: string)
    requires urls0 <= urls1 && traces0 <= traces1 && url in urls1 && specifier in Specifiers(traces1)
    requires ModulesTraced(modules, urls0, traces0)
    ensures ModulesTraced(Put(modules, url, specifier), urls1, traces1)
  {
    var r := Put(modules, url, specifier);
    forall i | 0 <= i < |r| ensures r[i].0 in urls1 && r[i].1 in Specifiers(traces1) {
      if i < |modules| && modules[i].0 != url {
        assert r[i] == modules[i];
        var t :| t in traces0 && t.0 == modules[i].1;
        InPrefix(traces0, traces1, t);
      }
    }
  }

  /** `addMapping(dep, target, scope)` for each plain specifier of a dependency record, in order. */
  function PlainMappings(deps: Dict<string>, isPlain: string -> bool, scope: Option<string>): (r: seq<Mapping>)
    ensures forall m :: m in r <==>
      exists i :: 0 <= i < |deps| && isPlain(deps[i].0) && m == Mapping(deps[i].0, deps[i].1, scope)
  {
    if |deps| == 0 then []
    else
      var rest := PlainMappings(deps[1..], isPlain, scope);
      assert forall m :: m in rest <==>
        exists i :: 1 <= i < |deps| && isPlain(deps[i].0) && m == Mapping(deps[i].0, deps[i].1, scope) by {
        forall m | m in rest ensures exists i :: 1 <= i < |deps| && isPlain(deps[i].0) && m == Mapping(deps[i].0, deps[i].1, scope) {
          var i :| 0 <= i < |deps[1..]| && isPlain(deps[1..][i].0) && m == Mapping(deps[1..][i].0, deps[1..][i].1, scope);
          assert deps[i + 1] == deps[1..][i];
        }
        forall m | exists i :: 1 <= i < |deps| && isPlain(deps[i].0) && m == Mapping(deps[i].0, deps[i].1, scope) ensures m in rest {
          var i :| 1 <= i < |deps| && isPlain(deps[i].0) && m == Mapping(deps[i].0, deps[i].1, scope);
          assert deps[1..][i - 1] == deps[i];
        }
      }
      (if isPlain(deps[0].0) then [Mapping(deps[0].0, deps[0].1, scope)] else []) + rest
  }

  /** Each dynamic dependency with its first resolved URL (`dynamicDeps[dep][0]`); an empty list yields nothing. */
  function FirstTargets(d: Dict<seq<string>>): (r: Dict<string>)
    ensures forall p :: p in r <==> exists i :: 0 <= i < |d| && |d[i].1| > 0 && p == (d[i].0, d[i].1[0])
  {
    if |d| == 0 then []
    else
      var rest := FirstTargets(d[1..]);
      assert forall p :: p in rest <==> exists i :: 1 <= i < |d| && |d[i].1| > 0 && p == (d[i].0, d[i].1[0]) by {
        forall p | p in rest ensures exists i :: 1 <= i < |d| && |d[i].1| > 0 && p == (d[i].0, d[i].1[0]) {
          var i :| 0 <= i < |d[1..]| && |d[1..][i].1| > 0 && p == (d[1..][i].0, d[1..][i].1[0]);
          assert d[i + 1] == d[1..][i];
        }
        forall p | exists i :: 1 <= i < |d| && |d[i].1| > 0 && p == (d[i].0, d[i].1[0]) ensures p in rest {
          var i :| 1 <= i < |d| && |d[i].1| > 0 && p == (d[i].0, d[i].1[0]);
          assert d[1..][i - 1] == d[i];
        }
      }
      (if |d[0].1| > 0 then [(d[0].0, d[0].1[0])] else []) + rest
  }

  /** No element occurs twice. */
  predicate Distinct<T(==)>(s: seq<T>)
  {
    forall i, j :: 0 <= i < j < |s| ==> s[i] != s[j]
  }

  /** `set.add(x)` for each `x` in turn, on a set kept in insertion order. */
  function AddNew(s: seq<string>, xs: seq<string>): (r: seq<string>)
    ensures s <= r
    ensures forall x :: x in r <==> x in s || x in xs
    ensures Distinct(s) ==> Distinct(r)
    decreases |xs|
  {
    if |xs| == 0 then s
    else
      var next := if xs[0] in s then s else s + [xs[0]];
      var r := AddNew(next, xs[1..]);
      assert forall x :: x in xs <==> x == xs[0] || x in xs[1..];
      r
  }

  /** A sequence without repeats drawn from a set is no longer than the set. */
  lemma {:induction false} DistinctLength<T>(s: seq<T>, bound: set<T>)
    requires Distinct(s) && forall x :: x in s ==> x in bound
    ensures |s| <= |bound|
  {
    if |s| > 0 {
      var last := s[|s| - 1];
      var init := s[..|s| - 1];
      forall x | x in init ensures x in bound - {last} {
        var i :| 0 <= i < |init| && init[i] == x;
        assert s[i] == x;
      }
      DistinctLength(init, bound - {last});
    }
  }

  /** The specifiers of a list of entry traces. */
  ghost function Specifiers(traces: seq<(string, string)>): set<string>
  {
    set t | t in traces :: t.0
  }

  /**
   * The mappings `addAllPkgMappings` adds for the exports of a package
   * (in order), and the error that stopped it, if any: subpaths ending in
   * "!cjs" or '*' and empty targets are skipped; every other subpath
   * `.x` maps `name` + `x` to its target resolved against the package URL.
   */
  function PkgMappings(ops: TraceOps, name: string, exports: Dict<string>, url: string, scope: Option<string>)
    : (r: (seq<Mapping>, Option<Error>))
  {
    if |exports| == 0 then ([], None)
    else
      var (key, target) := exports[0];
      if EndsWith(key, "!cjs") || target == "" || EndsWith(key, "*") then
        PkgMappings(ops, name, exports[1..], url, scope)
      else
        match Href(ops, target, url)
        case Err(e) => ([], Some(e))
        case Ok(href) =>
          var rest := PkgMappings(ops, name, exports[1..], url, scope);
          ([Mapping(name + SliceFrom(key, 1), href, scope)] + rest.0, rest.1)
  }

  /** `PkgMappings` as the loop builds it: the mappings appended to `acc`, stopping at the first failing target. */
  ghost function PkgMappingsOnto(ops: TraceOps, name: string, exports: Dict<string>, url: string, scope: Option<string>,
                                 acc: seq<Mapping>): (seq<Mapping>, Option<Error>)
  {
    if |exports| == 0 then (acc, None)
    else
      var (key, target) := exports[0];
      if EndsWith(key, "!cjs") || target == "" || EndsWith(key, "*") then
        PkgMappingsOnto(ops, name, exports[1..], url, scope, acc)
      else
        match Href(ops, target, url)
        case Err(e) => (acc, Some(e))
        case Ok(href) => PkgMappingsOnto(ops, name, exports[1..], url, scope, acc + [Mapping(name + SliceFrom(key, 1), href, scope)])
  }

  lemma {:induction false} PkgMappingsOntoIs(ops: TraceOps, name: string, exports: Dict<string>, url: string, scope: Option<string>,
                                             acc: seq<Mapping>)
    ensures PkgMappingsOnto(ops, name, exports, url, scope, acc) ==
      (acc + PkgMappings(ops, name, exports, url, scope).0, PkgMappings(ops, name, exports, url, scope).1)
  {
    if |exports| == 0 {
      assert acc + [] == acc;
    } else {
      var (key, target) := exports[0];
      if EndsWith(key, "!cjs") || target == "" || EndsWith(key, "*") {
        PkgMappingsOntoIs(ops, name, exports[1..], url, scope, acc);
      } else if Href(ops, target, url).Err? {
        assert acc + [] == acc;
      } else {
        var m := Mapping(name + SliceFrom(key, 1), Href(ops, target, url).value, scope);
        PkgMappingsOntoIs(ops, name, exports[1..], url, scope, acc + [m]);
        Associate(acc, [m], PkgMappings(ops, name, exports[1..], url, scope).0);
      }
    }
  }

  /**
   * What `addAllPkgMappings` adds for the package installed at `pkgUrl`:
   * the exports of the URL before any '|' (with a trailing '/'), narrowed
   * by the subpath filter after it, mapped as `PkgMappings` says.
   */
  function PackageMappings(ops: TraceOps, name: string, pkgUrl: string, scope: Option<string>): (r: (seq<Mapping>, Option<Error>))
  {
    var exports := ops.exports(InstallBase(pkgUrl), InstallFilter(pkgUrl));
    if exports.Err? then ([], Some(exports.error))
    else PkgMappings(ops, name, exports.value, Split(pkgUrl, '|')[0], scope)
  }

  /** The package URL of an install, before any '|', ending in '/'. */
  function InstallBase(pkgUrl: string): (r: string)
    ensures EndsWith(r, "/") && StartsWith(r, Split(pkgUrl, '|')[0])
  {
    var url := Split(pkgUrl, '|')[0];
    if EndsWith(url, "/") then url else url + "/"
  }

  /** The subpath filter of an install, after its '|', if any. */
  function InstallFilter(pkgUrl: string): (r: Option<string>)
    ensures '|' !in pkgUrl ==> r == None
  {
    var pieces := Split(pkgUrl, '|');
    if |pieces| > 1 then Some(pieces[1]) else None
  }

  /** A subpath `addAllPkgMappings` maps. */
  predicate Mapped(key: string, target: string)
  {
    !EndsWith(key, "!cjs") && target != "" && !EndsWith(key, "*")
  }

  /** Every mapping added comes from a mapped subpath, with its resolved target and the given scope. */
  lemma {:induction false} PkgMappingsSound(ops: TraceOps, name: string, exports: Dict<string>, url: string, scope: Option<string>, m: Mapping)
    requires m in PkgMappings(ops, name, exports, url, scope).0
    ensures exists i :: (0 <= i < |exports| && Mapped(exports[i].0, exports[i].1) && Href(ops, exports[i].1, url).Ok? &&
                         m == Mapping(name + SliceFrom(exports[i].0, 1), Href(ops, exports[i].1, url).value, scope))
  {
    var (key, target) := exports[0];
    if !Mapped(key, target) || m != Mapping(name + SliceFrom(key, 1), Href(ops, target, url).value, scope) {
      PkgMappingsSound(ops, name, exports[1..], url, scope, m);
      var i :| 0 <= i < |exports[1..]| && Mapped(exports[1..][i].0, exports[1..][i].1) && Href(ops, exports[1..][i].1, url).Ok? &&
        m == Mapping(name + SliceFrom(exports[1..][i].0, 1), Href(ops, exports[1..][i].1, url).value, scope);
      assert exports[i + 1] == exports[1..][i];
    }
  }

  /** Without an error, every mapped subpath is added. */
  lemma {:induction false} PkgMappingsComplete(ops: TraceOps, name: string, exports: Dict<string>, url: string, scope: Option<string>, i: nat)
    requires i < |exports| && Mapped(exports[i].0, exports[i].1)
    requires PkgMappings(ops, name, exports, url, scope).1.None?
    ensures Href(ops, exports[i].1, url).Ok?
    ensures Mapping(name + SliceFrom(exports[i].0, 1), Href(ops, exports[i].1, url).value, scope) in PkgMappings(ops, name, exports, url, scope).0
  {
    if i > 0 {
      assert exports[1..][i - 1] == exports[i];
      PkgMappingsComplete(ops, name, exports[1..], url, scope, i - 1);
    }
  }

  /** An error is reported exactly when some mapped subpath's target does not resolve. */
  lemma {:induction false} PkgMappingsError(ops: TraceOps, name: string, exports: Dict<string>, url: string, scope: Option<string>)
    ensures PkgMappings(ops, name, exports, url, scope).1.Some? <==>
      exists i :: 0 <= i < |exports| && Mapped(exports[i].0, exports[i].1) && Href(ops, exports[i].1, url).Err?
  {
    if |exports| > 0 {
      PkgMappingsError(ops, name, exports[1..], url, scope);
      if exists i :: 1 <= i < |exports| && Mapped(exports[i].0, exports[i].1) && Href(ops, exports[i].1, url).Err? {
        var i :| 1 <= i < |exports| && Mapped(exports[i].0, exports[i].1) && Href(ops, exports[i].1, url).Err?;
        assert exports[1..][i - 1] == exports[i];
      }
      if exists i :: 0 <= i < |exports[1..]| && Mapped(exports[1..][i].0, exports[1..][i].1) && Href(ops, exports[1..][i].1, url).Err? {
        var i :| 0 <= i < |exports[1..]| && Mapped(exports[1..][i].0, exports[1..][i].1) && Href(ops, exports[1..][i].1, url).Err?;
        assert exports[i + 1] == exports[1..][i];
      }
    }
  }

  /**
   * The result of the finish callback as written, `finishInstall(true) ||
   * pjsonChanged`: `finishInstall` is async, so its promise is truthy and
   * `||` yields it; the callback resolves to what the installer reported.
   */
  function ReportedAsWritten(finished: bool, pjsonChanged: bool): bool
  {
    finished
  }

  /** The evidently intended result: a changed package.json is reported too. */
  function Reported(finished: bool, pjsonChanged: bool): (r: bool)
    ensures pjsonChanged ==> r
    ensures finished ==> r
    ensures !finished && !pjsonChanged ==> !r
  {
    finished || pjsonChanged
  }

  /** When the tracer changed package.json and the installer reported no change, the change goes unreported. */
  lemma PjsonChangeUnreported()
    ensures !ReportedAsWritten(false, true) && Reported(false, true)
  {
  }

  /**
   * `lockInstall` has no `return`, so what the full-map branch gets back
   * from it is `undefined`.
   */
  function LockInstallReturn(): Option<seq<(string, string)>>
  {
    None
  }

  /** `installs.map(...)` on what `lockInstall` gave back: on `undefined` it throws a TypeError. */
  function MapInstalls(installs: Option<seq<(string, string)>>): (r: Result<seq<(string, string)>>)
    ensures r.Err? <==> installs.None?
  {
    if installs.None? then Err(PlainError("Cannot read properties of undefined (reading 'map')")) else Ok(installs.value)
  }

  /** As written, a full install that builds a full map always fails at that call. */
  lemma FullMapInstallFails()
    ensures MapInstalls(LockInstallReturn()).Err?
  {
  }

  /** The `package.json` field a tracer install saves to, if any. */
  predicate SavesField(opts: I.InstallOptions)
  {
    opts.save || opts.saveDev || opts.savePeer || opts.saveOptional
  }

  class TraceMap {
    const opts: TraceOptions
    const mapBase: string
    /** The import map tracing reads. */
    const importMap: MapView
    const ops: TraceOps
    /** `resolver.analyze(url, parentUrl, system)`; an error is what it throws. */
    const analyze: (string, bool) -> Result<ModuleAnalysis>
    const installer: I.Installer
    var tracedUrls: map<string, TraceEntry>
    /** The (specifier, parent URL) pairs traced so far, in the order first traced. */
    var entryTraces: seq<(string, string)>
    var added: Dict<InstallTarget>
    /** The `addMapping` calls made, in order. */
    var mappings: seq<Mapping>

    /** A tracer over an empty graph. */
    constructor (opts: TraceOptions, mapBase: string, importMap: MapView, ops: TraceOps,
                 analyze: (string, bool) -> Result<ModuleAnalysis>, installer: I.Installer)
      ensures this.opts == opts && this.mapBase == mapBase && this.importMap == importMap && this.ops == ops
      ensures this.analyze == analyze && this.installer == installer
      ensures tracedUrls == map[] && entryTraces == [] && added == [] && mappings == []
      ensures Closed(tracedUrls)
    {
      this.opts := opts;
      this.mapBase := mapBase;
      this.importMap := importMap;
      this.ops := ops;
      this.analyze := analyze;
      this.installer := installer;
      tracedUrls := map[];
      entryTraces := [];
      added := [];
      mappings := [];
    }

    /**
     * The lookup part of `trace`: the layered resolution, asking the
     * installer (installing when allowed, otherwise reading its lock) only
     * when neither scope layer binds the specifier. `installed` is what the
     * installer answered.
     */
    method ResolveSpecifier(specifier: string, parentUrl: string, parentPkgUrl: string, env: I.InstallEnv)
      returns (r: Result<string>, installed: Result<Option<string>>)
      modifies installer
      ensures r == Resolved(ops, importMap, specifier, parentUrl, parentPkgUrl, installed)
      ensures !opts.install ==> installer.installs == old(installer.installs) && installer.newInstalls == old(installer.newInstalls)
      ensures !opts.install && ops.urls.isPlain(specifier) && ParsePkg(specifier).Some? ==>
        installed == Ok(Resolution(old(installer.installs), ParsePkg(specifier).value.pkgName, parentPkgUrl))
      ensures ops.urls.isPlain(specifier) && ParsePkg(specifier).Some? && installed.Ok? && installed.value.Some? ==>
        Resolution(installer.installs, ParsePkg(specifier).value.pkgName, parentPkgUrl) == installed.value
      ensures installer.installing == old(installer.installing)
      ensures mappings == old(mappings) && added == old(added)
    {
      installed := Ok(None);
      if !ops.urls.isPlain(specifier) {
        return NonPlain(ops, specifier, parentUrl), installed;
      }
      var parsed := ParsePkg(specifier);
      if parsed.None? {
        return Err(JspmError("Invalid package name " + specifier, "")), installed;
      }
      if !opts.install {
        installed := Ok(Resolution(installer.installs, parsed.value.pkgName, parentPkgUrl));
      }
      var scoped := ScopeLayers(ops, importMap, specifier, parentUrl, parentPkgUrl);
      if scoped.Some? {
        return scoped.value, installed;
      }
      if opts.install {
        var url := installer.Install(parsed.value.pkgName, parentPkgUrl, parentUrl, env);
        installed := if url.Ok? then Ok(Some(url.value)) else Err(url.error);
      }
      r := AfterScopes(ops, importMap, specifier, parsed.value.subpath, installed);
    }

    /**
     * `trace(specifier, parentUrl)`: records the entry trace, resolves the
     * specifier and traces the module it resolves to. The graph only
     * grows, stays closed, and holds the result.
     */
    method Trace(specifier: string, parentUrl: string, fuel: nat, env: I.InstallEnv) returns (r: Result<string>)
      requires Closed(tracedUrls)
      modifies this, installer
      decreases fuel, 4
      ensures Closed(tracedUrls) && Grew(old(tracedUrls), tracedUrls)
      ensures old(entryTraces) <= entryTraces
      ensures r.Ok? ==> r.value in tracedUrls
      ensures ops.packageBase(parentUrl).None? || ops.packageBase(parentUrl).value == "" ==>
        r == Err(InternalError) && tracedUrls == old(tracedUrls) && entryTraces == old(entryTraces)
      ensures ops.packageBase(parentUrl).Some? && ops.packageBase(parentUrl).value != "" ==>
        (specifier, parentUrl) in entryTraces
      ensures r.Ok? ==> exists installed :: Resolved(ops, importMap, specifier, parentUrl, ops.packageBase(parentUrl).value, installed) == r
      ensures installer.installing == old(installer.installing)
      ensures mappings == old(mappings) && added == old(added)
    {
      var parentPkgUrl := ops.packageBase(parentUrl);
      if parentPkgUrl.None? || parentPkgUrl.value == "" {
        return Err(InternalError);
      }
      if (specifier, parentUrl) !in entryTraces {
        entryTraces := entryTraces + [(specifier, parentUrl)];
      }
      var resolved, installed := ResolveSpecifier(specifier, parentUrl, parentPkgUrl.value, env);
      if resolved.Err? {
        return resolved;
      }
      ghost var before := entryTraces;
      var traced := TraceUrl(resolved.value, parentUrl, fuel, env);
      InPrefix(before, entryTraces, (specifier, parentUrl));
      if traced.Err? {
        return Err(traced.error);
      }
      return resolved;
    }

    /**
     * `traceUrl(resolvedUrl, parentUrl)`: nothing to do for a traced
     * module; a URL ending in '/' is refused; otherwise the module is
     * entered into the graph, analysed, and each of its dependencies
     * traced, recording static and dynamic ones separately.
     */
    method TraceUrl(resolvedUrl: string, parentUrl: string, fuel: nat, env: I.InstallEnv) returns (r: Result<()>)
      requires Closed(tracedUrls)
      modifies this, installer
      decreases fuel, 3
      ensures Closed(tracedUrls) && Grew(old(tracedUrls), tracedUrls)
      ensures old(entryTraces) <= entryTraces
      ensures resolvedUrl in old(tracedUrls) ==> r == Ok(()) && tracedUrls == old(tracedUrls)
      ensures resolvedUrl !in old(tracedUrls) && EndsWith(resolvedUrl, "/") ==>
        r.Err? && r.error.JspmError? && tracedUrls == old(tracedUrls)
      ensures resolvedUrl !in old(tracedUrls) && !EndsWith(resolvedUrl, "/") ==> resolvedUrl in tracedUrls
      ensures r.Ok? ==> resolvedUrl in tracedUrls
      ensures r.Ok? && resolvedUrl !in old(tracedUrls) ==>
        analyze(resolvedUrl, opts.system).Ok? && Recorded(tracedUrls[resolvedUrl], analyze(resolvedUrl, opts.system).value, opts.staticOnly)
      ensures r.Ok? && resolvedUrl !in old(tracedUrls) ==> TargetsResolved(tracedUrls[resolvedUrl], resolvedUrl)
      ensures installer.installing == old(installer.installing)
      ensures mappings == old(mappings) && added == old(added)
    {
      if resolvedUrl in tracedUrls {
        return Ok(());
      }
      if EndsWith(resolvedUrl, "/") {
        return Err(JspmError("Trailing \"/\" installs not yet supported installing " + resolvedUrl + " for " + parentUrl, ""));
      }
      r := TraceNew(resolvedUrl, fuel, env);
    }

    /**
     * The rest of `traceUrl` for a new module: it is entered into the
     * graph, analysed, and its dependencies traced.
     */
    method TraceNew(resolvedUrl: string, fuel: nat, env: I.InstallEnv) returns (r: Result<()>)
      requires Closed(tracedUrls) && resolvedUrl !in tracedUrls
      modifies this, installer
      decreases fuel, 2
      ensures Closed(tracedUrls) && Grew(old(tracedUrls), tracedUrls)
      ensures old(entryTraces) <= entryTraces
      ensures resolvedUrl in tracedUrls
      ensures r.Ok? ==> analyze(resolvedUrl, opts.system).Ok? && Recorded(tracedUrls[resolvedUrl], analyze(resolvedUrl, opts.system).value, opts.staticOnly)
      ensures r.Ok? ==> TargetsResolved(tracedUrls[resolvedUrl], resolvedUrl)
      ensures installer.installing == old(installer.installing)
      ensures mappings == old(mappings) && added == old(added)
    {
      tracedUrls := tracedUrls[resolvedUrl := Placeholder];
      var analysis := analyze(resolvedUrl, opts.system);
      if analysis.Err? {
        return Err(analysis.error);
      }
      var a := analysis.value;
      var entry := Placeholder.(integrity := a.integrity, system := a.system, size := Some(a.size));
      tracedUrls := tracedUrls[resolvedUrl := entry];
      if fuel == 0 {
        return Err(Exhausted);
      }
      var traced := TraceDeps(resolvedUrl, a, fuel, env);
      GrewWithout(old(tracedUrls), tracedUrls, resolvedUrl);
      r := if traced.Ok? then Ok(()) else Err(traced.error);
    }

    /**
     * The loop of `traceUrl` over every dependency to trace, sequentialised:
     * on success the module's entry records exactly what analysis listed.
     */
    method TraceDeps(resolvedUrl: string, a: ModuleAnalysis, fuel: nat, env: I.InstallEnv) returns (r: Result<()>)
      requires Closed(tracedUrls) && resolvedUrl in tracedUrls && fuel > 0
      requires tracedUrls[resolvedUrl] == Placeholder.(integrity := a.integrity, system := a.system, size := Some(a.size))
      modifies this, installer
      decreases fuel, 1
      ensures Closed(tracedUrls) && Grew(old(tracedUrls) - {resolvedUrl}, tracedUrls)
      ensures resolvedUrl in tracedUrls
      ensures old(entryTraces) <= entryTraces
      ensures installer.installing == old(installer.installing)
      ensures mappings == old(mappings) && added == old(added)
      ensures r.Ok? ==> Recorded(tracedUrls[resolvedUrl], a, opts.staticOnly)
      ensures r.Ok? ==> TargetsResolved(tracedUrls[resolvedUrl], resolvedUrl)
    {
      var allDeps := AllDeps(a, opts.staticOnly);
      var entry := tracedUrls[resolvedUrl];
      for i := 0 to |allDeps|
        invariant Closed(tracedUrls) && Grew(old(tracedUrls) - {resolvedUrl}, tracedUrls)
        invariant resolvedUrl in tracedUrls && tracedUrls[resolvedUrl] == entry
        invariant old(entryTraces) <= entryTraces
        invariant installer.installing == old(installer.installing)
        invariant mappings == old(mappings) && added == old(added)
        invariant RecordedUpTo(entry, a, allDeps, i)
        invariant TargetsResolved(entry, resolvedUrl)
      {
        var next := TraceDep(resolvedUrl, entry, allDeps[i], a, fuel, env);
        if next.Err? {
          return Err(next.error);
        }
        RecordedStep(entry, next.value, a, allDeps, i);
        entry := next.value;
      }
      RecordedAll(entry, a, opts.staticOnly);
      return Ok(());
    }

    /** `trace(dep, parentUrl)` can return `url`: it is what resolution gives for some installer answer. */
    ghost predicate ResolvesTo(dep: string, parentUrl: string, url: string)
    {
      && ops.packageBase(parentUrl).Some?
      && exists installed :: Resolved(ops, importMap, dep, parentUrl, ops.packageBase(parentUrl).value, installed) == Ok(url)
    }

    /**
     * Every dependency an entry of `parentUrl` records holds the URL its
     * trace returned: the static one directly, the dynamic one as a
     * one-element list.
     */
    ghost predicate TargetsResolved(e: TraceEntry, parentUrl: string)
    {
      && (forall i :: 0 <= i < |e.deps| ==> ResolvesTo(e.deps[i].0, parentUrl, e.deps[i].1))
      && (forall i :: 0 <= i < |e.dynamicDeps| ==>
            |e.dynamicDeps[i].1| == 1 && ResolvesTo(e.dynamicDeps[i].0, parentUrl, e.dynamicDeps[i].1[0]))
    }

    /** Recording the URL a dependency's trace returned keeps every target resolved. */
    lemma WithDepResolved(e: TraceEntry, parentUrl: string, dep: string, url: string, a: ModuleAnalysis)
      requires TargetsResolved(e, parentUrl) && ResolvesTo(dep, parentUrl, url)
      ensures TargetsResolved(WithDep(e, dep, url, a), parentUrl)
    {
      var withStatic := if dep in a.deps then e.(deps := Put(e.deps, dep, url)) else e;
      assert TargetsResolved(withStatic, parentUrl);
    }

    /**
     * One dependency of `traceUrl`'s loop: trace it from the module, then
     * record the URL it resolved to under `deps` when the analysis lists it
     * as static and under `dynamicDeps` when it lists it as dynamic.
     */
    method TraceDep(resolvedUrl: string, entry: TraceEntry, dep: string, a: ModuleAnalysis, fuel: nat, env: I.InstallEnv)
      returns (r: Result<TraceEntry>)
      requires Closed(tracedUrls) && resolvedUrl in tracedUrls && tracedUrls[resolvedUrl] == entry && fuel > 0
      modifies this, installer
      decreases fuel, 0
      ensures Closed(tracedUrls) && Grew(old(tracedUrls) - {resolvedUrl}, tracedUrls)
      ensures old(entryTraces) <= entryTraces
      ensures installer.installing == old(installer.installing)
      ensures mappings == old(mappings) && added == old(added)
      ensures resolvedUrl in tracedUrls
      ensures r.Ok? ==> tracedUrls[resolvedUrl] == r.value
      ensures r.Ok? ==> OneMore(entry, r.value, dep, a)
      ensures r.Ok? && TargetsResolved(entry, resolvedUrl) ==> TargetsResolved(r.value, resolvedUrl)
    {
      var depUrl := Trace(dep, resolvedUrl, fuel - 1, env);
      if depUrl.Err? {
        return Err(depUrl.error);
      }
      if TargetsResolved(entry, resolvedUrl) {
        WithDepResolved(entry, resolvedUrl, dep, depUrl.value, a);
      }
      var next := RecordDep(resolvedUrl, dep, depUrl.value, a);
      return Ok(next);
    }

    /** The writes into `traceEntry` in `traceUrl`'s loop: the traced URL is recorded in the module's entry. */
    method RecordDep(resolvedUrl: string, dep: string, url: string, a: ModuleAnalysis) returns (next: TraceEntry)
      requires Closed(tracedUrls) && resolvedUrl in tracedUrls && url in tracedUrls
      modifies this`tracedUrls
      ensures next == WithDep(old(tracedUrls)[resolvedUrl], dep, url, a)
      ensures OneMore(old(tracedUrls)[resolvedUrl], next, dep, a)
      ensures Closed(tracedUrls) && tracedUrls == old(tracedUrls)[resolvedUrl := next]
    {
      WithDepClosed(tracedUrls, resolvedUrl, dep, url, a);
      next := WithDep(tracedUrls[resolvedUrl], dep, url, a);
      tracedUrls := tracedUrls[resolvedUrl := next];
    }

    /** The static dependency targets of a traced module; none for an untraced URL. */
    function StaticTargets(u: string): (r: seq<string>)
      reads this
      ensures u in tracedUrls ==> |r| == |tracedUrls[u].deps| && forall k :: 0 <= k < |r| ==> r[k] == tracedUrls[u].deps[k].1
      ensures u !in tracedUrls ==> r == []
    {
      if u in tracedUrls then Values(tracedUrls[u].deps) else []
    }

    /** The first resolved URL of each dynamic dependency of a traced module. */
    function DynamicTargets(u: string): (r: seq<string>)
      reads this
    {
      if u in tracedUrls then Values(FirstTargets(tracedUrls[u].dynamicDeps)) else []
    }

    /**
     * The mappings the visitor of the finishing pass adds for a module:
     * one per plain dynamic, then per plain static dependency specifier,
     * scoped to the module's package base.
     */
    function DepMappings(u: string): (r: seq<Mapping>)
      reads this
    {
      if u in tracedUrls then
        var e := tracedUrls[u];
        PlainMappings(FirstTargets(e.dynamicDeps), ops.urls.isPlain, ops.packageBase(u)) +
        PlainMappings(e.deps, ops.urls.isPlain, ops.packageBase(u))
      else []
    }

    /**
     * `visit(url, visitor, seen)`: the modules the visitor is called on,
     * in order. Each URL is taken at most once per `seen` set; a URL
     * without a trace entry is only marked seen; otherwise every static
     * dependency is visited first and the URL itself comes last.
     */
    method Visit(url: string, seen: set<string>) returns (order: seq<string>, seen': set<string>)
      decreases tracedUrls.Keys - seen
      ensures seen <= seen' && url in seen'
      ensures url in seen ==> order == [] && seen' == seen
      ensures url !in seen && url !in tracedUrls ==> order == [] && seen' == seen + {url}
      ensures url !in seen && url in tracedUrls ==> |order| > 0 && order[|order| - 1] == url
      ensures url !in seen && url in tracedUrls ==>
        forall t :: t in StaticTargets(url) ==> t in seen || t == url || t !in tracedUrls || t in order[..|order| - 1]
      ensures forall x :: x in order ==> x in tracedUrls && x in seen' && x !in seen
      ensures forall i, j :: 0 <= i < j < |order| ==> order[i] != order[j]
      ensures forall x :: x in seen' && x !in seen && x in tracedUrls ==> x in order
      ensures forall x, t :: x in order && t in StaticTargets(x) ==> t in seen'
    {
      if url in seen {
        return [], seen;
      }
      seen' := seen + {url};
      if url !in tracedUrls {
        return [], seen';
      }
      var targets := StaticTargets(url);
      order := [];
      for k := 0 to |targets|
        invariant seen + {url} <= seen'
        invariant forall x :: x in order ==> x in tracedUrls && x in seen' && x !in seen && x != url
        invariant forall i, j :: 0 <= i < j < |order| ==> order[i] != order[j]
        invariant forall x :: x in seen' && x !in seen && x != url && x in tracedUrls ==> x in order
        invariant forall x, t :: x in order && t in StaticTargets(x) ==> t in seen'
        invariant forall t :: t in targets[..k] ==> t in seen'
      {
        assert tracedUrls.Keys - seen' < tracedUrls.Keys - seen by {
          assert url in tracedUrls.Keys - seen && url !in tracedUrls.Keys - seen';
        }
        var sub, next := Visit(targets[k], seen');
        assert forall x :: x in sub ==> x !in order;
        forall i, j | 0 <= i < j < |order + sub| ensures (order + sub)[i] != (order + sub)[j] {
          if j >= |order| && i < |order| {
            assert (order + sub)[j] in sub;
          }
        }
        order := order + sub;
        seen' := next;
        assert targets[..k + 1] == targets[..k] + [targets[k]];
      }
      assert targets[..|targets|] == targets;
      order := order + [url];
    }

    /** Dynamic dependency targets of a closed graph are traced. */
    lemma DynamicTargetsTraced(u: string, t: string)
      requires Closed(tracedUrls) && t in DynamicTargets(u)
      ensures t in tracedUrls
    {
      var d := tracedUrls[u].dynamicDeps;
      var firsts := FirstTargets(d);
      var k :| 0 <= k < |firsts| && firsts[k].1 == t;
      assert firsts[k] in firsts;
      var i :| 0 <= i < |d| && |d[i].1| > 0 && firsts[k] == (d[i].0, d[i].1[0]);
    }

    /**
     * Runs the visitor of the finishing pass on the modules of one visit,
     * in order: their mappings join the log and their dynamic targets the
     * set of discovered dynamic imports.
     */
    method Emit(order: seq<string>, log0: seq<Mapping>, found0: seq<string>) returns (log: seq<Mapping>, found: seq<string>)
      ensures log0 <= log && found0 <= found
      ensures Distinct(found0) ==> Distinct(found)
      ensures forall m :: m in log <==> m in log0 || exists u :: u in order && m in DepMappings(u)
      ensures forall t :: t in found <==> t in found0 || exists u :: u in order && t in DynamicTargets(u)
    {
      log, found := log0, found0;
      for k := 0 to |order|
        invariant log0 <= log && found0 <= found
        invariant Distinct(found0) ==> Distinct(found)
        invariant forall m :: m in log <==> m in log0 || exists u :: u in order[..k] && m in DepMappings(u)
        invariant forall t :: t in found <==> t in found0 || exists u :: u in order[..k] && t in DynamicTargets(u)
      {
        assert order[..k + 1] == order[..k] + [order[k]];
        found := AddNew(found, DynamicTargets(order[k]));
        log := log + DepMappings(order[k]);
      }
      assert order[..|order|] == order;
    }

    /** Static dependency targets of a closed graph are traced. */
    lemma StaticTargetsTraced(u: string, t: string)
      requires Closed(tracedUrls) && t in StaticTargets(u)
      ensures t in tracedUrls
    {
      var k :| 0 <= k < |StaticTargets(u)| && StaticTargets(u)[k] == t;
    }

    /** The mappings of every module in `reached` are in `log`. */
    ghost predicate Logged(reached: seq<string>, log: seq<Mapping>)
      reads this
    {
      forall u, m :: u in reached && m in DepMappings(u) ==> m in log
    }

    /** `reached` holds every static dependency of its modules. */
    ghost predicate StaticClosed(reached: seq<string>)
      reads this
    {
      forall u, t :: u in reached && t in StaticTargets(u) ==> t in reached
    }

    /** `found` holds every dynamic dependency of the modules in `reached`. */
    ghost predicate DynamicsFound(reached: seq<string>, found: seq<string>)
      reads this
    {
      forall u, t :: u in reached && t in DynamicTargets(u) ==> t in found
    }

    /** A mapping the finishing pass adds for a traced entry point with a plain specifier. */
    ghost predicate ModuleMapping(m: Mapping, modules: Dict<string>)
    {
      exists k :: 0 <= k < |modules| && ops.urls.isPlain(modules[k].1) && m == Mapping(modules[k].1, modules[k].0, Some(mapBase))
    }

    /**
     * The first half of the finishing pass: for each traced entry point
     * (resolved URL and specifier), a top-level mapping when its specifier
     * is plain, then a fresh visit from it. The modules reached are
     * closed under static dependencies and all logged; their dynamic
     * targets are collected, without repeats.
     */
    method CollectModules(modules: Dict<string>) returns (log: seq<Mapping>, reached: seq<string>, found: seq<string>)
      requires Closed(tracedUrls)
      ensures forall k :: 0 <= k < |modules| && ops.urls.isPlain(modules[k].1) ==>
        Mapping(modules[k].1, modules[k].0, Some(mapBase)) in log
      ensures forall k :: 0 <= k < |modules| && modules[k].0 in tracedUrls ==> modules[k].0 in reached
      ensures Logged(reached, log) && StaticClosed(reached) && DynamicsFound(reached, found)
      ensures forall u :: u in reached ==> u in tracedUrls
      ensures Distinct(found) && forall t :: t in found ==> t in tracedUrls
      ensures forall m :: m in log ==> ModuleMapping(m, modules) || exists u :: u in reached && m in DepMappings(u)
    {
      log, reached, found := [], [], [];
      for i := 0 to |modules|
        invariant ModulesCollected(modules, i, log, reached, found)
      {
        log, reached, found := CollectModule(modules, i, log, reached, found);
      }
    }

    /** The state of the first half of the finishing pass after the first `i` entry points. */
    ghost predicate ModulesCollected(modules: Dict<string>, i: int, log: seq<Mapping>, reached: seq<string>, found: seq<string>)
      requires 0 <= i <= |modules|
      reads this
    {
      TopsLogged(modules, i, log) && EntriesReached(modules, i, reached) && Gathered(log, reached, found)
      && LogExplained(modules, log, reached)
    }

    /** The top-level mapping of each of the first `i` entry points with a plain specifier is logged. */
    ghost predicate TopsLogged(modules: Dict<string>, i: int, log: seq<Mapping>)
      requires 0 <= i <= |modules|
    {
      forall k :: 0 <= k < i && ops.urls.isPlain(modules[k].1) ==> Mapping(modules[k].1, modules[k].0, Some(mapBase)) in log
    }

    /** Each of the first `i` entry points that is traced has been reached. */
    ghost predicate EntriesReached(modules: Dict<string>, i: int, reached: seq<string>)
      requires 0 <= i <= |modules|
      reads this
    {
      forall k :: 0 <= k < i && modules[k].0 in tracedUrls ==> modules[k].0 in reached
    }

    /** Every logged mapping is a top-level mapping or a dependency mapping of a reached module. */
    ghost predicate LogExplained(modules: Dict<string>, log: seq<Mapping>, reached: seq<string>)
      reads this
    {
      forall m :: m in log ==> ModuleMapping(m, modules) || exists u :: u in reached && m in DepMappings(u)
    }

    /** One entry point of the first half: its top-level mapping when plain, then a fresh visit from it. */
    method CollectModule(modules: Dict<string>, i: int, log0: seq<Mapping>, reached0: seq<string>, found0: seq<string>)
      returns (log: seq<Mapping>, reached: seq<string>, found: seq<string>)
      requires Closed(tracedUrls) && 0 <= i < |modules|
      requires ModulesCollected(modules, i, log0, reached0, found0)
      ensures ModulesCollected(modules, i + 1, log, reached, found)
    {
      var (url, specifier) := modules[i];
      var top := log0;
      if ops.urls.isPlain(specifier) {
        top := log0 + [Mapping(specifier, url, Some(mapBase))];
      }
      TopStep(modules, i, log0, top, reached0, found0);
      var seen;
      log, reached, found, seen := VisitFrom(url, {}, top, reached0, found0);
      TopsLoggedStep(modules, i, log0, top, log);
      EntriesReachedStep(modules, i, reached0, reached, seen);
      LogExplainedStep(modules, top, log, reached0, reached);
    }

    /** Logging the top-level mapping of entry point `i` keeps the log explained and gathered. */
    lemma TopStep(modules: Dict<string>, i: int, log0: seq<Mapping>, top: seq<Mapping>, reached0: seq<string>, found0: seq<string>)
      requires 0 <= i < |modules| && Gathered(log0, reached0, found0) && LogExplained(modules, log0, reached0)
      requires top == if ops.urls.isPlain(modules[i].1) then log0 + [Mapping(modules[i].1, modules[i].0, Some(mapBase))] else log0
      ensures Gathered(top, reached0, found0) && LogExplained(modules, top, reached0) && log0 <= top
    {
      if ops.urls.isPlain(modules[i].1) {
        assert ModuleMapping(Mapping(modules[i].1, modules[i].0, Some(mapBase)), modules);
      }
    }

    lemma TopsLoggedStep(modules: Dict<string>, i: int, log0: seq<Mapping>, top: seq<Mapping>, log: seq<Mapping>)
      requires 0 <= i < |modules| && TopsLogged(modules, i, log0)
      requires log0 <= top && top <= log
      requires top == if ops.urls.isPlain(modules[i].1) then log0 + [Mapping(modules[i].1, modules[i].0, Some(mapBase))] else log0
      ensures TopsLogged(modules, i + 1, log)
    {
      forall k | 0 <= k < i + 1 && ops.urls.isPlain(modules[k].1)
        ensures Mapping(modules[k].1, modules[k].0, Some(mapBase)) in log
      {
        var m := Mapping(modules[k].1, modules[k].0, Some(mapBase));
        if k < i {
          assert m in log0;
          InPrefix(log0, log, m);
        } else {
          assert m == top[|top| - 1];
          InPrefix(top, log, m);
        }
      }
    }

    lemma EntriesReachedStep(modules: Dict<string>, i: int, reached0: seq<string>, reached: seq<string>, seen: set<string>)
      requires 0 <= i < |modules| && EntriesReached(modules, i, reached0)
      requires forall u :: u in reached0 ==> u in reached
      requires modules[i].0 in seen && forall x :: x in seen && x in tracedUrls ==> x in reached
      ensures EntriesReached(modules, i + 1, reached)
    {
    }

    lemma LogExplainedStep(modules: Dict<string>, top: seq<Mapping>, log: seq<Mapping>, reached0: seq<string>, reached: seq<string>)
      requires LogExplained(modules, top, reached0)
      requires forall u :: u in reached0 ==> u in reached
      requires forall m :: m in log ==> m in top || exists u :: u in reached && m in DepMappings(u)
      ensures LogExplained(modules, log, reached)
    {
      forall m | m in log
        ensures ModuleMapping(m, modules) || exists u :: u in reached && m in DepMappings(u)
      {
        if m in top && !ModuleMapping(m, modules) {
          var u :| u in reached0 && m in DepMappings(u);
          assert u in reached;
        }
      }
    }

    /** The state of the finishing pass: what is reached is traced, logged and closed, and its dynamic targets found. */
    ghost predicate Gathered(log: seq<Mapping>, reached: seq<string>, found: seq<string>)
      reads this
    {
      && Logged(reached, log) && StaticClosed(reached) && DynamicsFound(reached, found)
      && (forall u :: u in reached ==> u in tracedUrls)
      && Distinct(found) && (forall t :: t in found ==> t in tracedUrls)
    }

    /**
     * `visit(url, depVisitor, seen)`: one visit of the finishing pass,
     * its modules joining `reached`, their mappings the log and their
     * dynamic targets `found`.
     */
    method VisitFrom(url: string, seen: set<string>, log0: seq<Mapping>, reached0: seq<string>, found0: seq<string>)
      returns (log: seq<Mapping>, reached: seq<string>, found: seq<string>, seen': set<string>)
      requires Closed(tracedUrls) && Gathered(log0, reached0, found0)
      requires forall x :: x in seen && x in tracedUrls ==> x in reached0
      ensures Gathered(log, reached, found)
      ensures forall x :: x in seen' && x in tracedUrls ==> x in reached
      ensures url in seen' && seen <= seen'
      ensures log0 <= log && reached0 <= reached && found0 <= found
      ensures forall m :: m in log0 ==> m in log
      ensures forall u :: u in reached0 ==> u in reached
      ensures forall m :: m in log ==> m in log0 || exists u :: u in reached && m in DepMappings(u)
    {
      var sub;
      sub, seen' := Visit(url, seen);
      log, found := Emit(sub, log0, found0);
      forall u, t | u in sub && t in StaticTargets(u) ensures t in reached0 + sub {
        StaticTargetsTraced(u, t);
      }
      forall t | t in found ensures t in tracedUrls {
        if t !in found0 {
          var u :| u in sub && t in DynamicTargets(u);
          DynamicTargetsTraced(u, t);
        }
      }
      reached := reached0 + sub;
    }

    /**
     * The second half of the finishing pass: every discovered dynamic
     * import is visited with one shared `seen` set, and the imports those
     * visits discover are visited in turn (a `Set` iterated while it
     * grows). Afterwards what is reached is closed under static and
     * dynamic dependencies.
     */
    method CollectDynamics(log0: seq<Mapping>, reached0: seq<string>, found0: seq<string>)
      returns (log: seq<Mapping>, reached: seq<string>)
      requires Closed(tracedUrls) && Gathered(log0, reached0, found0)
      ensures Logged(reached, log) && StaticClosed(reached)
      ensures forall u, t :: u in reached && t in DynamicTargets(u) ==> t in reached
      ensures forall u :: u in reached ==> u in tracedUrls
      ensures forall m :: m in log0 ==> m in log
      ensures forall u :: u in reached0 ==> u in reached
      ensures forall m :: m in log ==> m in log0 || exists u :: u in reached && m in DepMappings(u)
    {
      log, reached := log0, reached0;
      var found := found0;
      var seen: set<string> := {};
      var j := 0;
      while j < |found|
        invariant 0 <= j <= |found|
        invariant DynamicsCollected(log0, reached0, j, log, reached, found, seen)
        decreases |tracedUrls.Keys| - j
      {
        DistinctLength(found, tracedUrls.Keys);
        log, reached, found, seen := VisitFound(log0, reached0, j, log, reached, found, seen);
        j := j + 1;
      }
    }

    /** The state of the second half of the finishing pass once the first `j` found imports are visited. */
    ghost predicate DynamicsCollected(log0: seq<Mapping>, reached0: seq<string>, j: int,
                                      log: seq<Mapping>, reached: seq<string>, found: seq<string>, seen: set<string>)
      reads this
    {
      && Gathered(log, reached, found)
      && (forall k :: 0 <= k < j && k < |found| ==> found[k] in seen)
      && (forall x :: x in seen && x in tracedUrls ==> x in reached)
      && (forall m :: m in log0 ==> m in log)
      && (forall u :: u in reached0 ==> u in reached)
      && (forall m :: m in log ==> m in log0 || exists u :: u in reached && m in DepMappings(u))
    }

    /** The visit of the `j`-th found import, with the shared `seen` set. */
    method VisitFound(log0: seq<Mapping>, reached0: seq<string>, j: int,
                      log1: seq<Mapping>, reached1: seq<string>, found1: seq<string>, seen1: set<string>)
      returns (log: seq<Mapping>, reached: seq<string>, found: seq<string>, seen: set<string>)
      requires Closed(tracedUrls) && 0 <= j < |found1|
      requires DynamicsCollected(log0, reached0, j, log1, reached1, found1, seen1)
      ensures found1 <= found
      ensures DynamicsCollected(log0, reached0, j + 1, log, reached, found, seen)
    {
      log, reached, found, seen := VisitFrom(found1[j], seen1, log1, reached1, found1);
      forall k | 0 <= k < j + 1 && k < |found| ensures found[k] in seen {
        assert found[k] == found1[k];
      }
      forall m | m in log ensures m in log0 || exists u :: u in reached && m in DepMappings(u) {
        if m in log1 && m !in log0 {
          var u :| u in reached1 && m in DepMappings(u);
          assert u in reached;
        }
      }
    }

    /**
     * One pass of the convergence loop: every entry trace recorded when
     * the pass began is traced again, and `modules` maps each resolved
     * URL to the specifier that led to it (the last one wins).
     */
    method TracePass(snapshot: seq<(string, string)>, modules0: Dict<string>, fuel: nat, env: I.InstallEnv)
      returns (r: Result<Dict<string>>)
      requires Closed(tracedUrls)
      requires forall t :: t in snapshot ==> t in entryTraces
      requires ModulesTraced(modules0, tracedUrls.Keys, entryTraces)
      modifies this, installer
      ensures Closed(tracedUrls) && Grew(old(tracedUrls), tracedUrls)
      ensures old(entryTraces) <= entryTraces
      ensures installer.installing == old(installer.installing)
      ensures mappings == old(mappings) && added == old(added)
      ensures r.Ok? ==> ModulesTraced(r.value, tracedUrls.Keys, entryTraces)
    {
      var modules := modules0;
      for k := 0 to |snapshot|
        invariant Closed(tracedUrls) && Grew(old(tracedUrls), tracedUrls)
        invariant old(entryTraces) <= entryTraces
        invariant installer.installing == old(installer.installing)
        invariant mappings == old(mappings) && added == old(added)
        invariant forall t :: t in snapshot ==> t in entryTraces
        invariant ModulesTraced(modules, tracedUrls.Keys, entryTraces)
      {
        var (specifier, parentUrl) := snapshot[k];
        ghost var before := entryTraces;
        ghost var urls := tracedUrls.Keys;
        var resolved := Trace(specifier, parentUrl, fuel, env);
        if resolved.Err? {
          return Err(resolved.error);
        }
        PrefixKeeps(before, entryTraces, snapshot);
        assert specifier in Specifiers(entryTraces) by {
          assert snapshot[k] in entryTraces;
        }
        PutTracedModule(modules, urls, tracedUrls.Keys, before, entryTraces, resolved.value, specifier);
        modules := Put(modules, resolved.value, specifier);
      }
      r := Ok(modules);
    }

    /**
     * The convergence loop of the finish callback: with the installer's
     * `newInstalls` flag cleared, every recorded entry trace is traced
     * again, until a whole pass installs nothing new. `passes` bounds the
     * number of passes.
     */
    method Converge(passes: nat, fuel: nat, env: I.InstallEnv) returns (r: Result<Dict<string>>)
      requires Closed(tracedUrls)
      modifies this, installer
      ensures Closed(tracedUrls) && Grew(old(tracedUrls), tracedUrls)
      ensures old(entryTraces) <= entryTraces
      ensures installer.installing == old(installer.installing)
      ensures mappings == old(mappings) && added == old(added)
      ensures r.Ok? ==> !installer.newInstalls
      ensures r.Ok? ==> ModulesTraced(r.value, tracedUrls.Keys, entryTraces)
      ensures passes == 0 ==> r == Err(Exhausted)
    {
      var modules: Dict<string> := [];
      var left := passes;
      while true
        invariant Closed(tracedUrls) && Grew(old(tracedUrls), tracedUrls)
        invariant old(entryTraces) <= entryTraces
        invariant installer.installing == old(installer.installing)
        invariant mappings == old(mappings) && added == old(added)
        invariant ModulesTraced(modules, tracedUrls.Keys, entryTraces)
        invariant passes == 0 ==> left == 0
        decreases left
      {
        if left == 0 {
          return Err(Exhausted);
        }
        left := left - 1;
        installer.newInstalls := false;
        var pass := TracePass(entryTraces, modules, fuel, env);
        if pass.Err? {
          return Err(pass.error);
        }
        modules := pass.value;
        if !installer.newInstalls {
          return Ok(modules);
        }
      }
    }

    /**
     * The whole finishing pass: the top-level mappings of the traced entry
     * points and the mappings of every module reachable from them through
     * static and dynamic imports, and of no other module.
     */
    method Collect(modules: Dict<string>) returns (log: seq<Mapping>, ghost reached: seq<string>)
      requires Closed(tracedUrls)
      ensures forall k :: 0 <= k < |modules| && ops.urls.isPlain(modules[k].1) ==>
        Mapping(modules[k].1, modules[k].0, Some(mapBase)) in log
      ensures forall k :: 0 <= k < |modules| && modules[k].0 in tracedUrls ==> modules[k].0 in reached
      ensures forall u :: u in reached ==> u in tracedUrls
      ensures StaticClosed(reached) && forall u, t :: u in reached && t in DynamicTargets(u) ==> t in reached
      ensures Logged(reached, log)
      ensures forall m :: m in log ==> ModuleMapping(m, modules) || exists u :: u in reached && m in DepMappings(u)
    {
      var firstLog, firstReached, found := CollectModules(modules);
      var r;
      log, r := CollectDynamics(firstLog, firstReached, found);
      reached := r;
    }

    /**
     * `add(name, target)`: installs the target for the map's own package
     * scope and records it as added; the answer is the installed package
     * URL without its trailing character.
     */
    method Add(name: string, target: InstallTarget, env: I.InstallEnv) returns (r: Result<string>)
      modifies this, installer
      ensures installer.opts.freeze ==> r.Err?
      ensures r.Ok? ==> added == Put(old(added), name, target)
      ensures r.Err? ==> added == old(added)
      ensures r.Ok? ==> (Resolution(installer.installs, name, mapBase).Some? &&
                         r.value == Slice(Resolution(installer.installs, name, mapBase).value, 0, -1))
      ensures tracedUrls == old(tracedUrls) && entryTraces == old(entryTraces) && mappings == old(mappings)
      ensures installer.installing == old(installer.installing)
    {
      var installed := installer.InstallTarget(name, target, mapBase, false, mapBase, env);
      if installed.Err? {
        return Err(installed.error);
      }
      ResolutionAfterSet(old(installer.installs), name, mapBase, installed.value, name, mapBase);
      added := Put(added, name, target);
      return Ok(Slice(installed.value, 0, -1));
    }

    /**
     * `addAllPkgMappings(name, pkgUrl, env, parentPkgUrl)`: maps every
     * exported subpath of the package installed at `pkgUrl` (a subpath
     * filter after '|' narrows the exports) under `name`, in the scope
     * `parentPkgUrl` (top level when absent). The mappings added before a
     * target fails to resolve stay added.
     */
    method AddAllPkgMappings(name: string, pkgUrl: string, parentPkgUrl: Option<string>) returns (r: Result<()>)
      modifies this
      ensures mappings == old(mappings) + PackageMappings(ops, name, pkgUrl, parentPkgUrl).0
      ensures r.Err? <==> PackageMappings(ops, name, pkgUrl, parentPkgUrl).1.Some?
      ensures r.Err? ==> r.error == PackageMappings(ops, name, pkgUrl, parentPkgUrl).1.value
      ensures tracedUrls == old(tracedUrls) && entryTraces == old(entryTraces) && added == old(added)
    {
      var url := Split(pkgUrl, '|')[0];
      var exports := ops.exports(InstallBase(pkgUrl), InstallFilter(pkgUrl));
      if exports.Err? {
        return Err(exports.error);
      }
      var keys := exports.value;
      PkgMappingsOntoIs(ops, name, keys, url, parentPkgUrl, mappings);
      for i := 0 to |keys|
        invariant PkgMappingsOnto(ops, name, keys[i..], url, parentPkgUrl, mappings) ==
                  PkgMappingsOnto(ops, name, keys, url, parentPkgUrl, old(mappings))
        invariant tracedUrls == old(tracedUrls) && entryTraces == old(entryTraces) && added == old(added)
      {
        var (key, target) := keys[i];
        assert keys[i..][1..] == keys[i + 1..];
        if EndsWith(key, "!cjs") || target == "" || EndsWith(key, "*") {
          continue;
        }
        var href := Href(ops, target, url);
        if href.Err? {
          return Err(href.error);
        }
        mappings := mappings + [Mapping(name + SliceFrom(key, 1), href.value, parentPkgUrl)];
      }
      return Ok(());
    }

    /** The scope `addAllPkgMappings` is given for a package installed for the scope `pkgUrl`: top level for the map's own. */
    function ScopeFor(pkgUrl: string): (r: Option<string>)
      ensures r.None? <==> pkgUrl == mapBase
      ensures r.Some? ==> r.value == pkgUrl
    {
      if pkgUrl == mapBase then None else Some(pkgUrl)
    }

    /**
     * The evidently intended full-map step: the package mappings of every
     * (name, scope) pair the lock install visited, for the URL the lock
     * resolves it to. A pair without a resolution is passed over.
     */
    method MapLockedPackages(pairs: set<(string, string)>) returns (r: Result<()>)
      modifies this
      ensures old(mappings) <= mappings
      ensures r.Ok? ==> forall p :: p in pairs ==> MappedIn(p, mappings)
      ensures tracedUrls == old(tracedUrls) && entryTraces == old(entryTraces) && added == old(added)
    {
      var remaining := pairs;
      while remaining != {}
        invariant remaining <= pairs
        invariant old(mappings) <= mappings
        invariant forall p :: p in pairs - remaining ==> MappedIn(p, mappings)
        invariant tracedUrls == old(tracedUrls) && entryTraces == old(entryTraces) && added == old(added)
        decreases remaining
      {
        var p :| p in remaining;
        remaining := remaining - {p};
        var resolution := Resolution(installer.installs, p.0, p.1);
        if resolution.Some? {
          ghost var before := mappings;
          var done := AddAllPkgMappings(p.0, resolution.value, ScopeFor(p.1));
          if done.Err? {
            return done;
          }
          forall q | q in pairs - remaining ensures MappedIn(q, mappings) {
            if q != p {
              MappedInGrows(q, before, mappings);
            }
          }
        }
      }
      return Ok(());
    }

    /**
     * The pair (name, scope) has its package mapped in `log`: when the lock
     * resolves it, every mapping of the package is there and none of its
     * targets failed.
     */
    ghost predicate MappedIn(p: (string, string), log: seq<Mapping>)
      reads installer
    {
      var resolution := Resolution(installer.installs, p.0, p.1);
      resolution.Some? ==>
        var added := PackageMappings(ops, p.0, resolution.value, ScopeFor(p.1));
        added.1.None? && forall m :: m in added.0 ==> m in log
    }

    /** Mapped stays mapped as the log grows. */
    lemma MappedInGrows(p: (string, string), before: seq<Mapping>, after: seq<Mapping>)
      requires before <= after && MappedIn(p, before)
      ensures MappedIn(p, after)
    {
      var resolution := Resolution(installer.installs, p.0, p.1);
      if resolution.Some? {
        forall m | m in PackageMappings(ops, p.0, resolution.value, ScopeFor(p.1)).0 ensures m in after {
          InPrefix(before, after, m);
        }
      }
    }

    /**
     * The `fullInstall` branch of the finish callback: the lock is
     * re-installed from the package's dependencies and the builtins it
     * already has, pruned to what that reaches; with `fullMap` every other
     * builtin not starting with `_` is installed and mapped, in the order
     * `builtinSet` iterates (each name once), and then the packages the lock
     * install visited are mapped. As written (`fixed` false) that last
     * step maps over what `lockInstall` returned, which is `undefined`,
     * and throws; corrected, it maps every visited pair.
     */
    method FullInstall(fixed: bool, fuel: nat, env: I.InstallEnv) returns (r: Result<()>, visited: set<(string, string)>, complete: bool)
      requires Closed(tracedUrls)
      modifies this, installer
      ensures Closed(tracedUrls) && Grew(old(tracedUrls), tracedUrls)
      ensures old(mappings) <= mappings
      ensures !opts.fullMap && r.Ok? && complete ==>
        var base := installer.installBaseUrl;
        && env.devDepList(base).Ok?
        && (forall d :: d in env.devDepList(base).value ==> (d, base) in visited)
        && (forall n :: n in ScopeOf(old(installer.installs), base) && n in env.builtins ==> (n, base) in visited)
        && I.Closed(installer.installs, visited, env)
        && (forall p, n :: p in installer.installs && n in installer.installs[p] ==> (n, p) in visited)
      ensures !fixed && opts.fullMap ==> r.Err?
      ensures fixed && opts.fullMap && r.Ok? ==> forall p :: p in visited ==> MappedIn(p, mappings)
    {
      visited, complete := {}, false;
      var base := installer.installBaseUrl;
      var deps := env.devDepList(base);
      if deps.Err? {
        return Err(deps.error), visited, complete;
      }
      var existingBuiltins := set n | n in ScopeOf(installer.installs, base) && n in env.builtins;
      var roots := (set d | d in deps.value) + existingBuiltins;
      var traced;
      var order;
      traced, visited, complete, order := installer.LockInstall(roots, base, true, fuel, env);
      if traced.Err? {
        return Err(traced.error), visited, complete;
      }
      if opts.fullMap {
        for k := 0 to |env.builtins|
          invariant old(mappings) <= mappings
          invariant Closed(tracedUrls) && Grew(old(tracedUrls), tracedUrls)
        {
          var pkgName := env.builtins[k];
          if pkgName in env.builtins[..k] || (|pkgName| > 0 && pkgName[0] == '_') || pkgName in existingBuiltins || pkgName in deps.value {
            continue;
          }
          var resolution := installer.Install(pkgName, base, base, env);
          if resolution.Err? {
            return Err(resolution.error), visited, complete;
          }
          var _ := AddAllPkgMappings(pkgName, resolution.value, None);
        }
        if !fixed {
          return Err(MapInstalls(LockInstallReturn()).error), visited, complete;
        }
        var mapped := MapLockedPackages(visited);
        if mapped.Err? {
          return Err(mapped.error), visited, complete;
        }
      }
      r := Ok(());
    }

    /**
     * The callback `startInstall` hands back. A failed trace only closes
     * the install. Otherwise, unless building a full map, the entry traces
     * are re-driven to convergence and the mappings of the traced graph
     * collected; a full install then re-traces the lock from the package's
     * dependencies and locked builtins (see `FullInstall`); finally the
     * installer finishes. As written (`fixed` false) the callback resolves
     * to what the installer reported; corrected, a changed package.json is
     * reported too. `pjsonUpdated` and `installerPjsonUpdated` stand for
     * what the two `updatePjson` calls report.
     */
    method Finish(fixed: bool, success: bool, pjsonUpdated: bool, installerPjsonUpdated: bool, passes: nat, fuel: nat, env: I.InstallEnv)
      returns (r: Result<bool>)
      requires Closed(tracedUrls)
      modifies this, installer
      ensures !success ==> r == Ok(false) && !installer.installing && mappings == old(mappings)
      ensures success && r.Ok? ==> !installer.installing
      ensures success && r.Ok? ==>
        var installerReported := (I.SavesPjson(installer.opts, installer.hasLock) && installerPjsonUpdated)
          || ((installer.hasLock || installer.opts.lock) && env.saveLock(installer.installs));
        r.value == if fixed then installerReported || (SavesField(installer.opts) && pjsonUpdated) else installerReported
      ensures success && !fixed && opts.fullInstall && opts.fullMap ==> r.Err?
      ensures Closed(tracedUrls) && Grew(old(tracedUrls), tracedUrls)
      ensures old(mappings) <= mappings
    {
      if !success {
        var _, _, _ := installer.FinishInstall(false, installerPjsonUpdated, fuel, env);
        return Ok(false);
      }
      if !opts.fullMap {
        var modules := Converge(passes, fuel, env);
        if modules.Err? {
          return Err(modules.error);
        }
        var log, _ := Collect(modules.value);
        mappings := mappings + log;
      }
      var pjsonChanged := SavesField(installer.opts) && pjsonUpdated;
      if opts.fullInstall {
        var installed, _, _ := FullInstall(fixed, fuel, env);
        if installed.Err? {
          return Err(installed.error);
        }
      }
      var finished, _, _ := installer.FinishInstall(true, installerPjsonUpdated, fuel, env);
      if finished.Err? {
        return Err(finished.error);
      }
      return Ok(if fixed then Reported(finished.value, pjsonChanged) else ReportedAsWritten(finished.value, pjsonChanged));
    }
  }
}
