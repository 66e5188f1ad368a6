/**
 * The `Installer` of src/install/installer.ts: lock-aware install
 * decisions for one dependency of one package scope, the `replace`
 * rewrite of the lock, the visited-set closure of `lockInstall` followed
 * by pruning, the best installed match for a target, and the `installing`
 * transaction flag.
 *
 * The resolver (package configurations, dependency lists, latest-version
 * lookup, package URLs) and the semver library are parameters; the
 * package.json update of a finished install is reduced to whether it
 * changed the file.
 */
module Installer {
  import opened Wrappers
  import opened Strings
  import opened Package
  import opened Urls
  import opened Manifest
  import opened Lock
  import Resolver

  /** The `InstallOptions` the modelled code reads. */
  datatype InstallOptions = InstallOptions(
    freeze: bool, reset: bool, latest: bool, prune: bool, lock: bool,
    save: bool, saveDev: bool, savePeer: bool, saveOptional: bool)

  /** Whether a finished install writes package.json (and so whether it can have changed it). */
  predicate SavesPjson(opts: InstallOptions, hasLock: bool)
  {
    opts.save || opts.saveDev || opts.savePeer || opts.saveOptional || hasLock || opts.lock
  }

  /**
   * What the installer asks of the resolver and the semver library:
   * `getPackageConfig`, `getDepList` (without and with dev
   * dependencies), `resolveLatestTarget`, `pkgToUrl`, `parseUrlPkg`, the
   * Node.js builtin module names (`builtinModules`, in order; `builtinSet`
   * holds the same names), and writing the lock file
   * (`saveVersionLock`, true when it wrote).
   */
  datatype InstallEnv = InstallEnv(
    sv: Semver,
    urls: UrlOps,
    config: string -> Result<Option<PackageConfig>>,
    depList: string -> Result<seq<string>>,
    devDepList: string -> Result<seq<string>>,
    resolveLatest: PackageTarget -> Result<ExactPackage>,
    pkgToUrl: ExactPackage -> string,
    parseUrlPkg: string -> Option<ExactPackage>,
    builtins: seq<string>,
    saveLock: Resolutions -> bool)

  /** A JavaScript-truthy dependency value: present and not the empty string. */
  function Truthy(v: Option<string>): (r: Option<string>)
    ensures r.Some? <==> v.Some? && v.value != ""
    ensures r.Some? ==> r == v
  {
    if v.Some? && v.value != "" then v else None
  }

  /**
   * The declared target of `name`: the first truthy entry among
   * `dependencies`, `peerDependencies`, `optionalDependencies` and
   * `devDependencies`, in that order.
   */
  function DeclaredTarget(pcfg: PackageConfig, name: string): (r: Option<string>)
    ensures r.Some? ==> r.value != ""
    ensures Truthy(Get(pcfg.dependencies, name)).Some? ==> r == Get(pcfg.dependencies, name)
    ensures Truthy(Get(pcfg.dependencies, name)).None? && Truthy(Get(pcfg.peerDependencies, name)).Some? ==>
      r == Get(pcfg.peerDependencies, name)
    ensures (Truthy(Get(pcfg.dependencies, name)).None? && Truthy(Get(pcfg.peerDependencies, name)).None? &&
             Truthy(Get(pcfg.optionalDependencies, name)).Some?) ==> r == Get(pcfg.optionalDependencies, name)
    ensures r.None? <==>
      (Truthy(Get(pcfg.dependencies, name)).None? && Truthy(Get(pcfg.peerDependencies, name)).None? &&
       Truthy(Get(pcfg.optionalDependencies, name)).None? && Truthy(Get(pcfg.devDependencies, name)).None?)
  {
    if Truthy(Get(pcfg.dependencies, name)).Some? then Get(pcfg.dependencies, name)
    else if Truthy(Get(pcfg.peerDependencies, name)).Some? then Get(pcfg.peerDependencies, name)
    else if Truthy(Get(pcfg.optionalDependencies, name)).Some? then Get(pcfg.optionalDependencies, name)
    else Truthy(Get(pcfg.devDependencies, name))
  }

  /** A URL target as a package URL: its href with a trailing '/' added when missing. */
  function WithSlash(href: string): (r: string)
    ensures EndsWith(r, "/")
    ensures EndsWith(href, "/") ==> r == href
    ensures !EndsWith(href, "/") ==> r == href + "/"
  {
    if EndsWith(href, "/") then href else href + "/"
  }

  /**
   * The package URL `installTarget` records for a target: a URL target
   * without any registry lookup, a package target through
   * `resolveLatestTarget` and `pkgToUrl`.
   */
  function TargetUrl(target: InstallTarget, env: InstallEnv): (r: Result<string>)
    ensures target.UrlTarget? ==> r == Ok(WithSlash(target.href))
  {
    match target
    case UrlTarget(href) => Ok(WithSlash(href))
    case PkgTarget(t) =>
      var latest := env.resolveLatest(t);
      if latest.Err? then Err(latest.error) else Ok(env.pkgToUrl(latest.value))
  }

  /** The resolution recorded for a builtin: the stdlib package URL without its last character, then `|nodelibs/<name>`. */
  function BuiltinResolution(stdlibUrl: string, name: string): (r: string)
    ensures EndsWith(r, "|nodelibs/" + name)
    ensures EndsWith(stdlibUrl, "/") ==> r == stdlibUrl[..|stdlibUrl| - 1] + "|nodelibs/" + name
  {
    var r := Slice(stdlibUrl, 0, -1) + "|nodelibs/" + name;
    assert r == Slice(stdlibUrl, 0, -1) + ("|nodelibs/" + name);
    r
  }

  /**
   * The URL `install` settles on for a dependency its lock does not hold
   * (or when resetting), given the scope's configuration: a declared
   * target, else the stdlib entry for a builtin, else the latest version
   * of the name itself (`*`).
   */
  function Planned(pcfg: PackageConfig, name: string, pkgUrl: string, stdlib: InstallTarget, env: InstallEnv): Result<string>
  {
    var declared := DeclaredTarget(pcfg, name);
    if declared.Some? then
      var target := NewPackageTarget(declared.value, pkgUrl, name, env.sv, env.urls);
      if target.Err? then Err(target.error) else TargetUrl(target.value, env)
    else if name in env.builtins then
      var url := TargetUrl(stdlib, env);
      if url.Err? then Err(url.error) else Ok(BuiltinResolution(url.value, name))
    else
      var target := NewPackageTarget("*", pkgUrl, name, env.sv, env.urls);
      if target.Err? then Err(target.error) else TargetUrl(target.value, env)
  }

  /** An undeclared builtin resolves inside the stdlib package, under `nodelibs/`. */
  lemma BuiltinPlanned(pcfg: PackageConfig, name: string, pkgUrl: string, stdlibHref: string, env: InstallEnv)
    requires DeclaredTarget(pcfg, name).None? && name in env.builtins
    ensures Planned(pcfg, name, pkgUrl, UrlTarget(stdlibHref), env) ==
      Ok(WithSlash(stdlibHref)[..|WithSlash(stdlibHref)| - 1] + "|nodelibs/" + name)
  {
  }

  /** `inRange(pkg, target)`: same registry and name, and some range holds the version. */
  predicate InRange(pkg: ExactPackage, target: PackageTarget, sv: Semver)
  {
    pkg.registry == target.registry && pkg.name == target.name &&
    exists i :: 0 <= i < |target.ranges| && sv.has(target.ranges[i], pkg.version)
  }

  /** An installed package URL whose package is in range of the target. */
  predicate Candidate(pkgUrl: string, target: PackageTarget, env: InstallEnv)
  {
    env.parseUrlPkg(pkgUrl).Some? && InRange(env.parseUrlPkg(pkgUrl).value, target, env.sv)
  }

  /**
   * `getBestMatch` over the scopes in `urls`: `None` exactly when no scope
   * is a candidate; otherwise the package of a candidate scope that no
   * candidate's version exceeds.
   */
  ghost predicate IsBestMatch(best: Option<ExactPackage>, urls: set<string>, target: PackageTarget, env: InstallEnv)
  {
    && (best.None? <==> forall u :: u in urls ==> !Candidate(u, target, env))
    && (best.Some? ==>
          && (exists u :: u in urls && Candidate(u, target, env) && env.parseUrlPkg(u) == best)
          && (forall u :: u in urls && Candidate(u, target, env) ==> !env.sv.less(best.value.version, env.parseUrlPkg(u).value.version)))
  }

  /** `value` in `scope` under some name. */
  predicate HasValue(scope: map<string, string>, value: string)
  {
    exists n :: n in scope && scope[n] == value
  }

  /** The scope with every value equal to `targetUrl` replaced by `replacement`. */
  function RewriteScope(scope: map<string, string>, targetUrl: string, replacement: string): (r: map<string, string>)
    ensures r.Keys == scope.Keys
    ensures forall n :: n in scope ==> r[n] == (if scope[n] == targetUrl then replacement else scope[n])
  {
    map n | n in scope :: if scope[n] == targetUrl then replacement else scope[n]
  }

  /**
   * The lock after `replace`: every value equal to `targetUrl` becomes
   * `replacement`, and a scope keyed `targetUrl` moves to `replacement`
   * (overwriting a scope already there; when the two URLs are equal the
   * scope is deleted, because the move is followed by deleting the old key).
   */
  function Replaced(res: Resolutions, targetUrl: string, replacement: string): Resolutions
  {
    var rewritten := map k | k in res :: RewriteScope(res[k], targetUrl, replacement);
    if targetUrl !in res then rewritten
    else if replacement == targetUrl then rewritten - {targetUrl}
    else (rewritten - {targetUrl})[replacement := rewritten[targetUrl]]
  }

  /** Whether `replace` changes anything: the target URL is a scope or a value of the lock. */
  predicate Touches(res: Resolutions, targetUrl: string)
  {
    targetUrl in res || exists k :: k in res && HasValue(res[k], targetUrl)
  }

  /** Whether the scopes in `done` are the target's, or bind a name to it. */
  ghost predicate TouchedIn(res: Resolutions, done: set<string>, targetUrl: string)
    requires done <= res.Keys
  {
    targetUrl in done || exists k :: k in done && HasValue(res[k], targetUrl)
  }

  lemma TouchedInStep(res: Resolutions, done: set<string>, k: string, targetUrl: string)
    requires done <= res.Keys && k in res
    ensures TouchedIn(res, done + {k}, targetUrl) == (TouchedIn(res, done, targetUrl) || k == targetUrl || HasValue(res[k], targetUrl))
  {
    if HasValue(res[k], targetUrl) {
      assert k in done + {k};
    }
    if TouchedIn(res, done + {k}, targetUrl) && !(k == targetUrl || HasValue(res[k], targetUrl)) && targetUrl !in done {
      var j :| j in done + {k} && HasValue(res[j], targetUrl);
      assert j in done;
    }
  }

  /** After a replacement with a different URL, the target URL occurs nowhere in the lock. */
  lemma ReplacedRemovesTarget(res: Resolutions, targetUrl: string, replacement: string)
    requires replacement != targetUrl
    ensures !Touches(Replaced(res, targetUrl, replacement), targetUrl)
  {
    var r := Replaced(res, targetUrl, replacement);
    forall k | k in r ensures !HasValue(r[k], targetUrl) {
      if HasValue(r[k], targetUrl) {
        var n :| n in r[k] && r[k][n] == targetUrl;
      }
    }
  }

  /** Replacing is idempotent: a second identical replacement changes nothing. */
  lemma ReplacedIdempotent(res: Resolutions, targetUrl: string, replacement: string)
    requires replacement != targetUrl
    ensures Replaced(Replaced(res, targetUrl, replacement), targetUrl, replacement) == Replaced(res, targetUrl, replacement)
  {
    var once := Replaced(res, targetUrl, replacement);
    ReplacedRemovesTarget(res, targetUrl, replacement);
    var twice := Replaced(once, targetUrl, replacement);
    forall k | k in once ensures RewriteScope(once[k], targetUrl, replacement) == once[k] {
      assert !HasValue(once[k], targetUrl);
    }
    assert twice == map k | k in once :: RewriteScope(once[k], targetUrl, replacement);
  }

  /** The scope URL of an install URL: the part before '|', with '/' appended when there was one. */
  function InstallPkgUrl(installUrl: string): (r: string)
    ensures '|' !in installUrl ==> r == installUrl
  {
    Split(installUrl, '|')[0] + (if IndexOf(installUrl, '|') == -1 then "" else "/")
  }

  /**
   * `replace`'s loop after the scopes in `done` were processed: their
   * values rewritten, and the target scope moved once it was processed.
   */
  function Partial(res: Resolutions, done: set<string>, targetUrl: string, replacement: string): Resolutions
  {
    var base := Rewritten(res, done, targetUrl, replacement);
    if targetUrl !in done || targetUrl !in res then base
    else if replacement == targetUrl then base - {targetUrl}
    else (base - {targetUrl})[replacement := base[targetUrl]]
  }

  /** The rewritten values of the scopes in `done`, before any scope moves. */
  function Rewritten(res: Resolutions, done: set<string>, targetUrl: string, replacement: string): (r: Resolutions)
    ensures r.Keys == res.Keys
  {
    map k | k in res :: if k in done then RewriteScope(res[k], targetUrl, replacement) else res[k]
  }

  /** Rewriting a scope a second time changes nothing when the URL is really replaced. */
  lemma RewriteTwice(scope: map<string, string>, targetUrl: string, replacement: string)
    requires replacement != targetUrl
    ensures RewriteScope(RewriteScope(scope, targetUrl, replacement), targetUrl, replacement) == RewriteScope(scope, targetUrl, replacement)
  {
  }

  /** Processing one more scope of the key snapshot takes `Partial` one step further. */
  lemma ReplaceStep(res: Resolutions, done: set<string>, k: string, targetUrl: string, replacement: string)
    requires k in res && k !in done && done <= res.Keys
    ensures k in Partial(res, done, targetUrl, replacement)
    ensures Partial(res, done, targetUrl, replacement)[k] == res[k] || (targetUrl in done && k == replacement)
    ensures
      var state := Partial(res, done, targetUrl, replacement);
      var s := state[k := RewriteScope(state[k], targetUrl, replacement)];
      Partial(res, done + {k}, targetUrl, replacement) ==
        (if k == targetUrl then s[replacement := s[k]] - {k} else s)
  {
    if targetUrl !in done {
      ReplaceStepBefore(res, done, k, targetUrl, replacement);
    } else if replacement == targetUrl {
      ReplaceStepSame(res, done, k, targetUrl, replacement);
    } else {
      ReplaceStepMoved(res, done, k, targetUrl, replacement);
    }
  }

  /** The step while the target scope has not been rewritten yet. */
  lemma ReplaceStepBefore(res: Resolutions, done: set<string>, k: string, targetUrl: string, replacement: string)
    requires k in res && k !in done && done <= res.Keys && targetUrl !in done
    ensures k in Partial(res, done, targetUrl, replacement)
    ensures Partial(res, done, targetUrl, replacement)[k] == res[k] || (targetUrl in done && k == replacement)
    ensures
      var state := Partial(res, done, targetUrl, replacement);
      var s := state[k := RewriteScope(state[k], targetUrl, replacement)];
      Partial(res, done + {k}, targetUrl, replacement) ==
        (if k == targetUrl then s[replacement := s[k]] - {k} else s)
  {
    var b := Rewritten(res, done, targetUrl, replacement);
    var b' := Rewritten(res, done + {k}, targetUrl, replacement);
    assert b' == b[k := RewriteScope(res[k], targetUrl, replacement)];
    var state := Partial(res, done, targetUrl, replacement);
    var next := Partial(res, done + {k}, targetUrl, replacement);
    assert state == b;
    var s := state[k := RewriteScope(state[k], targetUrl, replacement)];
    assert s == b';
    if k == targetUrl && replacement != targetUrl {
      assert next == (b' - {targetUrl})[replacement := b'[targetUrl]];
      assert s[replacement := s[k]] - {k} == (b' - {targetUrl})[replacement := b'[targetUrl]];
    }
  }

  /** The step once the target scope was rewritten and is replaced by itself. */
  lemma ReplaceStepSame(res: Resolutions, done: set<string>, k: string, targetUrl: string, replacement: string)
    requires k in res && k !in done && done <= res.Keys && targetUrl in done && replacement == targetUrl
    ensures k in Partial(res, done, targetUrl, replacement)
    ensures Partial(res, done, targetUrl, replacement)[k] == res[k] || k == replacement
    ensures
      var state := Partial(res, done, targetUrl, replacement);
      Partial(res, done + {k}, targetUrl, replacement) == state[k := RewriteScope(state[k], targetUrl, replacement)]
  {
    var b := Rewritten(res, done, targetUrl, replacement);
    var b' := Rewritten(res, done + {k}, targetUrl, replacement);
    assert b' == b[k := RewriteScope(res[k], targetUrl, replacement)];
    var state := Partial(res, done, targetUrl, replacement);
    var next := Partial(res, done + {k}, targetUrl, replacement);
    assert state == b - {targetUrl};
    assert next == b' - {targetUrl};
  }

  /** The step once the target scope was rewritten and moved to the replacement. */
  lemma ReplaceStepMoved(res: Resolutions, done: set<string>, k: string, targetUrl: string, replacement: string)
    requires k in res && k !in done && done <= res.Keys && targetUrl in done && replacement != targetUrl
    ensures k in Partial(res, done, targetUrl, replacement)
    ensures Partial(res, done, targetUrl, replacement)[k] == res[k] || k == replacement
    ensures
      var state := Partial(res, done, targetUrl, replacement);
      Partial(res, done + {k}, targetUrl, replacement) == state[k := RewriteScope(state[k], targetUrl, replacement)]
  {
    var b := Rewritten(res, done, targetUrl, replacement);
    var b' := Rewritten(res, done + {k}, targetUrl, replacement);
    assert b' == b[k := RewriteScope(res[k], targetUrl, replacement)];
    var state := Partial(res, done, targetUrl, replacement);
    var next := Partial(res, done + {k}, targetUrl, replacement);
    assert state == (b - {targetUrl})[replacement := b[targetUrl]];
    assert next == (b' - {targetUrl})[replacement := b'[targetUrl]];
    if k == replacement {
      RewriteTwice(res[targetUrl], targetUrl, replacement);
      var s := state[k := RewriteScope(state[k], targetUrl, replacement)];
      assert s == state;
      assert next == state;
    }
  }

  /** `Partial` over every scope is the full replacement. */
  lemma ReplaceDone(res: Resolutions, targetUrl: string, replacement: string)
    ensures Partial(res, res.Keys, targetUrl, replacement) == Replaced(res, targetUrl, replacement)
  {
  }

  /**
   * The dependencies of visited pair `v` (a dependency name and the scope
   * it was installed in) are covered: `v` is resolved, the dependency list
   * of the package it resolved to loads, and every listed dependency and
   * every name already locked in that package's scope is in `covered`.
   */
  ghost predicate Expanded(res: Resolutions, v: (string, string), env: InstallEnv, covered: set<(string, string)>)
  {
    && Resolution(res, v.0, v.1).Some?
    && var p := InstallPkgUrl(Resolution(res, v.0, v.1).value);
    && env.depList(p).Ok?
    && (forall d :: d in env.depList(p).value ==> (d, p) in covered)
    && (forall n :: n in ScopeOf(res, p) ==> (n, p) in covered)
  }

  /** Locking another pair leaves an expanded pair expanded, once the new pair is covered. */
  lemma ExpandedAfterSet(res: Resolutions, v: (string, string), n: string, p: string, u: string,
                         env: InstallEnv, covered: set<(string, string)>, covered': set<(string, string)>)
    requires v != (n, p) && Expanded(res, v, env, covered)
    requires covered <= covered' && (n, p) in covered'
    ensures Expanded(WithResolution(res, n, p, u), v, env, covered')
  {
    ResolutionAfterSet(res, n, p, u, v.0, v.1);
  }

  /** A closed, fully visited traversal: every visited pair is expanded within the visited set. */
  ghost predicate Closed(res: Resolutions, visited: set<(string, string)>, env: InstallEnv)
  {
    forall v :: v in visited ==> Expanded(res, v, env, visited)
  }

  /** `order` lists the pairs of `visited`, each once: the record of a traversal that visits a pair at most once. */
  ghost predicate VisitOrder(order: seq<(string, string)>, visited: set<(string, string)>)
  {
    && (forall w :: w in visited <==> w in order)
    && (forall i, j :: 0 <= i < j < |order| ==> order[i] != order[j])
  }

  /** Visiting a pair not yet visited extends the record by that pair. */
  lemma VisitOrderStep(order: seq<(string, string)>, visited: set<(string, string)>, v: (string, string))
    requires VisitOrder(order, visited) && v !in visited
    ensures VisitOrder(order + [v], visited + {v})
  {
    assert forall w :: w in order + [v] <==> w in order || w == v;
  }

  /**
   * What installing leaves of an earlier lock: every binding `before` has is
   * still there, and unless resetting every locked resolution reads the same.
   */
  ghost predicate Keeps(before: Resolutions, after: Resolutions, reset: bool)
  {
    && (forall p, n :: p in before && n in before[p] ==> p in after && n in after[p])
    && (!reset ==> forall n, p :: Locked(before, n, p) ==> Resolution(after, n, p) == Resolution(before, n, p))
  }

  /** Keeping is transitive, so it holds across a sequence of installs. */
  lemma KeepsTrans(a: Resolutions, b: Resolutions, c: Resolutions, reset: bool)
    requires Keeps(a, b, reset) && Keeps(b, c, reset)
    ensures Keeps(a, c, reset)
  {
    if !reset {
      forall n, p | Locked(a, n, p) ensures Resolution(c, n, p) == Resolution(a, n, p) {
        assert Locked(b, n, p);
      }
    }
  }

  /** Setting a binding keeps the lock, unless it overwrites a locked resolution without resetting. */
  lemma SetKeeps(res: Resolutions, name: string, pkgUrl: string, url: string, reset: bool)
    requires !reset && Locked(res, name, pkgUrl) ==> url == Resolution(res, name, pkgUrl).value
    ensures Keeps(res, WithResolution(res, name, pkgUrl, url), reset)
  {
    var res' := WithResolution(res, name, pkgUrl, url);
    forall n, p | Locked(res, n, p) && !reset ensures Resolution(res', n, p) == Resolution(res, n, p) {
      ResolutionAfterSet(res, name, pkgUrl, url, n, p);
    }
  }

  /** Setting the same binding twice keeps only the second value. */
  lemma SetTwice(res: Resolutions, name: string, pkgUrl: string, first: string, second: string)
    ensures WithResolution(WithResolution(res, name, pkgUrl, first), name, pkgUrl, second) == WithResolution(res, name, pkgUrl, second)
  {
    assert ScopeOf(WithResolution(res, name, pkgUrl, first), pkgUrl)[name := second] == ScopeOf(res, pkgUrl)[name := second];
  }

  /**
   * Visiting a new pair keeps the traversal invariant: after its
   * resolution is locked and its package's dependencies are queued, every
   * visited pair, the new one included, is expanded within what is
   * visited or queued.
   */
  lemma VisitStep(res: Resolutions, visited: set<(string, string)>, pending: set<(string, string)>,
                  v: (string, string), url: string, env: InstallEnv)
    requires v !in visited
    requires forall w :: w in visited ==> Expanded(res, w, env, visited + (pending + {v}))
    requires env.depList(InstallPkgUrl(url)).Ok?
    ensures
      var res' := WithResolution(res, v.0, v.1, url);
      var p := InstallPkgUrl(url);
      var children := (set d | d in env.depList(p).value :: (d, p)) + (set n | n in ScopeOf(res', p) :: (n, p));
      forall w :: w in visited + {v} ==> Expanded(res', w, env, (visited + {v}) + (pending + children))
  {
    var res' := WithResolution(res, v.0, v.1, url);
    var p := InstallPkgUrl(url);
    var children := (set d | d in env.depList(p).value :: (d, p)) + (set n | n in ScopeOf(res', p) :: (n, p));
    var covered := visited + (pending + {v});
    var covered' := (visited + {v}) + (pending + children);
    forall w | w in visited + {v} ensures Expanded(res', w, env, covered') {
      if w == v {
        ResolutionAfterSet(res, v.0, v.1, url, v.0, v.1);
      } else {
        ExpandedAfterSet(res, w, v.0, v.1, url, env, covered, covered');
      }
    }
  }

  /**
   * Pruning to the visited pairs keeps a closed traversal closed, and
   * leaves nothing but visited pairs in the lock.
   */
  lemma PruneKeepsClosure(res: Resolutions, pruned: Resolutions, order: seq<(string, string)>,
                          visited: set<(string, string)>, env: InstallEnv)
    requires forall w :: w in visited <==> w in order
    requires Closed(res, visited, env)
    requires forall p, n :: p in pruned && n in pruned[p] ==> Listed(order, n, p)
    requires forall i :: 0 <= i < |order| && Resolution(res, order[i].0, order[i].1).Some? ==>
      Resolution(pruned, order[i].0, order[i].1) == Resolution(res, order[i].0, order[i].1)
    ensures Closed(pruned, visited, env)
    ensures forall p, n :: p in pruned && n in pruned[p] ==> (n, p) in visited
  {
    forall p, n | p in pruned && n in pruned[p] ensures (n, p) in visited {
      var i :| 0 <= i < |order| && order[i] == (n, p);
    }
    forall v | v in visited ensures Expanded(pruned, v, env, visited) {
      var i :| 0 <= i < |order| && order[i] == v;
      assert Resolution(pruned, v.0, v.1) == Resolution(res, v.0, v.1);
    }
  }

  /** The error `installTarget` throws for a frozen lock. */
  function NotInstalled(pkgName: string, parentUrl: string): Error
  {
    JspmError("\"" + pkgName + "\" is not installed in the jspm lockfile, imported from " + parentUrl + ".", "ERR_NOT_INSTALLED")
  }

  /** The outcome of recording `url` for a scope: `setResolution` refuses a scope URL without a trailing '/'. */
  function Recorded(url: Result<string>, pkgScope: string): (r: Result<string>)
    ensures r.Ok? <==> url.Ok? && EndsWith(pkgScope, "/")
    ensures r.Ok? ==> r == url
  {
    if url.Err? then url else if !EndsWith(pkgScope, "/") then Err(InternalError) else url
  }

  /** `install`'s outcome when the lock does not answer: the configuration of the scope, then `Planned`. */
  function PlannedFor(name: string, pkgUrl: string, stdlib: InstallTarget, env: InstallEnv): Result<string>
  {
    var pcfg := env.config(pkgUrl);
    if pcfg.Err? then Err(pcfg.error) else Planned(pcfg.value.UnwrapOr(Resolver.EmptyConfig), name, pkgUrl, stdlib, env)
  }

  /** The lock already answers: a non-empty resolution of the name in the scope. */
  predicate Locked(res: Resolutions, name: string, pkgUrl: string)
  {
    Resolution(res, name, pkgUrl).Some? && Resolution(res, name, pkgUrl).value != ""
  }

  class Installer {
    const opts: InstallOptions
    const installBaseUrl: string
    /** Whether a lockfile existed when the installer was created. */
    const hasLock: bool
    /** Where builtin modules are installed from. */
    const stdlibTarget: InstallTarget
    var installs: Resolutions
    var installing: bool
    var newInstalls: bool
    /** The targets to persist into package.json, by dependency name. */
    var added: Dict<InstallTarget>

    /** An installer over the loaded lock of `baseUrl`. */
    constructor (baseUrl: string, opts: InstallOptions, lockfile: Lockfile, stdlibTarget: InstallTarget)
      ensures this.opts == opts && installBaseUrl == baseUrl && hasLock == lockfile.found
      ensures this.stdlibTarget == stdlibTarget && installs == lockfile.resolutions
      ensures !installing && !newInstalls && added == []
    {
      this.opts := opts;
      installBaseUrl := baseUrl;
      hasLock := lockfile.found;
      this.stdlibTarget := stdlibTarget;
      installs := lockfile.resolutions;
      installing := false;
      newInstalls := false;
      added := [];
    }

    /**
     * `startInstall`: a second install waits for the running one (here:
     * reports that it did not start); a new one clears the per-install state.
     */
    method StartInstall() returns (started: bool)
      modifies this
      ensures started == !old(installing)
      ensures started ==> installing && !newInstalls && added == [] && installs == old(installs)
      ensures !started ==> installing == old(installing) && newInstalls == old(newInstalls) && added == old(added) && installs == old(installs)
    {
      if installing {
        return false;
      }
      installing := true;
      newInstalls := false;
      added := [];
      return true;
    }

    /**
     * `installTarget`: a frozen lock refuses; otherwise the target is
     * recorded for persisting when asked and the scope is the base
     * `file:` package, and the scope's resolution of the name becomes the
     * target's package URL.
     */
    method InstallTarget(pkgName: string, target: InstallTarget, pkgScope: string, pjsonPersist: bool,
                         parentUrl: string, env: InstallEnv) returns (r: Result<string>)
      modifies this
      ensures opts.freeze ==> r == Err(NotInstalled(pkgName, parentUrl)) && newInstalls == old(newInstalls)
      ensures !opts.freeze ==> newInstalls && r == Recorded(TargetUrl(target, env), pkgScope)
      ensures r.Ok? ==> installs == WithResolution(old(installs), pkgName, pkgScope, r.value)
      ensures r.Err? ==> installs == old(installs)
      ensures added == if !opts.freeze && pjsonPersist && pkgScope == installBaseUrl && StartsWith(pkgScope, "file:")
                       then Put(old(added), pkgName, target) else old(added)
      ensures installing == old(installing)
    {
      if opts.freeze {
        return Err(NotInstalled(pkgName, parentUrl));
      }
      newInstalls := true;
      if pjsonPersist && pkgScope == installBaseUrl && StartsWith(pkgScope, "file:") {
        added := Put(added, pkgName, target);
      }
      var url := TargetUrl(target, env);
      if url.Err? {
        return url;
      }
      if !EndsWith(pkgScope, "/") {
        return Err(InternalError);
      }
      installs := WithResolution(installs, pkgName, pkgScope, url.value);
      return url;
    }

    /**
     * `install(pkgName, pkgUrl)`: outside an install it is an internal
     * error; a locked resolution is kept unless resetting; otherwise the
     * planned URL is locked. Whatever succeeds leaves the scope resolving
     * the name to the result, and nothing else in the lock changes.
     */
    method Install(pkgName: string, pkgUrl: string, parentUrl: string, env: InstallEnv) returns (r: Result<string>)
      modifies this
      ensures !old(installing) ==> r == Err(InternalError)
      ensures installing == old(installing)
      ensures r.Ok? ==> installs == WithResolution(old(installs), pkgName, pkgUrl, r.value)
      ensures r.Ok? ==> Resolution(installs, pkgName, pkgUrl) == Some(r.value)
      ensures r.Err? ==> installs == old(installs)
      ensures old(installing) && !opts.reset && Locked(old(installs), pkgName, pkgUrl) ==>
        r == Ok(Resolution(old(installs), pkgName, pkgUrl).value) && newInstalls == old(newInstalls) && added == old(added)
      ensures old(installing) && (opts.reset || !Locked(old(installs), pkgName, pkgUrl)) && !opts.freeze && EndsWith(pkgUrl, "/") ==>
        r == PlannedFor(pkgName, pkgUrl, stdlibTarget, env)
      ensures old(installing) && (opts.reset || !Locked(old(installs), pkgName, pkgUrl)) && (opts.freeze || !EndsWith(pkgUrl, "/")) ==>
        r.Err?
      ensures Keeps(old(installs), installs, opts.reset)
    {
      if !installing {
        return Err(InternalError);
      }
      if !opts.reset {
        var existing := Resolution(installs, pkgName, pkgUrl);
        if existing.Some? && existing.value != "" {
          SetExistingIsIdentity(installs, pkgName, pkgUrl);
          return Ok(existing.value);
        }
      }
      r := InstallNew(pkgName, pkgUrl, parentUrl, env);
      if r.Ok? {
        SetKeeps(old(installs), pkgName, pkgUrl, r.value, opts.reset);
      }
    }

    /** The part of `install` past the lock: the package's declared target, a builtin, or the latest version. */
    method InstallNew(pkgName: string, pkgUrl: string, parentUrl: string, env: InstallEnv) returns (r: Result<string>)
      requires installing
      modifies this
      ensures installing == old(installing)
      ensures r.Ok? ==> installs == WithResolution(old(installs), pkgName, pkgUrl, r.value)
      ensures r.Err? ==> installs == old(installs)
      ensures !opts.freeze && EndsWith(pkgUrl, "/") ==> r == PlannedFor(pkgName, pkgUrl, stdlibTarget, env)
      ensures opts.freeze || !EndsWith(pkgUrl, "/") ==> r.Err?
    {
      var loaded := env.config(pkgUrl);
      if loaded.Err? {
        return Err(loaded.error);
      }
      var pcfg := loaded.value.UnwrapOr(Resolver.EmptyConfig);
      var declared := DeclaredTarget(pcfg, pkgName);
      if declared.Some? {
        var target := NewPackageTarget(declared.value, pkgUrl, pkgName, env.sv, env.urls);
        if target.Err? {
          return Err(target.error);
        }
        r := InstallTarget(pkgName, target.value, pkgUrl, false, parentUrl, env);
        return;
      }
      if pkgName in env.builtins {
        var url := InstallTarget(pkgName, stdlibTarget, pkgUrl, false, parentUrl, env);
        if url.Err? {
          return url;
        }
        var resolution := BuiltinResolution(url.value, pkgName);
        // the scope URL already passed `setResolution`'s check above
        SetTwice(old(installs), pkgName, pkgUrl, url.value, resolution);
        installs := WithResolution(installs, pkgName, pkgUrl, resolution);
        return Ok(resolution);
      }
      var target := NewPackageTarget("*", pkgUrl, pkgName, env.sv, env.urls);
      if target.Err? {
        return Err(target.error);
      }
      r := InstallTarget(pkgName, target.value, pkgUrl, true, parentUrl, env);
    }

    /**
     * `getBestMatch`: among the locked scopes whose package is in range of
     * the target, one that no other candidate's version exceeds.
     */
    method GetBestMatch(target: PackageTarget, env: InstallEnv) returns (best: Option<ExactPackage>)
      requires StrictOrder(env.sv)
      ensures IsBestMatch(best, installs.Keys, target, env)
    {
      best := None;
      var remaining := installs.Keys;
      ghost var seen: set<string> := {};
      while remaining != {}
        invariant remaining + seen == installs.Keys && remaining !! seen
        invariant IsBestMatch(best, seen, target, env)
        decreases remaining
      {
        var u :| u in remaining;
        var pkg := env.parseUrlPkg(u);
        if pkg.Some? && InRange(pkg.value, target, env.sv) {
          if best.None? || env.sv.less(best.value.version, pkg.value.version) {
            best := pkg;
          }
        }
        remaining := remaining - {u};
        seen := seen + {u};
      }
    }

    /** A scope's names rewritten one by one, reporting whether any matched. */
    static method RewriteNames(scope: map<string, string>, targetUrl: string, replacement: string)
      returns (rewritten: map<string, string>, changed: bool)
      ensures rewritten == RewriteScope(scope, targetUrl, replacement)
      ensures changed == HasValue(scope, targetUrl)
    {
      rewritten := scope;
      changed := false;
      var names := scope.Keys;
      while names != {}
        invariant names <= scope.Keys && rewritten.Keys == scope.Keys
        invariant forall n :: n in scope && n !in names ==> rewritten[n] == (if scope[n] == targetUrl then replacement else scope[n])
        invariant forall n :: n in names ==> rewritten[n] == scope[n]
        invariant changed == exists n :: n in scope && n !in names && scope[n] == targetUrl
        decreases names
      {
        var n :| n in names;
        if rewritten[n] == targetUrl {
          rewritten := rewritten[n := replacement];
          changed := true;
        }
        names := names - {n};
      }
    }

    /**
     * The rewrite loop of `replace` for a known target URL: the lock becomes
     * `Replaced`, and the result says whether the URL occurred at all.
     */
    method ReplaceUrl(targetUrl: string, replacement: string) returns (replaced: bool)
      modifies this
      ensures installs == Replaced(old(installs), targetUrl, replacement)
      ensures replaced == Touches(old(installs), targetUrl)
      ensures installing == old(installing) && newInstalls == old(newInstalls) && added == old(added)
    {
      ghost var res := installs;
      ghost var done: set<string> := {};
      var pkgUrls := installs.Keys;
      replaced := false;
      while pkgUrls != {}
        invariant pkgUrls + done == res.Keys && pkgUrls !! done
        invariant installs == Partial(res, done, targetUrl, replacement)
        invariant replaced == TouchedIn(res, done, targetUrl)
        invariant installing == old(installing) && newInstalls == old(newInstalls) && added == old(added)
        decreases pkgUrls
      {
        var pkgUrl :| pkgUrl in pkgUrls;
        ReplaceStep(res, done, pkgUrl, targetUrl, replacement);
        TouchedInStep(res, done, pkgUrl, targetUrl);
        var scope, changed := RewriteNames(installs[pkgUrl], targetUrl, replacement);
        installs := installs[pkgUrl := scope];
        if changed {
          replaced := true;
        }
        if pkgUrl == targetUrl {
          installs := installs[replacement := installs[pkgUrl]];
          installs := installs - {pkgUrl};
          replaced := true;
        }
        pkgUrls := pkgUrls - {pkgUrl};
        done := done + {pkgUrl};
      }
      ReplaceDone(res, targetUrl, replacement);
      assert done == res.Keys;
    }

    /**
     * `replace(target, replacePkgUrl)`: a URL target is replaced directly; a
     * package target replaces its best installed match, and without one the
     * result is `false` when the replacement is already a scope and an error
     * otherwise.
     */
    method Replace(target: InstallTarget, replacePkgUrl: string, env: InstallEnv) returns (r: Result<bool>)
      requires StrictOrder(env.sv)
      modifies this
      ensures target.UrlTarget? ==>
        r == Ok(Touches(old(installs), target.href)) && installs == Replaced(old(installs), target.href, replacePkgUrl)
      ensures target.PkgTarget? && (forall u :: u in old(installs) ==> !Candidate(u, target.target, env)) ==>
        installs == old(installs) &&
        r == (if replacePkgUrl in old(installs) then Ok(false) else Err(PlainError("No installation found to replace.")))
      ensures target.PkgTarget? && (exists u :: u in old(installs) && Candidate(u, target.target, env)) ==>
        exists best :: IsBestMatch(Some(best), old(installs).Keys, target.target, env) &&
          r == Ok(Touches(old(installs), env.pkgToUrl(best))) && installs == Replaced(old(installs), env.pkgToUrl(best), replacePkgUrl)
      ensures installing == old(installing) && newInstalls == old(newInstalls) && added == old(added)
    {
      var targetUrl: string;
      if target.UrlTarget? {
        targetUrl := target.href;
      } else {
        var best := GetBestMatch(target.target, env);
        if best.None? {
          if replacePkgUrl in installs {
            return Ok(false);
          }
          return Err(PlainError("No installation found to replace."));
        }
        targetUrl := env.pkgToUrl(best.value);
      }
      var replaced := ReplaceUrl(targetUrl, replacePkgUrl);
      return Ok(replaced);
    }
 
    /**
     * One `visitInstall` of a pair not yet visited: install it, then load
     * the dependency list of the package it resolved to; the result is the
     * pairs to visit next, which keep every visited pair expanded. What the
     * lock kept of `start` before the visit, it keeps after it.
     */
    method Visit(v: (string, string), ghost visited: set<(string, string)>, ghost pending: set<(string, string)>,
                 ghost start: Resolutions, env: InstallEnv)
      returns (children: Result<set<(string, string)>>)
      requires v !in visited
      requires Keeps(start, installs, opts.reset)
      requires forall w :: w in visited ==> Expanded(installs, w, env, visited + (pending + {v}))
      modifies this
      ensures installing == old(installing)
      ensures Keeps(start, installs, opts.reset)
      ensures children.Ok? ==> forall w :: w in visited + {v} ==> Expanded(installs, w, env, (visited + {v}) + (pending + children.value))
    {
      ghost var before := installs;
      var installed := Install(v.0, v.1, installBaseUrl, env);
      KeepsTrans(start, before, installs, opts.reset);
      if installed.Err? {
        return Err(installed.error);
      }
      var installPkgUrl := InstallPkgUrl(installed.value);
      var deps := env.depList(installPkgUrl);
      if deps.Err? {
        return Err(deps.error);
      }
      VisitStep(before, visited, pending, v, installed.value, env);
      children := Ok((set d | d in deps.value :: (d, installPkgUrl)) + (set n | n in ScopeOf(installs, installPkgUrl) :: (n, installPkgUrl)));
    }

    /**
     * The pruning step of `lockInstall`: the lock cut down to the visited
     * pairs, which keep their resolutions and stay closed.
     */
    method PruneTo(order: seq<(string, string)>, ghost visited: set<(string, string)>, env: InstallEnv)
      requires forall w :: w in visited <==> w in order
      requires Closed(installs, visited, env)
      modifies this
      ensures installing == old(installing)
      ensures Closed(installs, visited, env)
      ensures forall p, n :: p in installs && n in installs[p] ==> (n, p) in visited
      ensures forall n, p :: (n, p) in visited ==> Resolution(installs, n, p) == Resolution(old(installs), n, p)
    {
      forall i | 0 <= i < |order|
        ensures order[i] in visited && order[i].1 in installs
      {
        assert order[i] in visited;
        assert Expanded(installs, order[i], env, visited);
        assert Resolution(installs, order[i].0, order[i].1).Some?;
      }
      var pruned := PruneResolutions(installs, order);
      PruneKeepsClosure(installs, pruned.value, order, visited, env);
      forall n, p | (n, p) in visited ensures Resolution(pruned.value, n, p) == Resolution(installs, n, p) {
        var i :| 0 <= i < |order| && order[i] == (n, p);
      }
      installs := pruned.value;
    }

    /**
     * `lockInstall(names, pkgUrl, prune)`: visits every (name, scope) pair
     * reachable from the roots at most once, installing it and then the
     * dependencies and already-locked names of the package it resolved
     * to; with `prune` the lock is cut down to the visited pairs. The
     * concurrent visits are taken one at a time, and `fuel` bounds their
     * number (`complete` is false when it ran out). `order` is
     * `[...visited]`, the pairs in the order they were first visited, which
     * the prune list is built from; `lockInstall` itself returns nothing.
     * Without `prune` no binding of the lock is lost, and unless resetting
     * every locked resolution, of a visited pair above all, is kept.
     */
    method LockInstall(roots: set<string>, pkgUrl: string, prune: bool, fuel: nat, env: InstallEnv)
      returns (r: Result<()>, visited: set<(string, string)>, complete: bool, order: seq<(string, string)>)
      modifies this
      ensures installing == old(installing)
      ensures VisitOrder(order, visited)
      ensures r.Ok? && complete ==> forall n :: n in roots ==> (n, pkgUrl) in visited
      ensures r.Ok? && complete ==> Closed(installs, visited, env)
      ensures r.Ok? && complete && prune ==> forall p, n :: p in installs && n in installs[p] ==> (n, p) in visited
      ensures !prune ==> Keeps(old(installs), installs, opts.reset)
      ensures !opts.reset ==> forall n, p :: (n, p) in visited && Locked(old(installs), n, p) ==>
        Resolution(installs, n, p) == Resolution(old(installs), n, p)
    {
      visited, order := {}, [];
      var pending := set n | n in roots :: (n, pkgUrl);
      var steps := fuel;
      while pending != {}
        invariant installing == old(installing)
        invariant VisitOrder(order, visited)
        invariant forall n :: n in roots ==> (n, pkgUrl) in visited + pending
        invariant forall v :: v in visited ==> Expanded(installs, v, env, visited + pending)
        invariant Keeps(old(installs), installs, opts.reset)
        decreases steps
      {
        if steps == 0 {
          return Ok(()), visited, false, order;
        }
        steps := steps - 1;
        var v :| v in pending;
        ghost var old_pending := pending;
        pending := pending - {v};
        if v !in visited {
          assert visited + (pending + {v}) == visited + old_pending;
          var children := Visit(v, visited, pending, old(installs), env);
          if children.Err? {
            return Err(children.error), visited, false, order;
          }
          VisitOrderStep(order, visited, v);
          pending := pending + children.value;
          visited := visited + {v};
          order := order + [v];
        }
      }
      complete := true;
      r := Ok(());
      if prune {
        PruneTo(order, visited, env);
      }
    }
 
    /**
     * The `finishInstall` callback: a failed install only ends the
     * transaction; a successful one re-traces the lock from the base
     * package's dependencies (dev included) and its locked builtins,
     * pruning it, when pruning is asked for or package.json changed, then
     * saves the lock when there is one or one is wanted. `pjsonUpdated`
     * stands for what `updatePjson` reported. An error while re-tracing
     * propagates and leaves the transaction open.
     */
    method FinishInstall(success: bool, pjsonUpdated: bool, fuel: nat, env: InstallEnv)
      returns (r: Result<bool>, visited: set<(string, string)>, complete: bool)
      modifies this
      ensures !success ==> r == Ok(false) && !installing && installs == old(installs)
      ensures success && r.Ok? ==> !installing
      ensures success && r.Ok? ==>
        r.value == ((SavesPjson(opts, hasLock) && pjsonUpdated) || ((hasLock || opts.lock) && env.saveLock(installs)))
      ensures success && r.Err? ==> installing == old(installing)
      ensures success && !opts.prune && !(SavesPjson(opts, hasLock) && pjsonUpdated) ==> r.Ok? && installs == old(installs)
      ensures success && r.Ok? && complete && (opts.prune || (SavesPjson(opts, hasLock) && pjsonUpdated)) ==>
        && env.devDepList(installBaseUrl).Ok?
        && (forall d :: d in env.devDepList(installBaseUrl).value ==> (d, installBaseUrl) in visited)
        && Closed(installs, visited, env)
        && (forall p, n :: p in installs && n in installs[p] ==> (n, p) in visited)
    {
      visited, complete := {}, true;
      if !success {
        installing := false;
        return Ok(false), visited, complete;
      }
      var pjsonChanged := SavesPjson(opts, hasLock) && pjsonUpdated;
      if opts.prune || pjsonChanged {
        var deps := env.devDepList(installBaseUrl);
        if deps.Err? {
          return Err(deps.error), visited, false;
        }
        var existingBuiltins := set n | n in ScopeOf(installs, installBaseUrl) && n in env.builtins;
        var roots := (set d | d in deps.value) + existingBuiltins;
        var traced;
        var order;
        traced, visited, complete, order := LockInstall(roots, installBaseUrl, true, fuel, env);
        if traced.Err? {
          return Err(traced.error), visited, false;
        }
      }
      var lockChanged := (hasLock || opts.lock) && env.saveLock(installs);
      installing := false;
      return Ok(pjsonChanged || lockChanged), visited, complete;
    }
  }
}
