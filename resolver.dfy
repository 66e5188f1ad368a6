/**
 * The `Resolver` of src/install/resolver.ts: its lookup URL, the
 * package-configuration cache, dependency lists, existence checks,
 * version resolution through the shared range memo, and `resolveExports`.
 */
module Resolver {
  import opened Wrappers
  import opened Strings
  import opened Package
  import opened Fetch
  import opened Manifest
  import opened RangeLookup
  import opened ExportsMap
  import opened ExportsFilter
  import JspmIo

  /**
   * `pkgToLookupUrl(pkg, edge)`: the version is never `undefined` here,
   * so it is always appended after '@', even when it is empty.
   */
  function PkgToLookupUrl(pkg: ExactPackage, edge: bool): (r: string)
    ensures StartsWith(r, JspmIo.CdnUrl + pkg.registry + ":" + pkg.name)
    ensures EndsWith(r, "@" + pkg.version)
  {
    var r := JspmIo.CdnUrl + pkg.registry + ":" + pkg.name + "@" + pkg.version;
    assert r == (JspmIo.CdnUrl + pkg.registry + ":" + pkg.name) + ("@" + pkg.version);
    r
  }

  /**
   * The resolver always asks for the URL the jspm.io provider uses for an
   * `edge` lookup: for the latest version (the empty range) that is the
   * URL ending in a bare '@'.
   */
  lemma ResolverLookupIsEdge(registry: string, name: string, range: string, edge: bool)
    ensures PkgToLookupUrl(ExactPackage(registry, name, range), edge) == JspmIo.LookupUrl(registry, name, range, true)
  {
  }

  /**
   * `lookupRange` of the resolver for a cache slot: the slot's range text,
   * a major included, is always appended after '@'.
   */
  function Lookup(registry: string, name: string, fetch: string -> TextResponse): LookupKey -> Outcome
  {
    (k: LookupKey) => LookupRange(registry, name, fetch(PkgToLookupUrl(ExactPackage(registry, name, k.text), false)))
  }

  /** The `Content-Type` test `^application\/json(;|$)`; a missing header fails it. */
  predicate JsonContentType(contentType: Option<string>)
  {
    contentType.Some? &&
    (contentType.value == "application/json" || StartsWith(contentType.value, "application/json;"))
  }

  /**
   * How one fetch of `package.json` settles the configuration promise:
   * 404 and 406 store `null`; another failing status rejects with a
   * `JspmError`; a success stores the parsed body, or `null` when the
   * response has headers whose content type is not JSON, or when the body
   * does not parse. A response without a headers object is parsed as is.
   */
  function ConfigOutcome(res: JsonResponse<PackageConfig>): (r: Result<Option<PackageConfig>>)
    ensures r.Err? <==> !IsOk(res.status) && res.status != 404 && res.status != 406
    ensures r.Err? ==> r.error.JspmError?
    ensures r.Ok? && r.value.Some? <==>
      IsOk(res.status) && (!res.headers || JsonContentType(res.contentType)) && res.body.Some?
    ensures r.Ok? && r.value.Some? ==> r.value == res.body
  {
    if IsOk(res.status) then
      if res.headers && !JsonContentType(res.contentType) then Ok(None)
      else if res.body.None? then Ok(None)
      else Ok(res.body)
    else if res.status == 404 || res.status == 406 then Ok(None)
    else Err(JspmError("Invalid status code reading package config", ""))
  }

  /** `exists(url)` read off the status: 200/304 true, 404/406 false, anything else throws. */
  function Exists(status: int): (r: Result<bool>)
    ensures r == Ok(true) <==> IsOk(status)
    ensures r == Ok(false) <==> status == 404 || status == 406
    ensures r.Err? ==> r.error.JspmError?
  {
    if IsOk(status) then Ok(true)
    else if status == 404 || status == 406 then Ok(false)
    else Err(JspmError("Invalid status code", ""))
  }

  /** The index of the first occurrence of `x`. */
  function FirstIndex(s: seq<string>, x: string): (i: nat)
    requires x in s
    ensures i < |s| && s[i] == x && x !in s[..i]
  {
    if s[0] == x then 0 else FirstIndex(s[1..], x) + 1
  }

  /**
   * `[...new Set(s)]`: each element once, in the order of its first
   * occurrence.
   */
  function Dedup(s: seq<string>): (r: seq<string>)
    ensures forall x :: x in r <==> x in s
    ensures forall i, j :: 0 <= i < j < |r| ==> r[i] != r[j]
    ensures forall i, j :: 0 <= i < j < |r| ==> FirstIndex(s, r[i]) < FirstIndex(s, r[j])
  {
    if |s| == 0 then []
    else
      var init := s[..|s| - 1];
      var last := s[|s| - 1];
      var r := Dedup(init);
      assert s == init + [last];
      FirstIndexExtends(init, last);
      if last in init then r else r + [last]
  }

  lemma FirstIndexExtends(init: seq<string>, last: string)
    ensures forall x :: x in init ==> FirstIndex(init + [last], x) == FirstIndex(init, x)
    ensures last !in init ==> FirstIndex(init + [last], last) == |init|
  {
    forall x | x in init ensures FirstIndex(init + [last], x) == FirstIndex(init, x) {
      FirstIndexPrefix(init, [last], x);
    }
    if last !in init {
      assert (init + [last])[..|init|] == init;
    }
  }

  lemma {:induction false} FirstIndexPrefix(a: seq<string>, b: seq<string>, x: string)
    requires x in a
    ensures FirstIndex(a + b, x) == FirstIndex(a, x)
  {
    if a[0] != x {
      assert (a + b)[1..] == a[1..] + b;
      FirstIndexPrefix(a[1..], b, x);
    }
  }

  /**
   * `getDepList`: the names in `dependencies`, then (with `dev`)
   * `devDependencies`, then `peerDependencies` and
   * `optionalDependencies`, each once.
   */
  function DepList(pcfg: PackageConfig, dev: bool): (r: seq<string>)
    ensures forall x :: x in r <==>
      (Get(pcfg.dependencies, x).Some? || (dev && Get(pcfg.devDependencies, x).Some?) ||
       Get(pcfg.peerDependencies, x).Some? || Get(pcfg.optionalDependencies, x).Some?)
    ensures forall i, j :: 0 <= i < j < |r| ==> r[i] != r[j]
  {
    KeysGet(pcfg.dependencies);
    KeysGet(pcfg.devDependencies);
    KeysGet(pcfg.peerDependencies);
    KeysGet(pcfg.optionalDependencies);
    Dedup(Keys(pcfg.dependencies) + (if dev then Keys(pcfg.devDependencies) else []) +
          Keys(pcfg.peerDependencies) + Keys(pcfg.optionalDependencies))
  }

  lemma KeysGet(d: Dict<string>)
    ensures forall x :: x in Keys(d) <==> Get(d, x).Some?
  {
    forall x ensures x in Keys(d) <==> Get(d, x).Some? {
      GetFinds(d, x);
      if x in Keys(d) {
        var i :| 0 <= i < |Keys(d)| && Keys(d)[i] == x;
      }
    }
  }

  /** The configuration outcome the caches hold for `pkgUrl`: a rejection, or the stored value. */
  function Stored(promises: map<string, Result<()>>, pcfgs: map<string, Option<PackageConfig>>, pkgUrl: string)
    : Result<Option<PackageConfig>>
  {
    if pkgUrl in promises && promises[pkgUrl].Err? then Err(promises[pkgUrl].error)
    else if pkgUrl in pcfgs then Ok(pcfgs[pkgUrl])
    else Ok(None)
  }

  /** A package config with none of its fields: the `{}` of `getPackageConfig(pkgUrl) || {}`. */
  const EmptyConfig := PackageConfig(None, None, None, None, None, [], [], [], [])

  class Resolver {
    var resolveCache: map<string, Memo>
    /** The settled `pcfgPromises`: fulfilled, or rejected with an error. */
    var pcfgPromises: map<string, Result<()>>
    /** `pcfgs`: `None` is a cached `null`, a configuration known to be absent. */
    var pcfgs: map<string, Option<PackageConfig>>

    /** A configuration is stored exactly for the URLs whose promise was fulfilled. */
    ghost predicate Valid()
      reads this
    {
      forall u :: u in pcfgs <==> u in pcfgPromises && pcfgPromises[u].Ok?
    }

    constructor ()
      ensures Valid()
      ensures resolveCache == map[] && pcfgPromises == map[] && pcfgs == map[]
    {
      resolveCache := map[];
      pcfgPromises := map[];
      pcfgs := map[];
    }

    /**
     * `getPackageConfig(pkgUrl)`: a URL without a trailing '/' throws.
     * Otherwise the configuration is fetched only when no promise exists
     * for the URL yet (`fetched`), and the answer is what the caches then
     * hold, so a later call returns the same answer without fetching.
     */
    method GetPackageConfig(pkgUrl: string, fetch: string -> JsonResponse<PackageConfig>)
      returns (r: Result<Option<PackageConfig>>, fetched: bool)
      requires Valid()
      modifies this
      ensures Valid()
      ensures resolveCache == old(resolveCache)
      ensures !EndsWith(pkgUrl, "/") ==> r.Err? && r.error.PlainError? && unchanged(this)
      ensures fetched <==> EndsWith(pkgUrl, "/") && pkgUrl !in old(pcfgPromises)
      ensures fetched ==>
        r == ConfigOutcome(fetch(pkgUrl + "package.json")) &&
        pcfgPromises == old(pcfgPromises)[pkgUrl := if r.Ok? then Ok(()) else Err(r.error)] &&
        pcfgs == (if r.Ok? then old(pcfgs)[pkgUrl := r.value] else old(pcfgs))
      ensures !fetched ==> pcfgPromises == old(pcfgPromises) && pcfgs == old(pcfgs)
      ensures EndsWith(pkgUrl, "/") ==> pkgUrl in pcfgPromises && r == Stored(pcfgPromises, pcfgs, pkgUrl)
    {
      fetched := false;
      if !EndsWith(pkgUrl, "/") {
        return Err(PlainError("Internal Error: Package URL must end in \"/\"")), false;
      }
      if pkgUrl in pcfgs && pcfgs[pkgUrl].Some? {
        return Ok(pcfgs[pkgUrl]), false;
      }
      if pkgUrl !in pcfgPromises {
        fetched := true;
        var outcome := ConfigOutcome(fetch(pkgUrl + "package.json"));
        if outcome.Ok? {
          pcfgs := pcfgs[pkgUrl := outcome.value];
          pcfgPromises := pcfgPromises[pkgUrl := Ok(())];
        } else {
          pcfgPromises := pcfgPromises[pkgUrl := Err(outcome.error)];
        }
      }
      r := Stored(pcfgPromises, pcfgs, pkgUrl);
    }

    /**
     * `getDepList(pkgUrl, dev)`: a failed configuration load propagates,
     * an absent configuration has no dependencies, and otherwise the
     * result is `DepList`.
     */
    method GetDepList(pkgUrl: string, dev: bool, fetch: string -> JsonResponse<PackageConfig>)
      returns (r: Result<seq<string>>)
      requires Valid()
      modifies this
      ensures Valid()
      ensures resolveCache == old(resolveCache)
      ensures EndsWith(pkgUrl, "/") ==>
        var stored := Stored(pcfgPromises, pcfgs, pkgUrl);
        && (r.Err? <==> stored.Err?)
        && (stored.Ok? && stored.value.None? ==> r == Ok([]))
        && (stored.Ok? && stored.value.Some? ==> r == Ok(DepList(stored.value.value, dev)))
      ensures !EndsWith(pkgUrl, "/") ==> r.Err?
    {
      var pcfg, _ := GetPackageConfig(pkgUrl, fetch);
      if pcfg.Err? {
        return Err(pcfg.error);
      }
      if pcfg.value.None? {
        return Ok([]);
      }
      return Ok(DepList(pcfg.value.value, dev));
    }

    /**
     * `resolveLatestTarget(target)`: the exact-version shortcut needs no
     * lookup and touches no cache; otherwise the `registry:name` memo is
     * created if missing and the ranges resolve as `ResolveRanges` does,
     * except that no resolution at all throws a `JspmError`.
     */
    method ResolveLatestTarget(target: PackageTarget, fetch: string -> TextResponse)
      returns (r: Result<ExactPackage>)
      modifies this
      ensures pcfgs == old(pcfgs) && pcfgPromises == old(pcfgPromises)
      ensures ExactShortcut(target).Some? ==>
        r == Ok(ExactShortcut(target).value) && resolveCache == old(resolveCache)
      ensures ExactShortcut(target).None? ==>
        var key := target.registry + ":" + target.name;
        && key in resolveCache
        && resolveCache == old(resolveCache)[key := resolveCache[key]]
        && exists outcome ::
             && MemoisedResolution(target.ranges, JspmIo.MemoAt(old(resolveCache), key), resolveCache[key],
                                   Lookup(target.registry, target.name, fetch), outcome)
             && r == Settle(outcome)
    {
      var shortcut := ExactShortcut(target);
      if shortcut.Some? {
        return Ok(shortcut.value);
      }
      var key := target.registry + ":" + target.name;
      var memo := JspmIo.MemoAt(resolveCache, key);
      var outcome, memo', fetched := ResolveRanges(target.ranges, memo, Lookup(target.registry, target.name, fetch));
      resolveCache := resolveCache[key := memo'];
      r := Settle(outcome);
    }

    /**
     * `resolveExports(pkgUrl, env, subpathFilter)`: the exports map of the
     * package's configuration (`{}` when there is none), narrowed to the
     * subpath filter when one is given. A failed configuration load
     * propagates. `unfiltered` is the map before narrowing.
     */
    method ResolveExports(pkgUrl: string, env: seq<string>, subpathFilter: Option<string>,
                          fetch: string -> JsonResponse<PackageConfig>)
      returns (r: Result<Dict<ExportsTarget>>, ghost unfiltered: Dict<ExportsTarget>)
      requires Valid()
      modifies this
      ensures Valid()
      ensures resolveCache == old(resolveCache)
      ensures EndsWith(pkgUrl, "/") ==> (r.Err? <==> Stored(pcfgPromises, pcfgs, pkgUrl).Err?)
      ensures !EndsWith(pkgUrl, "/") ==> r.Err?
      ensures r.Ok? && subpathFilter.Some? && subpathFilter.value != "" ==>
        forall k :: k != "." && !StartsWith(k, "./") ==> Get(r.value, k).None?
      ensures r.Ok? && (subpathFilter.None? || subpathFilter.value == "") &&
              EndsWith(pkgUrl, "/") && !HasExports(Stored(pcfgPromises, pcfgs, pkgUrl).value) ==>
        (exists s :: s != "" && Get(r.value, ".") == Some(Str(s))) &&
        (exists s :: s != "" && Get(r.value, "./") == Some(Str(s)))
      ensures r.Ok? ==> ExportsFor(Stored(pcfgPromises, pcfgs, pkgUrl).value.UnwrapOr(EmptyConfig), env, unfiltered)
      ensures r.Ok? && (subpathFilter.None? || subpathFilter.value == "") ==> r.value == unfiltered
      ensures r.Ok? && subpathFilter.Some? && subpathFilter.value != "" ==>
        forall k :: Get(r.value, k) == Manifest.Latest(ExportsFilter.AllWrites(unfiltered, "./" + subpathFilter.value), k)
    {
      unfiltered := [];
      var loaded, _ := GetPackageConfig(pkgUrl, fetch);
      if loaded.Err? {
        return Err(loaded.error), unfiltered;
      }
      var pcfg := loaded.value.UnwrapOr(EmptyConfig);
      var exports := ExportsOf(pcfg, env);
      unfiltered := exports;
      var filtered := FilterExports(exports, subpathFilter);
      return Ok(filtered), unfiltered;
    }
  }

  /**
   * `exports` is the exports map of the configuration `pcfg` before any
   * filtering, as far as the configuration determines it.
   */
  ghost predicate ExportsFor(pcfg: PackageConfig, env: seq<string>, exports: Dict<ExportsTarget>)
  {
    && (pcfg.exports.Some? && pcfg.exports.value.Str? ==> exports == [(".", pcfg.exports.value)])
    && (pcfg.exports.Some? && !pcfg.exports.value.Null? && !pcfg.exports.value.Str? && !AllDotKeys(pcfg.exports.value) ==>
          exports == [(".", AsTarget(Exports.GetExportsTarget(pcfg.exports.value, env)))])
    && (pcfg.exports.Some? && pcfg.exports.value.Arr? && AllDotKeys(pcfg.exports.value) ==> exports == [])
    && (pcfg.exports.Some? && pcfg.exports.value.Obj? && AllDotKeys(pcfg.exports.value) && DistinctKeys(pcfg.exports.value.entries) ==>
          |exports| == |pcfg.exports.value.entries| &&
          forall i :: 0 <= i < |exports| ==>
            exports[i] == (pcfg.exports.value.entries[i].0, AsTarget(Exports.GetExportsTarget(pcfg.exports.value.entries[i].1, env))))
    && (pcfg.exports.None? || pcfg.exports.value.Null? ==>
          Get(exports, ".") == Some(Str(OrDefault(RemappedMain(MainEntry(pcfg), BrowserReplacements(pcfg)), "."))) &&
          Get(exports, "./") == Some(Str(OrDefault(Manifest.Latest(SubpathReplacements(BrowserReplacements(pcfg)), "./"), "./"))))
  }

  /** Whether a loaded configuration has an `exports` field that is not `null`. */
  predicate HasExports(loaded: Option<PackageConfig>)
  {
    loaded.Some? && loaded.value.exports.Some? && !loaded.value.exports.value.Null?
  }

  /** The resolver throws where the jspm.io provider returns `null`. */
  function Settle(outcome: Outcome): (r: Result<ExactPackage>)
    ensures outcome.Ok? && outcome.value.Some? <==> r.Ok?
    ensures r.Ok? ==> outcome == Ok(Some(r.value))
    ensures outcome == Ok(None) ==> r.Err? && r.error.JspmError?
    ensures outcome.Err? ==> r == Err(outcome.error)
  {
    match outcome
    case Err(e) => Err(e)
    case Ok(None) => Err(JspmError("Unable to resolve package", ""))
    case Ok(Some(pkg)) => Ok(pkg)
  }

  /**
   * The exports map of `resolveExports` before filtering: `exports` when
   * the field is present and not `null`, the main/browser entries
   * otherwise.
   */
  method ExportsOf(pcfg: PackageConfig, env: seq<string>) returns (exports: Dict<ExportsTarget>)
    ensures pcfg.exports.Some? && pcfg.exports.value.Str? ==> exports == [(".", pcfg.exports.value)]
    ensures pcfg.exports.Some? && !pcfg.exports.value.Null? && !pcfg.exports.value.Str? && !AllDotKeys(pcfg.exports.value) ==>
      exports == [(".", AsTarget(Exports.GetExportsTarget(pcfg.exports.value, env)))]
    ensures pcfg.exports.Some? && pcfg.exports.value.Arr? && AllDotKeys(pcfg.exports.value) ==> exports == []
    ensures pcfg.exports.Some? && pcfg.exports.value.Obj? && AllDotKeys(pcfg.exports.value) && DistinctKeys(pcfg.exports.value.entries) ==>
      |exports| == |pcfg.exports.value.entries| &&
      forall i :: 0 <= i < |exports| ==>
        exports[i] == (pcfg.exports.value.entries[i].0, AsTarget(Exports.GetExportsTarget(pcfg.exports.value.entries[i].1, env)))
    ensures pcfg.exports.None? || pcfg.exports.value.Null? ==>
      Get(exports, ".") == Some(Str(OrDefault(RemappedMain(MainEntry(pcfg), BrowserReplacements(pcfg)), "."))) &&
      Get(exports, "./") == Some(Str(OrDefault(Manifest.Latest(SubpathReplacements(BrowserReplacements(pcfg)), "./"), "./")))
  {
    if pcfg.exports.Some? && !pcfg.exports.value.Null? {
      exports := ConditionalExports(pcfg.exports.value, env);
    } else {
      exports := LegacyExports(pcfg);
    }
  }
}
