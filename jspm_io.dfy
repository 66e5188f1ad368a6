/**
 * The jspm.io provider (src/providers/jspm.io.ts): package URLs on
 * `https://ga.jspm.io/` and version lookups against the same CDN, memoised
 * in a module-level cache.
 */
module JspmIo {
  import opened Wrappers
  import opened Strings
  import opened Package
  import opened Fetch
  import opened RangeLookup

  const CdnUrl: string := "https://ga.jspm.io/"

  /** `pkgToUrl(pkg)`: the package's folder on the CDN. */
  function PkgUrl(pkg: ExactPackage): (r: string)
    ensures StartsWith(r, CdnUrl) && EndsWith(r, "/")
  {
    PkgToUrl(pkg, CdnUrl)
  }

  /**
   * `parseUrlPkg(url)`: `None` off the CDN; on it, the captures of the
   * package-URL expression, all absent when it does not match.
   */
  function ParseUrlPkg(url: string): (r: Option<LoosePkg>)
    ensures r.None? <==> !StartsWith(url, CdnUrl)
    ensures r.Some? ==> r.value == MatchExactPkg(url[|CdnUrl|..])
  {
    if !StartsWith(url, CdnUrl) then None else Some(MatchExactPkg(url[|CdnUrl|..]))
  }

  /** A package URL that `pkgToUrl` builds reads back as the same package. */
  lemma {:induction false} UrlPkgRoundTrip(pkg: ExactPackage)
    requires IsLowerWord(pkg.registry) && ValidPkgName(pkg.name)
    requires |pkg.version| > 0 && '/' !in pkg.version
    ensures ParseUrlPkg(PkgUrl(pkg)) == Some(LoosePkg(Some(pkg.registry), Some(pkg.name), Some(pkg.version)))
  {
    var url := PkgUrl(pkg);
    assert url == CdnUrl + (PkgToStr(pkg) + "/");
    assert url[|CdnUrl|..] == PkgToStr(pkg) + "/";
    ExactPkgRoundTrip(pkg);
  }

  /**
   * `pkgToLookupUrl({ registry, name, version }, edge)`: an empty version is
   * falsy, so it is replaced by a bare `@` only for an `edge` lookup.
   */
  function LookupUrl(registry: string, name: string, version: string, edge: bool): (r: string)
    ensures StartsWith(r, CdnUrl + registry + ":" + name)
  {
    CdnUrl + registry + ":" + name + (if version != "" then "@" + version else if edge then "@" else "")
  }

  /** The `edge` flag changes the lookup URL exactly for the latest-version lookup. */
  lemma EdgeOnlyForLatest(registry: string, name: string, version: string)
    ensures LookupUrl(registry, name, version, true) != LookupUrl(registry, name, version, false) <==> version == ""
  {
    if version == "" {
      assert |LookupUrl(registry, name, version, true)| != |LookupUrl(registry, name, version, false)|;
    }
  }

  /**
   * The `version` `lookupRange` passes to `pkgToLookupUrl` for a cache
   * slot. A major is passed as the number `range.version.major`, which
   * `pkg.version ?` reads as falsy when it is 0: as written (`fixed` false)
   * a major-0 slot asks for no version; fixed, every slot sends its text.
   */
  function LookupVersion(k: LookupKey, fixed: bool): (v: string)
    ensures fixed ==> v == k.text
    ensures !fixed && k.kind == MajorLookup && k.text == "0" ==> v == ""
    ensures !(k.kind == MajorLookup && k.text == "0") ==> v == k.text
  {
    if !fixed && k.kind == MajorLookup && k.text == "0" then "" else k.text
  }

  /** `lookupRange` of this provider: a fetch of the slot's lookup URL, read by the shared status rules. */
  function Lookup(registry: string, name: string, unstable: bool, fixed: bool, fetch: string -> TextResponse): LookupKey -> Outcome
  {
    (k: LookupKey) => LookupRange(registry, name, fetch(LookupUrl(registry, name, LookupVersion(k, fixed), unstable)))
  }

  /**
   * A slot's lookup is `null` exactly when its URL answers 404, and a
   * version it finds belongs to the looked-up package.
   */
  lemma LookupOutcome(registry: string, name: string, unstable: bool, fixed: bool, fetch: string -> TextResponse, k: LookupKey)
    ensures var r := Lookup(registry, name, unstable, fixed, fetch)(k);
      (r == Ok(None) <==> fetch(LookupUrl(registry, name, LookupVersion(k, fixed), unstable)).status == 404) &&
      (r.Ok? && r.value.Some? ==> r.value.value.registry == registry && r.value.value.name == name)
  {
    var res := fetch(LookupUrl(registry, name, LookupVersion(k, fixed), unstable));
    assert Lookup(registry, name, unstable, fixed, fetch)(k) == LookupRange(registry, name, res);
  }

  /**
   * As written, the lookup for major 0 fetches the URL of the latest
   * version, so `npm:x@0` resolves to the latest release of `x`.
   */
  lemma MajorZeroAsWritten(registry: string, name: string, unstable: bool, fetch: string -> TextResponse)
    ensures LookupUrl(registry, name, LookupVersion(LookupKey(MajorLookup, "0"), false), unstable)
         == LookupUrl(registry, name, LookupVersion(LookupKey(Latest, ""), false), unstable)
    ensures Lookup(registry, name, unstable, false, fetch)(LookupKey(MajorLookup, "0"))
         == Lookup(registry, name, unstable, false, fetch)(LookupKey(Latest, ""))
  {
  }

  /**
   * Fixed, a major slot asks for `@major`, which is never the URL of the
   * latest-version lookup.
   */
  lemma MajorLookupCorrected(registry: string, name: string, major: string, unstable: bool)
    requires major != ""
    ensures LookupUrl(registry, name, LookupVersion(LookupKey(MajorLookup, major), true), unstable)
         == CdnUrl + registry + ":" + name + "@" + major
    ensures LookupUrl(registry, name, LookupVersion(LookupKey(MajorLookup, major), true), unstable)
         != LookupUrl(registry, name, LookupVersion(LookupKey(Latest, ""), true), unstable)
  {
    var fixedUrl := LookupUrl(registry, name, LookupVersion(LookupKey(MajorLookup, major), true), unstable);
    var latest := LookupUrl(registry, name, "", unstable);
    assert |latest| <= |CdnUrl + registry + ":" + name| + 1;
    assert |fixedUrl| == |CdnUrl + registry + ":" + name| + 1 + |major|;
  }

  /** The memo a cache holds for `key`, empty when it has none yet. */
  function MemoAt(cache: map<string, Memo>, key: string): Memo
  {
    if key in cache then cache[key] else map[]
  }

  /** The module-level `resolveCache` and the functions that use it. */
  class Provider {
    var resolveCache: map<string, Memo>

    constructor ()
      ensures resolveCache == map[]
    {
      resolveCache := map[];
    }

    /** `clearResolveCache()`. */
    method ClearResolveCache()
      modifies this
      ensures resolveCache == map[]
    {
      resolveCache := map[];
    }

    /**
     * `resolveLatestTarget(target, unstable)`: the exact-version shortcut
     * touches no cache; otherwise the `registry:name` memo is created if
     * missing and resolution proceeds as `ResolveRanges`. `Ok(None)` is the
     * `null` this provider returns when no range resolves. `fixed` selects
     * the corrected major-0 lookup (`LookupVersion`).
     */
    method ResolveLatestTarget(target: PackageTarget, unstable: bool, fixed: bool, fetch: string -> TextResponse)
      returns (r: Outcome)
      modifies this
      ensures ExactShortcut(target).Some? ==>
        r == Ok(ExactShortcut(target)) && resolveCache == old(resolveCache)
      ensures ExactShortcut(target).None? ==>
        var key := target.registry + ":" + target.name;
        && key in resolveCache
        && resolveCache == old(resolveCache)[key := resolveCache[key]]
        && MemoisedResolution(target.ranges, MemoAt(old(resolveCache), key), resolveCache[key],
                              Lookup(target.registry, target.name, unstable, fixed, fetch), r)
    {
      var shortcut := ExactShortcut(target);
      if shortcut.Some? {
        return Ok(shortcut);
      }
      var key := target.registry + ":" + target.name;
      var memo := MemoAt(resolveCache, key);
      var memo', fetched;
      r, memo', fetched := ResolveRanges(target.ranges, memo, Lookup(target.registry, target.name, unstable, fixed, fetch));
      resolveCache := resolveCache[key := memo'];
    }
  }
}
