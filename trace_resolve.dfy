/**
 * The layered specifier resolution of `TraceMap.trace` in
 * src/tracemap/tracemap.ts, as a function of the import map the tracer
 * holds and of what the installer answered: a URL-like specifier is
 * resolved against its parent; a bare one tries the package's subscopes,
 * then the package's own scope, then its installed package's exports,
 * then the top-level imports.
 */
module TraceResolve {
  import opened Wrappers
  import opened Strings
  import opened Urls
  import opened Package
  import opened Manifest

  /** The parts of the import map (`this.map`) that tracing reads. */
  datatype MapView = MapView(imports: Dict<string>, scopes: Dict<Dict<string>>, baseUrl: string)

  /**
   * The foreign functions tracing relies on: URL parsing, `getPackageBase`,
   * `getScopeMatches` and `getMapMatch` (not part of this model), the
   * resolver's `analyze` and `resolveExports` (with the environment the
   * tracer passes fixed).
   */
  datatype TraceOps = TraceOps(
    urls: UrlOps,
    packageBase: string -> Option<string>,
    scopeMatches: (string, Dict<Dict<string>>, string) -> seq<(string, string)>,
    mapMatch: (string, Dict<string>) -> Option<string>,
    exports: (string, Option<string>) -> Result<Dict<string>>)

  /** `getMapMatch(specifier, m)`, taken as a key of `m` (any other answer counts as no match). */
  function MapMatch(ops: TraceOps, specifier: string, m: Dict<string>): (r: Option<string>)
    ensures r.Some? ==> Get(m, r.value).Some?
  {
    var k := ops.mapMatch(specifier, m);
    if k.Some? && Get(m, k.value).Some? then k else None
  }

  /** The protocols a URL-like specifier may resolve to. */
  predicate AllowedProtocol(protocol: string)
  {
    protocol in {"file:", "https:", "http:", "node:", "data:"}
  }

  /** `new URL(target + rest, base).href`; an unparsable URL is a plain error. */
  function Href(ops: TraceOps, target: string, base: string): (r: Result<string>)
    ensures r.Ok? <==> ops.urls.parse(target, base).Some?
  {
    match ops.urls.parse(target, base)
    case None => Err(PlainError("Invalid URL"))
    case Some(u) => Ok(u.href)
  }

  /** A URL-like specifier: resolved against the parent, refused for any other protocol. */
  function NonPlain(ops: TraceOps, specifier: string, parentUrl: string): (r: Result<string>)
    ensures r.Ok? <==> ops.urls.parse(specifier, parentUrl).Some? && AllowedProtocol(ops.urls.parse(specifier, parentUrl).value.protocol)
    ensures r.Ok? ==> r.value == ops.urls.parse(specifier, parentUrl).value.href
    ensures ops.urls.parse(specifier, parentUrl).Some? && !AllowedProtocol(ops.urls.parse(specifier, parentUrl).value.protocol) ==>
      r.Err? && r.error.JspmError?
  {
    match ops.urls.parse(specifier, parentUrl)
    case None => Err(PlainError("Invalid URL"))
    case Some(u) =>
      if AllowedProtocol(u.protocol) then Ok(u.href)
      else Err(JspmError("Found unexpected protocol " + u.protocol, ""))
  }

  /** A binding of `specifier` in scope `scope` of the map, resolved against the map's base URL. */
  function InScope(ops: TraceOps, m: MapView, scope: string, specifier: string): (r: Option<Result<string>>)
    ensures r.Some? <==> Get(m.scopes, scope).Some? && MapMatch(ops, specifier, Get(m.scopes, scope).value).Some?
  {
    var imports := Get(m.scopes, scope);
    if imports.None? then None
    else
      var k := MapMatch(ops, specifier, imports.value);
      if k.None? then None
      else Some(Href(ops, Get(imports.value, k.value).value + SliceFrom(specifier, |k.value|), m.baseUrl))
  }

  /** The first of `matches` (from index `i`) whose scope binds the specifier. */
  function FirstScope(ops: TraceOps, m: MapView, matches: seq<(string, string)>, i: nat, specifier: string): (r: Option<Result<string>>)
    requires i <= |matches|
    ensures r.None? <==> forall j :: i <= j < |matches| ==> InScope(ops, m, matches[j].0, specifier).None?
    ensures r.Some? ==> exists j :: i <= j < |matches| && r == InScope(ops, m, matches[j].0, specifier)
    decreases |matches| - i
  {
    if i == |matches| then None
    else
      var hit := InScope(ops, m, matches[i].0, specifier);
      if hit.Some? then hit else FirstScope(ops, m, matches, i + 1, specifier)
  }

  /** The scope matches whose URL lies inside the parent's package: its subscopes. */
  function Subscopes(matches: seq<(string, string)>, parentPkgUrl: string): (r: seq<(string, string)>)
    ensures forall x :: x in r <==> x in matches && StartsWith(x.1, parentPkgUrl)
  {
    if |matches| == 0 then []
    else (if StartsWith(matches[0].1, parentPkgUrl) then [matches[0]] else []) + Subscopes(matches[1..], parentPkgUrl)
  }

  /** The first scope match whose URL is the parent's package URL itself. */
  function OwnScope(matches: seq<(string, string)>, parentPkgUrl: string): (r: Option<string>)
    ensures r.None? <==> forall j :: 0 <= j < |matches| ==> matches[j].1 != parentPkgUrl
    ensures r.Some? ==> exists j :: 0 <= j < |matches| && matches[j] == (r.value, parentPkgUrl)
  {
    if |matches| == 0 then None
    else if matches[0].1 == parentPkgUrl then Some(matches[0].0)
    else
      var rest := OwnScope(matches[1..], parentPkgUrl);
      assert rest.Some? ==> exists j :: 1 <= j < |matches| && matches[j] == (rest.value, parentPkgUrl) by {
        if rest.Some? {
          var j :| 0 <= j < |matches[1..]| && matches[1..][j] == (rest.value, parentPkgUrl);
          assert matches[j + 1] == (rest.value, parentPkgUrl);
        }
      }
      rest
  }

  /**
   * The two scope layers: a package subscope binding the specifier wins,
   * then the binding in the package's own scope; `None` when neither binds it.
   */
  function ScopeLayers(ops: TraceOps, m: MapView, specifier: string, parentUrl: string, parentPkgUrl: string): Option<Result<string>>
  {
    var matches := ops.scopeMatches(parentUrl, m.scopes, m.baseUrl);
    var sub := FirstScope(ops, m, Subscopes(matches, parentPkgUrl), 0, specifier);
    if sub.Some? then sub
    else
      var own := OwnScope(matches, parentPkgUrl);
      if own.None? then None else InScope(ops, m, own.value, specifier)
  }

  /** An install URL split at '|': the package URL (with '/' added after a subpath filter) and the filter. */
  function SplitInstall(installed: string): (r: (string, Option<string>))
    ensures '|' !in installed ==> r == (installed, None)
  {
    var pieces := Split(installed, '|');
    var filter := if |pieces| > 1 then Some(pieces[1]) else None;
    var pkgUrl := if filter.Some? && filter.value != "" then pieces[0] + "/" else pieces[0];
    (pkgUrl, filter)
  }

  /**
   * The installed-package layer: the package's exports (under the install
   * URL's subpath filter) must define the subpath, which then resolves
   * against the package URL; an unlocked name gives `None`.
   */
  function InstalledLayer(ops: TraceOps, installed: Option<string>, subpath: string): (r: Option<Result<string>>)
    ensures r.None? <==> installed.None? || installed.value == ""
  {
    if installed.None? || installed.value == "" then None
    else
      var (pkgUrl, filter) := SplitInstall(installed.value);
      var exports := ops.exports(pkgUrl, filter);
      if exports.Err? then Some(Err(exports.error))
      else
        var k := MapMatch(ops, subpath, exports.value);
        if k.None? then Some(Err(JspmError("No '" + subpath + "' exports subpath defined in " + pkgUrl, "")))
        else Some(Href(ops, Get(exports.value, k.value).value + SliceFrom(subpath, |k.value|), pkgUrl))
  }

  /** The top-level imports layer, the last one: no binding is a "No resolution in map" error. */
  function ImportsLayer(ops: TraceOps, m: MapView, specifier: string): (r: Result<string>)
    ensures MapMatch(ops, specifier, m.imports).None? ==> r == Err(JspmError("No resolution in map for " + specifier, ""))
  {
    var k := MapMatch(ops, specifier, m.imports);
    if k.None? then Err(JspmError("No resolution in map for " + specifier, ""))
    else Href(ops, Get(m.imports, k.value).value + SliceFrom(specifier, |k.value|), m.baseUrl)
  }

  /**
   * What a bare specifier resolves to once the scope layers are known not
   * to bind it, given the installer's answer for the package name.
   */
  function AfterScopes(ops: TraceOps, m: MapView, specifier: string, subpath: string, installed: Result<Option<string>>): Result<string>
  {
    if installed.Err? then Err(installed.error)
    else
      var layer := InstalledLayer(ops, installed.value, subpath);
      if layer.Some? then layer.value else ImportsLayer(ops, m, specifier)
  }

  /**
   * The resolution of `specifier` from `parentUrl` (inside package
   * `parentPkgUrl`), given what the installer answers for the package
   * name: a URL-like specifier directly, an invalid package name an
   * error, and otherwise the first layer that binds it.
   */
  function Resolved(ops: TraceOps, m: MapView, specifier: string, parentUrl: string, parentPkgUrl: string,
                    installed: Result<Option<string>>): Result<string>
  {
    if !ops.urls.isPlain(specifier) then NonPlain(ops, specifier, parentUrl)
    else
      var parsed := ParsePkg(specifier);
      if parsed.None? then Err(JspmError("Invalid package name " + specifier, ""))
      else
        var scoped := ScopeLayers(ops, m, specifier, parentUrl, parentPkgUrl);
        if scoped.Some? then scoped.value
        else AfterScopes(ops, m, specifier, parsed.value.subpath, installed)
  }

  /** The scope layers take precedence: when they bind a bare specifier, the installer is not consulted. */
  lemma ScopesBeforeInstaller(ops: TraceOps, m: MapView, specifier: string, parentUrl: string, parentPkgUrl: string,
                              a: Result<Option<string>>, b: Result<Option<string>>)
    requires ops.urls.isPlain(specifier) && ParsePkg(specifier).Some?
    requires ScopeLayers(ops, m, specifier, parentUrl, parentPkgUrl).Some?
    ensures Resolved(ops, m, specifier, parentUrl, parentPkgUrl, a) == Resolved(ops, m, specifier, parentUrl, parentPkgUrl, b)
  {
  }

  /** The installed package shadows the top-level imports: a locked name never reaches the imports layer. */
  lemma InstallerBeforeImports(ops: TraceOps, m: MapView, specifier: string, parentUrl: string, parentPkgUrl: string, url: string)
    requires ops.urls.isPlain(specifier) && ParsePkg(specifier).Some?
    requires ScopeLayers(ops, m, specifier, parentUrl, parentPkgUrl).None?
    requires url != ""
    ensures Resolved(ops, m, specifier, parentUrl, parentPkgUrl, Ok(Some(url)))
         == InstalledLayer(ops, Some(url), ParsePkg(specifier).value.subpath).value
  {
  }

  /** Nothing binds the specifier: resolution fails with "No resolution in map". */
  lemma NoResolution(ops: TraceOps, m: MapView, specifier: string, parentUrl: string, parentPkgUrl: string, installed: Option<string>)
    requires ops.urls.isPlain(specifier) && ParsePkg(specifier).Some?
    requires ScopeLayers(ops, m, specifier, parentUrl, parentPkgUrl).None?
    requires installed.None? || installed.value == ""
    requires MapMatch(ops, specifier, m.imports).None?
    ensures Resolved(ops, m, specifier, parentUrl, parentPkgUrl, Ok(installed)) == Err(JspmError("No resolution in map for " + specifier, ""))
  {
  }
}
