/**
 * Package identities and install targets (src/install/package.ts):
 * splitting a specifier into package name and subpath, printing
 * `registry:name@version` and CDN URLs, parsing an install target into a
 * registry, a name and semver ranges, and reading a package back out of a
 * CDN URL.
 *
 * The `sver` library is not part of this model: a `Semver` value supplies
 * its range constructor, range test, version order and best match.
 */
module Package {
  import opened Wrappers
  import opened Strings
  import opened Urls

  datatype ExactPackage = ExactPackage(registry: string, name: string, version: string)

  /**
   * A semver range as the resolver classifies it: sver's `isWildcard`,
   * `isExact` (with or without a tag), `isMajor`, `isStable`, or anything
   * else. The major and minor numbers are kept as their decimal text.
   */
  datatype Range =
    | Wildcard
    | ExactVersion(version: string)
    | ExactTag(tag: string)
    | Major(major: string)
    | Stable(major: string, minor: string)
    | OtherRange(text: string)

  /** The parts of the `sver` library the modelled code calls. */
  datatype Semver = Semver(
    /** `SemverRange.isValid(text)` */
    isValid: string -> bool,
    /** `new SemverRange(text)` */
    range: string -> Range,
    /** `convertRange(text)` from sver/convert-range */
    convert: string -> Range,
    /** `range.has(version)` */
    has: (Range, string) -> bool,
    /** `Semver.compare(a, b) === -1` */
    less: (string, string) -> bool,
    /** `range.bestMatch(versions, unstable)` */
    bestMatch: (Range, seq<string>, bool) -> Option<string>)

  /** sver's version comparison is a strict order: irreflexive and transitive. */
  ghost predicate StrictOrder(sv: Semver)
  {
    && (forall a :: !sv.less(a, a))
    && (forall a, b, c :: sv.less(a, b) && sv.less(b, c) ==> sv.less(a, c))
  }

  datatype PackageTarget = PackageTarget(registry: string, name: string, ranges: seq<Range>)

  /** `InstallTarget = PackageTarget | URL`; a URL is kept as its href. */
  datatype InstallTarget = PkgTarget(target: PackageTarget) | UrlTarget(href: string)

  datatype PkgSpecifier = PkgSpecifier(pkgName: string, subpath: string)

  /** What the package-URL regular expression captures; `None` for a group that did not take part. */
  datatype LoosePkg = LoosePkg(registry: Option<string>, name: Option<string>, version: Option<string>)

  datatype CdnPkg = CdnPkg(pkg: LoosePkg, cdnUrl: string)

  datatype AliasedTarget = AliasedTarget(alias: string, target: InstallTarget, subpath: string)

  const SupportedRegistries: seq<string> := ["npm", "github", "deno", "nest"]
  const DefaultNiceCdnUrls: seq<string> := ["https://ga.jspm.io/", "https://system.ga.jspm.io/"]

  // ---------------------------------------------------------------- parsePkg

  /** Cuts `s` at `sep` (-1 for no cut) into a package name and a `.`-prefixed subpath. */
  function CutAt(s: string, sep: int): PkgSpecifier
    requires -1 <= sep < |s|
  {
    if sep == -1 then PkgSpecifier(s, ".") else PkgSpecifier(s[..sep], "." + s[sep..])
  }

  /** `parsePkg(specifier)`; `None` for a lone `@scope`. */
  function ParsePkg(specifier: string): (r: Option<PkgSpecifier>)
    ensures r.None? <==> |specifier| > 0 && specifier[0] == '@' && '/' !in specifier
  {
    var sep := IndexOf(specifier, '/');
    if |specifier| > 0 && specifier[0] == '@' then
      if sep == -1 then None
      else Some(CutAt(specifier, IndexOfFrom(specifier, '/', sep + 1)))
    else Some(CutAt(specifier, sep))
  }

  /** The package name and the subpath without its `.` give back the specifier; the subpath is `.` or `./…`. */
  lemma {:induction false} ParsePkgRoundTrip(specifier: string)
    requires ParsePkg(specifier).Some?
    ensures ParsePkg(specifier).value.pkgName + ParsePkg(specifier).value.subpath[1..] == specifier
    ensures ParsePkg(specifier).value.subpath == "." || StartsWith(ParsePkg(specifier).value.subpath, "./")
  {
    var sep := IndexOf(specifier, '/');
    var cut := if |specifier| > 0 && specifier[0] == '@' then IndexOfFrom(specifier, '/', sep + 1) else sep;
    assert ParsePkg(specifier) == Some(CutAt(specifier, cut));
    CutAtRoundTrip(specifier, cut);
  }

  lemma CutAtRoundTrip(s: string, sep: int)
    requires -1 <= sep < |s| && (sep == -1 || s[sep] == '/')
    ensures CutAt(s, sep).pkgName + CutAt(s, sep).subpath[1..] == s
    ensures CutAt(s, sep).subpath == "." || StartsWith(CutAt(s, sep).subpath, "./")
  {
    if sep != -1 {
      var sub := "." + s[sep..];
      assert sub[1..] == s[sep..];
      assert s == s[..sep] + s[sep..];
      assert sub[..2] == "./";
    }
  }

  /** An unscoped package name is the text before the first `/`. */
  lemma {:induction false} ParsePkgUnscoped(specifier: string)
    requires |specifier| == 0 || specifier[0] != '@'
    ensures ParsePkg(specifier).Some?
    ensures '/' !in ParsePkg(specifier).value.pkgName
  {
  }

  /** A scoped package name holds exactly one `/`: it runs to the second `/` or to the end. */
  lemma {:induction false} ParsePkgScoped(specifier: string)
    requires |specifier| > 0 && specifier[0] == '@' && '/' in specifier
    ensures ParsePkg(specifier).Some?
    ensures Count(ParsePkg(specifier).value.pkgName, '/') == 1
  {
    var sep := IndexOf(specifier, '/');
    var second := IndexOfFrom(specifier, '/', sep + 1);
    var name := if second == -1 then specifier else specifier[..second];
    assert ParsePkg(specifier).value.pkgName == name;
    var before, after := name[..sep], name[sep + 1..];
    assert '/' !in before;
    assert '/' !in after by {
      forall k | 0 <= k < |after| ensures after[k] != '/' {
        assert after[k] == specifier[sep + 1 + k];
      }
    }
    assert name == before + ([name[sep]] + after);
    CountAbsent(before, '/');
    CountAbsent(after, '/');
    CountConcat(before, [name[sep]] + after, '/');
    assert ([name[sep]] + after)[1..] == after;
  }

  // ------------------------------------------------------- pkgToStr, pkgToUrl

  /** `pkgToStr(pkg)`: `registry:` and `@version` are left out when empty. */
  function PkgToStr(pkg: ExactPackage): string
  {
    (if pkg.registry != "" then pkg.registry + ":" else "")
    + pkg.name
    + (if pkg.version != "" then "@" + pkg.version else "")
  }

  /** `pkgToUrl(pkg, cdnUrl)`. */
  function PkgToUrl(pkg: ExactPackage, cdnUrl: string): (r: string)
    ensures |r| == |cdnUrl| + |PkgToStr(pkg)| + 1
    ensures StartsWith(r, cdnUrl) && EndsWith(r, "/")
    ensures r[|cdnUrl|..|r| - 1] == PkgToStr(pkg)
  {
    cdnUrl + PkgToStr(pkg) + "/"
  }

  // ---------------------------------------------------------- newPackageTarget

  /** Ranges for a version text: one `SemverRange`, or `convertRange` of each `||` alternative. */
  function RangesOf(text: string, single: bool, sv: Semver): (r: seq<Range>)
    ensures |r| >= 1
  {
    if single || sv.isValid(text) then [sv.range(text)]
    else
      var parts := SplitOn(text, "||");
      seq(|parts|, k requires 0 <= k < |parts| => sv.convert(parts[k]))
  }

  /** The name `newPackageTarget` picks before any registry adjustment. */
  function TargetName(target: string, depName: string): string
  {
    var registryIndex := IndexOf(target, ':');
    var versionIndex := LastIndexOf(target, '@');
    if versionIndex > registryIndex + 1 then target[registryIndex + 1..versionIndex]
    else if registryIndex == -1 && depName != "" then depName
    else target[registryIndex + 1..]
  }

  /** At most two `/`-separated segments, and a scoped name has two. */
  predicate ValidTargetName(name: string)
  {
    var segments := |Split(name, '/')|;
    !(segments > 2 || (segments == 1 && |name| > 0 && name[0] == '@'))
  }

  /** The registry of a target: the text before a `:` at index 1 or later, else `npm`. */
  function RegistryOf(target: string): string
  {
    var registryIndex := IndexOf(target, ':');
    if registryIndex < 1 then "npm" else target[..registryIndex]
  }

  /**
   * `newPackageTarget(target, parentPkgUrl, depName)`, with `depName == ""`
   * standing for an absent dependency name (both are falsy in the source).
   */
  function NewPackageTarget(target: string, parentPkgUrl: string, depName: string, sv: Semver, urls: UrlOps): (r: Result<InstallTarget>)
    ensures RegistryOf(target) != "file" ==> (r.Err? ==> r.error.JspmError?) && (r.Ok? ==> r.value.PkgTarget?)
  {
    var registryIndex := IndexOf(target, ':');
    var registry := RegistryOf(target);
    if registry == "file" then
      match urls.parse(target[5..], parentPkgUrl)
      case None => Err(PlainError("Invalid URL"))
      case Some(u) => Ok(UrlTarget(u.href))
    else
      var versionIndex := LastIndexOf(target, '@');
      var name := TargetName(target, depName);
      var ranges :=
        if versionIndex > registryIndex + 1 then RangesOf(target[versionIndex + 1..], depName != "", sv)
        else if registryIndex == -1 && depName != "" then RangesOf(target, false, sv)
        else [Wildcard];
      var registry' := if registryIndex == -1 && '/' in name && name[0] != '@' then "github" else registry;
      if !ValidTargetName(name) then Err(JspmError("Invalid package target " + target, ""))
      else Ok(PkgTarget(PackageTarget(registry', name, ranges)))
  }

  /** A `file:` target is resolved against the parent package URL instead of naming a package. */
  lemma NewPackageTargetFile(target: string, parentPkgUrl: string, depName: string, sv: Semver, urls: UrlOps)
    requires StartsWith(target, "file:")
    ensures NewPackageTarget(target, parentPkgUrl, depName, sv, urls)
      == (match urls.parse(target[5..], parentPkgUrl)
          case None => Err(PlainError("Invalid URL"))
          case Some(u) => Ok(UrlTarget(u.href)))
  {
    assert target[4] == ':' && ':' !in target[..4];
    assert IndexOf(target, ':') == 4;
    assert target[..4] == "file";
  }

  /**
   * The registry is the prefix before a `:` at index 1 or later; without a
   * `:` it is `npm`, or `github` for an unscoped name holding a `/`.
   */
  lemma NewPackageTargetRegistry(target: string, parentPkgUrl: string, depName: string, sv: Semver, urls: UrlOps)
    requires RegistryOf(target) != "file"
    requires NewPackageTarget(target, parentPkgUrl, depName, sv, urls).Ok?
    ensures var t := NewPackageTarget(target, parentPkgUrl, depName, sv, urls).value.target;
      var name := TargetName(target, depName);
      && (IndexOf(target, ':') >= 0 ==> t.registry == RegistryOf(target))
      && (IndexOf(target, ':') == -1 ==>
            t.registry == (if '/' in name && name[0] != '@' then "github" else "npm"))
  {
  }

  /** The target is refused exactly when the chosen name is malformed, and otherwise carries that name. */
  lemma NewPackageTargetName(target: string, parentPkgUrl: string, depName: string, sv: Semver, urls: UrlOps)
    requires RegistryOf(target) != "file"
    ensures var r := NewPackageTarget(target, parentPkgUrl, depName, sv, urls);
      && (r.Ok? <==> ValidTargetName(TargetName(target, depName)))
      && (r.Ok? ==> r.value.target.name == TargetName(target, depName))
  {
  }

  /** Without a version and without a dependency name the only range is `*`. */
  lemma NewPackageTargetWildcard(target: string, parentPkgUrl: string, sv: Semver, urls: UrlOps)
    requires RegistryOf(target) != "file"
    requires LastIndexOf(target, '@') <= IndexOf(target, ':') + 1
    requires NewPackageTarget(target, parentPkgUrl, "", sv, urls).Ok?
    ensures NewPackageTarget(target, parentPkgUrl, "", sv, urls).value.target.ranges == [Wildcard]
  {
  }

  /** More than two name segments means more than one `/`. */
  lemma ValidTargetNameBySlashes(name: string)
    ensures ValidTargetName(name) <==> Count(name, '/') <= 1 && !(Count(name, '/') == 0 && |name| > 0 && name[0] == '@')
  {
    SplitLength(name, '/');
  }

  // ---------------------------------------------------------- toPackageTarget

  /**
   * The part of `toPackageTarget` after `parseUrlTarget` found no URL
   * target: the alias check, `parsePkg`, the alias and the package target.
   */
  function ToPackageTarget(targetStr: string, parentPkgUrl: string, sv: Semver, urls: UrlOps): (r: Result<AliasedTarget>)
    ensures var registryIndex := IndexOf(targetStr, ':'); var at := IndexOf(targetStr, '@');
      registryIndex != -1 && at != -1 && at < registryIndex ==> r == Err(PlainError("Package aliases not yet supported. PRs welcome."))
    ensures ParsePkg(targetStr).None? && r.Err? ==> r.error.JspmError? || r.error.PlainError?
    ensures r.Ok? ==> ParsePkg(targetStr).Some? && r.value.subpath == ParsePkg(targetStr).value.subpath
    ensures r.Ok? ==> forall k :: 1 <= k < |r.value.alias| ==> r.value.alias[k] != '@'
  {
    var registryIndex := IndexOf(targetStr, ':');
    var versionOrScopeIndex := IndexOf(targetStr, '@');
    if registryIndex != -1 && versionOrScopeIndex != -1 && versionOrScopeIndex < registryIndex then
      Err(PlainError("Package aliases not yet supported. PRs welcome."))
    else
      match ParsePkg(targetStr)
      case None => Err(JspmError("Invalid package name " + targetStr, ""))
      case Some(pkg) =>
        var versionIndex := IndexOfFrom(pkg.pkgName, '@', 1);
        var alias := if versionIndex != -1 then Slice(pkg.pkgName, registryIndex + 1, versionIndex)
                     else SliceFrom(pkg.pkgName, registryIndex + 1);
        AliasHasNoVersion(pkg.pkgName, registryIndex);
        match NewPackageTarget(pkg.pkgName, parentPkgUrl, "", sv, urls)
        case Err(e) => Err(e)
        case Ok(t) => Ok(AliasedTarget(alias, t, pkg.subpath))
  }

  /** The alias cut out of a package name stops before its `@version`. */
  lemma AliasHasNoVersion(name: string, registryIndex: int)
    ensures var versionIndex := IndexOfFrom(name, '@', 1);
      var alias := if versionIndex != -1 then Slice(name, registryIndex + 1, versionIndex)
                   else SliceFrom(name, registryIndex + 1);
      forall k :: 1 <= k < |alias| ==> alias[k] != '@'
  {
    var versionIndex := IndexOfFrom(name, '@', 1);
    var a := ClampIndex(registryIndex + 1, |name|);
    if versionIndex == -1 {
      assert SliceFrom(name, registryIndex + 1) == name[a..];
    } else {
      var b := ClampIndex(versionIndex, |name|);
      assert a < b ==> Slice(name, registryIndex + 1, versionIndex) == name[a..b];
    }
  }

  // ---------------------------------------------------------- isPackageTarget

  /** `targetStr` begins with `registry:` for a supported registry. */
  predicate HasRegistryPrefix(targetStr: string)
  {
    var registryIndex := IndexOf(targetStr, ':');
    registryIndex != -1 && targetStr[..registryIndex] in SupportedRegistries
  }

  /** `isPackageTarget(targetStr)`: a remote package rather than a local file. */
  function IsPackageTarget(targetStr: string, urls: UrlOps): (r: bool)
    ensures urls.isRelative(targetStr) ==> !r
    ensures !urls.isRelative(targetStr) && HasRegistryPrefix(targetStr) ==> r
    ensures r ==> HasRegistryPrefix(targetStr) || ParsePkg(targetStr).Some?
    ensures (!HasRegistryPrefix(targetStr) && ParsePkg(targetStr).Some? && '@' !in ParsePkg(targetStr).value.pkgName
             && (EndsWith(targetStr, ".ts") || EndsWith(targetStr, ".js") || EndsWith(targetStr, ".mjs"))) ==> !r
  {
    if urls.isRelative(targetStr) then false
    else if HasRegistryPrefix(targetStr) then true
    else match ParsePkg(targetStr)
      case None => false
      case Some(pkg) =>
        if '@' in pkg.pkgName then true
        else !(EndsWith(targetStr, ".ts") || EndsWith(targetStr, ".js") || EndsWith(targetStr, ".mjs"))
  }

  // ------------------------------------------------ pkgUrlToNiceString, parseCdnPkg

  /** The first of `cdnUrls` that `url` starts with. */
  function FirstPrefix(url: string, cdnUrls: seq<string>): (r: Option<string>)
    ensures r.Some? ==> r.value in cdnUrls && StartsWith(url, r.value)
    ensures r.None? <==> forall c :: c in cdnUrls ==> !StartsWith(url, c)
  {
    if |cdnUrls| == 0 then None
    else if StartsWith(url, cdnUrls[0]) then Some(cdnUrls[0])
    else FirstPrefix(url, cdnUrls[1..])
  }

  /** The prefix chosen is the first in list order that `url` starts with. */
  lemma {:induction false} FirstPrefixIsFirst(url: string, cdnUrls: seq<string>)
    requires FirstPrefix(url, cdnUrls).Some?
    ensures exists i :: (0 <= i < |cdnUrls| && cdnUrls[i] == FirstPrefix(url, cdnUrls).value
                         && forall j :: 0 <= j < i ==> !StartsWith(url, cdnUrls[j]))
  {
    if !StartsWith(url, cdnUrls[0]) {
      FirstPrefixIsFirst(url, cdnUrls[1..]);
      var i :| 0 <= i < |cdnUrls[1..]| && cdnUrls[1..][i] == FirstPrefix(url, cdnUrls[1..]).value
        && forall j :: 0 <= j < i ==> !StartsWith(url, cdnUrls[1..][j]);
      assert cdnUrls[i + 1] == FirstPrefix(url, cdnUrls).value;
      assert forall j :: 0 <= j < i + 1 ==> !StartsWith(url, cdnUrls[j]) by {
        forall j | 0 <= j < i + 1 ensures !StartsWith(url, cdnUrls[j]) {
          if j > 0 { assert cdnUrls[j] == cdnUrls[1..][j - 1]; }
        }
      }
    } else {
      assert cdnUrls[0] == FirstPrefix(url, cdnUrls).value;
    }
  }

  /** `pkgUrlToNiceString(pkgUrl, cdnUrls)`; a failing `decodeURIComponent` is an error. */
  function PkgUrlToNiceString(pkgUrl: string, cdnUrls: seq<string>, urls: UrlOps): (r: Result<string>)
    ensures FirstPrefix(pkgUrl, cdnUrls).Some? ==>
      var c := FirstPrefix(pkgUrl, cdnUrls).value;
      r == (match urls.decode(pkgUrl[|c|..]) case None => Err(PlainError("URIError")) case Some(d) => Ok(d))
    ensures FirstPrefix(pkgUrl, cdnUrls).None? ==>
      r == Ok(if StartsWith(pkgUrl, "file:") then urls.niceString(pkgUrl) else pkgUrl)
  {
    match FirstPrefix(pkgUrl, cdnUrls)
    case Some(c) =>
      (match urls.decode(pkgUrl[|c|..]) case None => Err(PlainError("URIError")) case Some(d) => Ok(d))
    case None =>
      Ok(if StartsWith(pkgUrl, "file:") then urls.niceString(pkgUrl) else pkgUrl)
  }

  /** Characters of `[^/\\%@]`. */
  predicate IsNameChar(c: char)
  {
    c != '/' && c != '\\' && c != '%' && c != '@'
  }

  /** Characters of `[^./\\%@]`, the first of an unscoped name. */
  predicate IsNameStart(c: char)
  {
    IsNameChar(c) && c != '.'
  }

  predicate IsLowerAlpha(c: char)
  {
    'a' <= c <= 'z'
  }

  /** Characters that the regular-expression `.` does not match. */
  predicate IsLineTerminator(c: char)
  {
    c == '\n' || c == '\r' || c == '\U{2028}' || c == '\U{2029}'
  }

  /** The end of the run of name characters starting at `from`. */
  function NameRunEnd(s: string, from: nat): (r: nat)
    requires from <= |s|
    ensures from <= r <= |s|
    ensures forall k :: from <= k < r ==> IsNameChar(s[k])
    ensures r < |s| ==> !IsNameChar(s[r])
    decreases |s| - from
  {
    if from == |s| || !IsNameChar(s[from]) then from else NameRunEnd(s, from + 1)
  }

  /** The end of the run of lower-case letters starting at `from`. */
  function LowerRunEnd(s: string, from: nat): (r: nat)
    requires from <= |s|
    ensures from <= r <= |s|
    ensures forall k :: from <= k < r ==> IsLowerAlpha(s[k])
    ensures r < |s| ==> !IsLowerAlpha(s[r])
    decreases |s| - from
  {
    if from == |s| || !IsLowerAlpha(s[from]) then from else LowerRunEnd(s, from + 1)
  }

  /** `([^\/]+)(\/.*)?$`: the version, up to the first `/`. */
  function MatchVersionTail(v: string): Option<string>
  {
    var slash := IndexOf(v, '/');
    var e := if slash < 0 then |v| else slash;
    if e == 0 then None
    else if exists k :: e < k < |v| && IsLineTerminator(v[k]) then None
    else Some(v[..e])
  }

  /** Where the name proper starts: after an `@scope/` prefix when there is one, -1 when `@` starts no such prefix. */
  function NameStart(t: string): int
  {
    if |t| > 0 && t[0] == '@' then
      var j := NameRunEnd(t, 1);
      if j >= 2 && j < |t| && t[j] == '/' then j + 1 else -1
    else 0
  }

  /** `((?:@[^/\\%@]+\/)?[^./\\%@][^/\\%@]*)@` followed by the version tail: the name and the version. */
  function MatchNameVersion(t: string): Option<(string, string)>
  {
    var nameStart := NameStart(t);
    if nameStart < 0 || nameStart >= |t| || !IsNameStart(t[nameStart]) then None
    else
      var k := NameRunEnd(t, nameStart + 1);
      if k >= |t| || t[k] != '@' then None
      else match MatchVersionTail(t[k + 1..])
        case None => None
        case Some(v) => Some((t[..k], v))
  }

  /**
   * `s.match(exactPkgRegEx)` with the captures `[registry, name, version]`,
   * all absent when there is no match. The optional `registry:` group is
   * tried first and dropped when the rest fails to match with it.
   */
  function MatchExactPkg(s: string): LoosePkg
  {
    var p := LowerRunEnd(s, 0);
    var withRegistry := if p >= 1 && p < |s| && s[p] == ':' then MatchNameVersion(s[p + 1..]) else None;
    if withRegistry.Some? then LoosePkg(Some(s[..p]), Some(withRegistry.value.0), Some(withRegistry.value.1))
    else match MatchNameVersion(s)
      case Some(nv) => LoosePkg(None, Some(nv.0), Some(nv.1))
      case None => LoosePkg(None, None, None)
  }

  /** `parseCdnPkg(url, cdnUrls)`: only the first CDN prefix the URL starts with is tried. */
  function ParseCdnPkg(url: string, cdnUrls: seq<string>): (r: Option<CdnPkg>)
    ensures r.None? <==> forall c :: c in cdnUrls ==> !StartsWith(url, c)
    ensures r.Some? ==> (r.value.cdnUrl == FirstPrefix(url, cdnUrls).value
                         && r.value.pkg == MatchExactPkg(url[|r.value.cdnUrl|..]))
  {
    match FirstPrefix(url, cdnUrls)
    case None => None
    case Some(c) => Some(CdnPkg(MatchExactPkg(url[|c|..]), c))
  }

  /** A name that the name group of the package-URL expression matches in full. */
  ghost predicate ValidPkgName(name: string)
  {
    || (|name| > 0 && IsNameStart(name[0]) && forall k :: 0 <= k < |name| ==> IsNameChar(name[k]))
    || (exists j :: ScopedNameAt(name, j))
  }

  /** `name` is `@scope/rest` with the `/` at `j`. */
  ghost predicate ScopedNameAt(name: string, j: int)
  {
    2 <= j && j + 1 < |name| && name[0] == '@' && name[j] == '/'
    && (forall k :: 1 <= k < j ==> IsNameChar(name[k]))
    && IsNameStart(name[j + 1])
    && (forall k :: j + 1 <= k < |name| ==> IsNameChar(name[k]))
  }

  predicate IsLowerWord(s: string)
  {
    |s| > 0 && forall k :: 0 <= k < |s| ==> IsLowerAlpha(s[k])
  }

  lemma {:induction false} NameRunEndIs(s: string, from: nat, k: nat)
    requires from <= k <= |s|
    requires forall i :: from <= i < k ==> IsNameChar(s[i])
    requires k == |s| || !IsNameChar(s[k])
    ensures NameRunEnd(s, from) == k
    decreases k - from
  {
    if from < k {
      NameRunEndIs(s, from + 1, k);
    }
  }

  lemma {:induction false} LowerRunEndIs(s: string, from: nat, k: nat)
    requires from <= k <= |s|
    requires forall i :: from <= i < k ==> IsLowerAlpha(s[i])
    requires k == |s| || !IsLowerAlpha(s[k])
    ensures LowerRunEnd(s, from) == k
    decreases k - from
  {
    if from < k {
      LowerRunEndIs(s, from + 1, k);
    }
  }

  /** The version group reads a `/`-free version back when a `/` follows it. */
  lemma {:induction false} VersionTailRoundTrip(version: string)
    requires |version| > 0 && '/' !in version
    ensures MatchVersionTail(version + "/") == Some(version)
  {
    var tail := version + "/";
    assert tail[..|version|] == version;
    assert IndexOf(tail, '/') == |version| by {
      assert tail[|version|] == '/';
    }
  }

  /**
   * The name group ends at the first `@` after `nameStart`, where the
   * version group takes over.
   */
  lemma {:induction false} MatchNameVersionFrom(t: string, nameStart: nat, k: nat, version: string)
    requires nameStart < k < |t| && t[k] == '@' && IsNameStart(t[nameStart])
    requires forall i :: nameStart <= i < k ==> IsNameChar(t[i])
    requires t[k + 1..] == version + "/" && |version| > 0 && '/' !in version
    requires (nameStart == 0 && t[0] != '@') || (nameStart > 0 && |t| > 0 && t[0] == '@' && NameRunEnd(t, 1) == nameStart - 1 && nameStart - 1 >= 2 && t[nameStart - 1] == '/')
    ensures MatchNameVersion(t) == Some((t[..k], version))
  {
    assert NameStart(t) == nameStart;
    NameRunEndIs(t, nameStart + 1, k);
    VersionTailRoundTrip(version);
    MatchNameVersionIs(t, nameStart, k, version);
  }

  lemma MatchNameVersionIs(t: string, nameStart: int, k: int, version: string)
    requires NameStart(t) == nameStart && 0 <= nameStart < |t| && IsNameStart(t[nameStart])
    requires NameRunEnd(t, nameStart + 1) == k && k < |t| && t[k] == '@'
    requires MatchVersionTail(t[k + 1..]) == Some(version)
    ensures MatchNameVersion(t) == Some((t[..k], version))
  {
  }

  /** The name group and version group recover a valid name and a `/`-free version. */
  lemma {:induction false} NameVersionRoundTrip(name: string, version: string)
    requires ValidPkgName(name)
    requires |version| > 0 && '/' !in version
    ensures MatchNameVersion(name + "@" + version + "/") == Some((name, version))
  {
    var t := name + "@" + version + "/";
    var n := |name|;
    assert t[..n] == name && t[n] == '@';
    assert t[n + 1..] == version + "/";
    if |name| > 0 && IsNameStart(name[0]) && forall k :: 0 <= k < |name| ==> IsNameChar(name[k]) {
      MatchNameVersionFrom(t, 0, n, version);
    } else {
      var j :| ScopedNameAt(name, j);
      NameRunEndIs(t, 1, j);
      MatchNameVersionFrom(t, j + 1, n, version);
    }
  }

  /** The package-URL expression reads back what `pkgToStr` wrote, followed by `/`. */
  lemma {:induction false} ExactPkgRoundTrip(pkg: ExactPackage)
    requires IsLowerWord(pkg.registry) && ValidPkgName(pkg.name)
    requires |pkg.version| > 0 && '/' !in pkg.version
    ensures MatchExactPkg(PkgToStr(pkg) + "/") == LoosePkg(Some(pkg.registry), Some(pkg.name), Some(pkg.version))
  {
    var s := PkgToStr(pkg) + "/";
    var p := |pkg.registry|;
    assert s == pkg.registry + ":" + (pkg.name + "@" + pkg.version + "/");
    assert s[..p] == pkg.registry && s[p] == ':';
    LowerRunEndIs(s, 0, p);
    assert s[p + 1..] == pkg.name + "@" + pkg.version + "/";
    NameVersionRoundTrip(pkg.name, pkg.version);
  }
}
