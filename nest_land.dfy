/**
 * The nest.land provider (src/providers/nest.land.ts): package folders on
 * `https://x.nest.land/` and version selection from a package's uploads.
 */
module NestLand {
  import opened Wrappers
  import opened Strings
  import opened Package
  import opened Fetch

  const CdnUrl: string := "https://x.nest.land/"
  const ApiUrl: string := "https://x.nest.land/api/package/"

  /** The parts of the registry's package record that are read. */
  datatype Egg = Egg(packageUploadNames: seq<string>, normalizedName: string)

  /** `pkgToUrl(pkg)`: `name/version/` under the CDN; the registry is not part of the URL. */
  function PkgUrl(pkg: ExactPackage): (r: string)
    ensures StartsWith(r, CdnUrl) && EndsWith(r, "/")
    ensures r[|CdnUrl|..] == pkg.name + "/" + pkg.version + "/"
  {
    CdnUrl + pkg.name + "/" + pkg.version + "/"
  }

  /**
   * `parseUrlPkg(url)`: `None` off the CDN; on it, the registry is always
   * `nest`, the name is the first `/`-separated segment after the CDN and
   * the version the second, absent when there is no second.
   */
  function ParseUrlPkg(url: string): (r: Option<LoosePkg>)
    ensures r.None? <==> !StartsWith(url, CdnUrl)
    ensures r.Some? ==> r.value.registry == Some("nest") && r.value.name.Some?
    ensures r.Some? ==> '/' !in r.value.name.value
  {
    if !StartsWith(url, CdnUrl) then None
    else
      var parts := Split(url[|CdnUrl|..], '/');
      Some(LoosePkg(Some("nest"), Some(parts[0]), if |parts| > 1 then Some(parts[1]) else None))
  }

  /** A package URL that `pkgToUrl` builds gives back its name and version, with the `nest` registry. */
  lemma UrlPkgRoundTrip(pkg: ExactPackage)
    requires '/' !in pkg.name && '/' !in pkg.version
    ensures ParseUrlPkg(PkgUrl(pkg)) == Some(LoosePkg(Some("nest"), Some(pkg.name), Some(pkg.version)))
  {
    var rest := pkg.name + "/" + pkg.version + "/";
    assert PkgUrl(pkg)[|CdnUrl|..] == rest;
    assert rest == pkg.name + ['/'] + (pkg.version + ['/'] + "");
    SplitAt(pkg.name, pkg.version + ['/'] + "", '/');
    SplitAt(pkg.version, "", '/');
  }

  /** The version part of an upload name: the text after its first `@`, or all of it without one. */
  function UploadVersion(uploadName: string): (r: string)
    ensures '@' !in uploadName ==> r == uploadName
    ensures '@' in uploadName ==> exists k :: 0 <= k < |uploadName| && uploadName[k] == '@'
                                      && '@' !in uploadName[..k] && r == uploadName[k + 1..]
  {
    var i := IndexOf(uploadName, '@');
    assert i >= 0 ==> uploadName[i] == '@';
    uploadName[i + 1..]
  }

  function UploadVersions(names: seq<string>): (r: seq<string>)
    ensures |r| == |names|
    ensures forall i :: 0 <= i < |names| ==> r[i] == UploadVersion(names[i])
  {
    if |names| == 0 then [] else [UploadVersion(names[0])] + UploadVersions(names[1..])
  }

  /**
   * The loop over `target.ranges` keeping the greatest best match: the
   * result is `None` exactly when no range has a match, and otherwise it is
   * one range's match that no other range's match exceeds. Needs the
   * version order to be a strict order.
   */
  method BestMatch(ranges: seq<Range>, versions: seq<string>, unstable: bool, sv: Semver)
    returns (best: Option<string>)
    requires StrictOrder(sv)
    ensures best.None? <==> forall i :: 0 <= i < |ranges| ==> sv.bestMatch(ranges[i], versions, unstable).None?
    ensures best.Some? ==> exists i :: 0 <= i < |ranges| && sv.bestMatch(ranges[i], versions, unstable) == best
    ensures best.Some? ==> forall i :: 0 <= i < |ranges| && sv.bestMatch(ranges[i], versions, unstable).Some? ==>
      !sv.less(best.value, sv.bestMatch(ranges[i], versions, unstable).value)
  {
    best := None;
    for n := 0 to |ranges|
      invariant best.None? <==> forall i :: 0 <= i < n ==> sv.bestMatch(ranges[i], versions, unstable).None?
      invariant best.Some? ==> exists i :: 0 <= i < n && sv.bestMatch(ranges[i], versions, unstable) == best
      invariant best.Some? ==> forall i :: 0 <= i < n && sv.bestMatch(ranges[i], versions, unstable).Some? ==>
        !sv.less(best.value, sv.bestMatch(ranges[i], versions, unstable).value)
    {
      var m := sv.bestMatch(ranges[n], versions, unstable);
      if m.Some? && (best.None? || sv.less(best.value, m.value)) {
        best := m;
      }
    }
  }

  /**
   * `resolveLatestTarget(target, unstable)`: a target of another registry
   * is `null` without a fetch; otherwise the package record is fetched and
   * the greatest best match over the uploads' versions is returned under
   * the record's normalised name, or `null` when none matches. 404 is
   * `null`, other failing statuses throw, and so does an unreadable body.
   */
  method ResolveLatestTarget(target: PackageTarget, unstable: bool, sv: Semver, fetch: string -> JsonResponse<Egg>)
    returns (r: Result<Option<ExactPackage>>)
    requires StrictOrder(sv)
    ensures target.registry != "nest" ==> r == Ok(None)
    ensures var res := fetch(ApiUrl + target.name);
      target.registry == "nest" ==>
        && (res.status == 404 ==> r == Ok(None))
        && (!IsOk(res.status) && res.status != 404 ==> r.Err? && r.error.JspmError?)
        && (IsOk(res.status) && res.body.None? ==> r.Err?)
    ensures r.Ok? && r.value.Some? ==>
      var egg := fetch(ApiUrl + target.name).body.value;
      var versions := UploadVersions(egg.packageUploadNames);
      && target.registry == "nest"
      && r.value.value.registry == "nest" && r.value.value.name == egg.normalizedName
      && (exists i :: 0 <= i < |target.ranges| && sv.bestMatch(target.ranges[i], versions, unstable) == Some(r.value.value.version))
      && (forall i :: 0 <= i < |target.ranges| && sv.bestMatch(target.ranges[i], versions, unstable).Some? ==>
            !sv.less(r.value.value.version, sv.bestMatch(target.ranges[i], versions, unstable).value))
    ensures target.registry == "nest" && IsOk(fetch(ApiUrl + target.name).status) && fetch(ApiUrl + target.name).body.Some? ==>
      var versions := UploadVersions(fetch(ApiUrl + target.name).body.value.packageUploadNames);
      (r == Ok(None) <==> forall i :: 0 <= i < |target.ranges| ==> sv.bestMatch(target.ranges[i], versions, unstable).None?)
  {
    if target.registry != "nest" {
      return Ok(None);
    }
    var res := fetch(ApiUrl + target.name);
    if IsOk(res.status) {
      if res.body.None? {
        return Err(PlainError("invalid JSON in the package record of " + target.name));
      }
      var egg := res.body.value;
      var versions := UploadVersions(egg.packageUploadNames);
      var best := BestMatch(target.ranges, versions, unstable, sv);
      if best.None? {
        return Ok(None);
      }
      return Ok(Some(ExactPackage("nest", egg.normalizedName, best.value)));
    } else if res.status == 404 {
      return Ok(None);
    }
    return Err(JspmError("Invalid status code looking up \"" + target.registry + ":" + target.name + "\"", ""));
  }
}
