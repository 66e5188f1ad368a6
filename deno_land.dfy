/** The deno.land provider (src/providers/deno.land.ts): the package folder of a CDN URL. */
module DenoLand {
  import opened Strings

  const CdnUrl: string := "https://x.nest.land/"

  /** `getPackageBase(url)`: the CDN followed by the first segment after the CDN's length, and `/`. */
  function GetPackageBase(url: string): (r: string)
    ensures StartsWith(r, CdnUrl) && EndsWith(r, "/")
    ensures |r| > |CdnUrl| && '/' !in r[|CdnUrl|..|r| - 1]
  {
    var segment := Split(SliceFrom(url, |CdnUrl|), '/')[0];
    CdnUrl + segment + "/"
  }

  /** For a URL `cdnUrl + seg + '/' + rest` the package folder is `cdnUrl + seg + '/'`. */
  lemma PackageBaseOfPath(segment: string, rest: string)
    requires '/' !in segment
    ensures GetPackageBase(CdnUrl + segment + "/" + rest) == CdnUrl + segment + "/"
  {
    var url := CdnUrl + segment + "/" + rest;
    assert url[|CdnUrl|..] == segment + ['/'] + rest;
    SplitAt(segment, rest, '/');
  }

  /** Taking the package folder of a package folder changes nothing. */
  lemma PackageBaseIdempotent(url: string)
    ensures GetPackageBase(GetPackageBase(url)) == GetPackageBase(url)
  {
    var base := GetPackageBase(url);
    var segment := base[|CdnUrl|..|base| - 1];
    assert base == CdnUrl + segment + "/" + "";
    PackageBaseOfPath(segment, "");
  }
}
