/**
 * URLs as the modelled code sees them. WHATWG `new URL` parsing and the
 * helpers of src/common/url.ts (`isRelative`, `isPlain`, `relativeUrl`,
 * `urlToNiceStr`) are not part of this model: they are supplied as the
 * functions of a `UrlOps` value, and the model only relies on what they
 * return.
 */
module Urls {
  import opened Wrappers

  /** The parts of a parsed URL that the modelled code reads. */
  datatype Url = Url(href: string, protocol: string, origin: string, pathname: string, search: string, hash: string)

  datatype UrlOps = UrlOps(
    /** `new URL(input, base)`; `None` when the constructor throws. */
    parse: (string, string) -> Option<Url>,
    isRelative: string -> bool,
    isPlain: string -> bool,
    /** `relativeUrl(url, base)`. */
    relative: (string, string) -> string,
    /** `urlToNiceStr(url)`. */
    niceString: string -> string,
    /** `decodeURIComponent(s)`; `None` when it throws. */
    decode: string -> Option<string>)
}
