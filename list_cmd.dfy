/**
 * `jspm list` (src/cmd/list.ts): the exports of an already-located
 * package, normalised to a subpath table and filtered by a subpath prefix.
 */
module ListCmd {
  import opened Wrappers
  import opened Strings
  import opened Manifest
  import opened Urls
  import opened Package

  /** What `list` returns: the package's display name and the matching exports. */
  datatype Listing = Listing(resolved: string, exports: Dict<ExportsTarget>)

  // ------------------------------------------------------ exports table

  /** `key[0] !== '.'`: an empty key has no first character and passes. */
  predicate NotSubpathKey(key: string)
  {
    |key| == 0 || key[0] != '.'
  }

  predicate NoSubpathKeys(d: Dict<ExportsTarget>)
  {
    forall i :: 0 <= i < |d| ==> NotSubpathKey(d[i].0)
  }

  /**
   * The exports as a subpath table: a non-object is wrapped as `{'.': exports}`,
   * and so is an object none of whose keys starts with `.` (a condition object).
   */
  function ExportsTable(exports: ExportsTarget): (r: Dict<ExportsTarget>)
    ensures |r| > 0 ==> !NoSubpathKeys(r)
    ensures exports.Obj? && !NoSubpathKeys(exports.entries) ==> r == exports.entries
    ensures !exports.Obj? ==> r == [(".", exports)]
    ensures exports.Obj? && NoSubpathKeys(exports.entries) ==> r == [(".", exports)]
  {
    if exports.Obj? && !NoSubpathKeys(exports.entries) then exports.entries
    else if exports.Obj? then
      assert !NotSubpathKey([(".", exports)][0].0);
      [(".", exports)]
    else
      assert !NotSubpathKey([(".", exports)][0].0);
      [(".", exports)]
  }

  // ----------------------------------------------------------- filtering

  /** `key.startsWith(subpath) && !key.endsWith('!cjs')`. */
  predicate Passes(key: string, subpath: string)
  {
    StartsWith(key, subpath) && !EndsWith(key, "!cjs")
  }

  /** `Object.keys(exports).filter(...)`. */
  function MatchingKeys(d: Dict<ExportsTarget>, subpath: string): (r: seq<string>)
    ensures |r| <= |d|
    ensures forall i :: 0 <= i < |r| ==> Passes(r[i], subpath)
  {
    if |d| == 0 then []
    else MatchingKeys(d[..|d| - 1], subpath) + (if Passes(d[|d| - 1].0, subpath) then [d[|d| - 1].0] else [])
  }

  /** The entries whose keys pass, in order, with their values. */
  function MatchingEntries(d: Dict<ExportsTarget>, subpath: string): seq<(string, ExportsTarget)>
  {
    if |d| == 0 then []
    else MatchingEntries(d[..|d| - 1], subpath) + (if Passes(d[|d| - 1].0, subpath) then [d[|d| - 1]] else [])
  }

  /**
   * `filteredExports[key] = exports[key]` for each key in turn. A key the
   * object lacks would copy `undefined`; the keys copied come from the
   * object itself, so that case is skipped.
   */
  function Copied(d: Dict<ExportsTarget>, keys: seq<string>): (r: Dict<ExportsTarget>)
    ensures |r| <= |keys|
    ensures forall i :: 0 <= i < |r| ==> r[i].0 in keys
  {
    if |keys| == 0 then []
    else
      match Get(d, keys[|keys| - 1])
      case Some(v) => Put(Copied(d, keys[..|keys| - 1]), keys[|keys| - 1], v)
      case None => Copied(d, keys[..|keys| - 1])
  }

  /** Exactly the keys of the object that pass are kept. */
  lemma {:induction false} MatchingKeysMember(d: Dict<ExportsTarget>, subpath: string, key: string)
    ensures key in MatchingKeys(d, subpath) <==> key in Keys(d) && Passes(key, subpath)
  {
    if |d| > 0 {
      var init := d[..|d| - 1];
      MatchingKeysMember(init, subpath, key);
      assert Keys(d) == Keys(init) + [d[|d| - 1].0];
    }
  }

  /** The matching entries carry exactly the matching keys. */
  lemma {:induction false} MatchingEntriesKeys(d: Dict<ExportsTarget>, subpath: string)
    ensures Keys(MatchingEntries(d, subpath)) == MatchingKeys(d, subpath)
  {
    if |d| > 0 {
      var init := d[..|d| - 1];
      MatchingEntriesKeys(init, subpath);
    }
  }

  /** Every matching entry is an entry of the object whose key passes. */
  lemma {:induction false} MatchingEntriesFrom(d: Dict<ExportsTarget>, subpath: string, e: (string, ExportsTarget))
    ensures e in MatchingEntries(d, subpath) <==> e in d && Passes(e.0, subpath)
  {
    if |d| > 0 {
      var init := d[..|d| - 1];
      MatchingEntriesFrom(init, subpath, e);
      assert d == init + [d[|d| - 1]];
    }
  }

  /** Copying reads the object only at the copied keys. */
  lemma {:induction false} CopiedAgree(d: Dict<ExportsTarget>, e: Dict<ExportsTarget>, keys: seq<string>)
    requires forall k :: k in keys ==> Get(d, k) == Get(e, k)
    ensures Copied(d, keys) == Copied(e, keys)
  {
    if |keys| > 0 {
      var init := keys[..|keys| - 1];
      assert keys[|keys| - 1] in keys;
      assert forall k :: k in init ==> k in keys;
      CopiedAgree(d, e, init);
    }
  }

  /** A bound key is found. */
  lemma GetBound(d: Dict<ExportsTarget>, key: string)
    requires key in Keys(d)
    ensures Get(d, key).Some?
  {
    GetFinds(d, key);
    var i :| 0 <= i < |d| && Keys(d)[i] == key;
  }

  /**
   * With distinct keys (as `JSON.parse` gives), copying the matching keys
   * one by one rebuilds exactly the matching entries, in order.
   */
  lemma {:induction false} CopiedMatching(d: Dict<ExportsTarget>, subpath: string)
    requires DistinctKeys(d)
    ensures Copied(d, MatchingKeys(d, subpath)) == MatchingEntries(d, subpath)
  {
    if |d| > 0 {
      var init := d[..|d| - 1];
      var last := d[|d| - 1];
      assert d == init + [last];
      var mk := MatchingKeys(init, subpath);
      forall k | k in mk
        ensures Get(d, k) == Get(init, k)
      {
        MatchingKeysMember(init, subpath, k);
        GetBound(init, k);
        GetAppend(init, last, k);
      }
      CopiedAgree(d, init, mk);
      CopiedMatching(init, subpath);
      if Passes(last.0, subpath) {
        var me := MatchingEntries(init, subpath);
        forall i | 0 <= i < |init| ensures init[i].0 != last.0 {
          assert d[i].0 != d[|d| - 1].0;
        }
        assert last.0 !in Keys(init);
        GetFinds(init, last.0);
        GetAppend(init, last, last.0);
        MatchingKeysMember(init, subpath, last.0);
        MatchingEntriesKeys(init, subpath);
        assert forall i :: 0 <= i < |me| ==> me[i].0 != last.0 by {
          forall i | 0 <= i < |me| ensures me[i].0 != last.0 {
            assert Keys(me)[i] in mk;
          }
        }
        assert MatchingKeys(d, subpath) == mk + [last.0];
        assert MatchingKeys(d, subpath)[..|MatchingKeys(d, subpath)| - 1] == mk;
      } else {
        assert MatchingKeys(d, subpath) == mk;
      }
    }
  }

  /** The loop filling `filteredExports`. */
  method CopyMatches(exports: Dict<ExportsTarget>, matches: seq<string>) returns (filtered: Dict<ExportsTarget>)
    ensures filtered == Copied(exports, matches)
  {
    filtered := [];
    for i := 0 to |matches|
      invariant filtered == Copied(exports, matches[..i])
    {
      assert matches[..i + 1][..i] == matches[..i];
      var key := matches[i];
      var value := Get(exports, key);
      if value.Some? {
        filtered := Put(filtered, key, value.value);
      }
    }
    assert matches[..|matches|] == matches;
  }

  // ---------------------------------------------------------------- list

  /** `pkgUrlToNiceString` with its default CDN prefixes. */
  function Nice(pkgUrl: string, urls: UrlOps): Result<string>
  {
    PkgUrlToNiceString(pkgUrl, DefaultNiceCdnUrls, urls)
  }

  /** A JspmError whose message embeds the package's nice string; a failing decode throws instead. */
  function NamedError(prefix: string, pkgUrl: string, suffix: string, urls: UrlOps): (e: Error)
    ensures Nice(pkgUrl, urls).Ok? ==> e == JspmError(prefix + Nice(pkgUrl, urls).value + suffix, "")
    ensures Nice(pkgUrl, urls).Err? ==> e == Nice(pkgUrl, urls).error
  {
    match Nice(pkgUrl, urls)
    case Ok(s) => JspmError(prefix + s + suffix, "")
    case Err(e) => e
  }

  /** `pkgUrl.slice(0, -1)`. */
  function DropLast(s: string): (r: string)
    ensures |s| > 0 ==> s == r + [s[|s| - 1]]
    ensures |s| == 0 ==> r == ""
  {
    if |s| == 0 then "" else s[..|s| - 1]
  }

  /**
   * `list(module)` once the package URL and its configuration are known.
   * Errors: no configuration, a falsy `exports`, no key matching the subpath.
   */
  method List(pkgUrl: string, pcfg: Option<PackageConfig>, subpath: string, urls: UrlOps) returns (r: Result<Listing>)
    ensures pcfg.None? ==> r == Err(NamedError("No package configuration found for ", pkgUrl, ".", urls))
    ensures pcfg.Some? && !(pcfg.value.exports.Some? && Truthy(pcfg.value.exports.value)) ==>
      r == Err(NamedError("No package exports defined for package ", pkgUrl, ".", urls))
    ensures pcfg.Some? && pcfg.value.exports.Some? && Truthy(pcfg.value.exports.value) ==>
      var table := ExportsTable(pcfg.value.exports.value);
      if |MatchingKeys(table, subpath)| == 0 then r == Err(NamedError("No exports matching " + subpath + " in ", pkgUrl, "", urls))
      else r.Err? <==> Nice(DropLast(pkgUrl), urls).Err?
    ensures r.Ok? ==> (pcfg.Some? && pcfg.value.exports.Some? &&
      r.value.exports == Copied(ExportsTable(pcfg.value.exports.value), MatchingKeys(ExportsTable(pcfg.value.exports.value), subpath)) &&
      |MatchingKeys(ExportsTable(pcfg.value.exports.value), subpath)| > 0 &&
      Nice(DropLast(pkgUrl), urls) == Ok(r.value.resolved))
  {
    if pcfg.None? {
      return Err(NamedError("No package configuration found for ", pkgUrl, ".", urls));
    }
    if !(pcfg.value.exports.Some? && Truthy(pcfg.value.exports.value)) {
      return Err(NamedError("No package exports defined for package ", pkgUrl, ".", urls));
    }
    var exports := ExportsTable(pcfg.value.exports.value);
    var matches := MatchingKeys(exports, subpath);
    if |matches| == 0 {
      return Err(NamedError("No exports matching " + subpath + " in ", pkgUrl, "", urls));
    }
    var filtered := CopyMatches(exports, matches);
    var resolved := Nice(DropLast(pkgUrl), urls);
    if resolved.Err? {
      return Err(resolved.error);
    }
    return Ok(Listing(resolved.value, filtered));
  }

  /**
   * What a listing holds: from a well-formed object, exactly the entries
   * whose keys start with the subpath and do not end in `!cjs`, with their
   * values unchanged and in the object's order.
   */
  lemma ListedEntries(exports: ExportsTarget, subpath: string, e: (string, ExportsTarget))
    requires exports.Obj? ==> DistinctKeys(exports.entries)
    ensures Copied(ExportsTable(exports), MatchingKeys(ExportsTable(exports), subpath)) == MatchingEntries(ExportsTable(exports), subpath)
    ensures e in Copied(ExportsTable(exports), MatchingKeys(ExportsTable(exports), subpath)) <==> e in ExportsTable(exports) && Passes(e.0, subpath)
  {
    var table := ExportsTable(exports);
    assert DistinctKeys(table);
    CopiedMatching(table, subpath);
    MatchingEntriesFrom(table, subpath, e);
  }

  /** A string export listed under `.`: `{'.': s}` for the empty or `.` subpath. */
  lemma ListString(s: string)
    ensures ExportsTable(Str(s)) == [(".", Str(s))]
    ensures MatchingKeys([(".", Str(s))], ".") == ["."]
    ensures MatchingKeys([(".", Str(s))], "./feature") == []
  {
    var d := [(".", Str(s))];
    assert d[..0] == [];
    assert !EndsWith(".", "!cjs");
  }
}
