/**
 * The version lock (src/install/lock.ts): a table from scope URL to
 * dependency name to resolved URL, read and written in place by the
 * installer, pruned to the pairs an install visited, and loaded from and
 * saved to `jspm.lock`.
 *
 * TOML reading and writing and the file system are not part of this
 * model: the parsed `package` list, the file's text and the TOML printer
 * are supplied by the caller.
 */
module Lock {
  import opened Wrappers
  import opened Strings
  import opened Sorting
  import opened Urls

  /** `LockResolutions`: scope URL -> dependency name -> resolved URL. */
  type Resolutions = map<string, map<string, string>>

  /** The dependencies of scope `pkgUrl`, empty when the scope has no entry. */
  function ScopeOf(res: Resolutions, pkgUrl: string): map<string, string>
  {
    if pkgUrl in res then res[pkgUrl] else map[]
  }

  /** The resolution of `name` in scope `pkgUrl`, if any. */
  function Resolution(res: Resolutions, name: string, pkgUrl: string): Option<string>
  {
    if pkgUrl in res && name in res[pkgUrl] then Some(res[pkgUrl][name]) else None
  }

  /** The table with `name` in scope `pkgUrl` bound to `resolution`, the scope created if missing. */
  function WithResolution(res: Resolutions, name: string, pkgUrl: string, resolution: string): Resolutions
  {
    res[pkgUrl := ScopeOf(res, pkgUrl)[name := resolution]]
  }

  /** A binding, once set, reads back; every other binding reads as before. */
  lemma ResolutionAfterSet(res: Resolutions, name: string, pkgUrl: string, resolution: string,
                           otherName: string, otherUrl: string)
    ensures Resolution(WithResolution(res, name, pkgUrl, resolution), otherName, otherUrl)
         == if otherName == name && otherUrl == pkgUrl then Some(resolution) else Resolution(res, otherName, otherUrl)
  {
  }

  /** Setting a binding to the value it already holds leaves the table as it was. */
  lemma SetExistingIsIdentity(res: Resolutions, name: string, pkgUrl: string)
    requires Resolution(res, name, pkgUrl).Some?
    ensures WithResolution(res, name, pkgUrl, Resolution(res, name, pkgUrl).value) == res
  {
    assert ScopeOf(res, pkgUrl)[name := res[pkgUrl][name]] == res[pkgUrl];
  }

  /** A lock table the installer shares and updates in place. */
  class LockTable {
    var resolutions: Resolutions

    constructor (resolutions: Resolutions)
      ensures this.resolutions == resolutions
    {
      this.resolutions := resolutions;
    }

    /**
     * `getResolution(resolutions, name, pkgUrl)`: a scope URL must end in
     * `/`; reading creates an empty entry for a missing scope.
     */
    method GetResolution(name: string, pkgUrl: string) returns (r: Result<Option<string>>)
      modifies this
      ensures !EndsWith(pkgUrl, "/") ==> r == Err(InternalError) && resolutions == old(resolutions)
      ensures EndsWith(pkgUrl, "/") ==>
        && r == Ok(Resolution(old(resolutions), name, pkgUrl))
        && resolutions == old(resolutions)[pkgUrl := ScopeOf(old(resolutions), pkgUrl)]
    {
      if !EndsWith(pkgUrl, "/") {
        return Err(InternalError);
      }
      resolutions := resolutions[pkgUrl := ScopeOf(resolutions, pkgUrl)];
      r := Ok(if name in resolutions[pkgUrl] then Some(resolutions[pkgUrl][name]) else None);
    }

    /** `setResolution(resolutions, name, pkgUrl, resolution)`: a scope URL must end in `/`. */
    method SetResolution(name: string, pkgUrl: string, resolution: string) returns (r: Result<()>)
      modifies this
      ensures !EndsWith(pkgUrl, "/") ==> r == Err(InternalError) && resolutions == old(resolutions)
      ensures EndsWith(pkgUrl, "/") ==>
        r == Ok(()) && resolutions == WithResolution(old(resolutions), name, pkgUrl, resolution)
    {
      if !EndsWith(pkgUrl, "/") {
        return Err(InternalError);
      }
      var scope := ScopeOf(resolutions, pkgUrl);
      resolutions := resolutions[pkgUrl := scope[name := resolution]];
      r := Ok(());
    }
  }

  // --------------------------------------------------------- pruneResolutions

  /** Some pair of `to` is `(name, parent)`. */
  predicate Listed(to: seq<(string, string)>, name: string, parent: string)
  {
    exists i :: 0 <= i < |to| && to[i] == (name, parent)
  }

  /**
   * `pruneResolutions(resolutions, to)`: a fresh table holding exactly the
   * listed pairs, with the values copied; a listed scope missing from the
   * table makes the lookup throw.
   */
  method PruneResolutions(res: Resolutions, to: seq<(string, string)>) returns (r: Result<Resolutions>)
    ensures r.Err? <==> exists i :: 0 <= i < |to| && to[i].1 !in res
    ensures r.Ok? ==> forall p :: p in r.value <==> exists i :: 0 <= i < |to| && to[i].1 == p
    ensures r.Ok? ==> forall p, n :: p in r.value && n in r.value[p] ==>
      Listed(to, n, p) && Resolution(res, n, p) == Some(r.value[p][n])
    ensures r.Ok? ==> forall i :: 0 <= i < |to| && Resolution(res, to[i].0, to[i].1).Some? ==>
      Resolution(r.value, to[i].0, to[i].1) == Resolution(res, to[i].0, to[i].1)
  {
    var out: Resolutions := map[];
    for i := 0 to |to|
      invariant Pruned(res, to, i, out)
    {
      var (name, parent) := to[i];
      if parent !in res {
        return Err(PlainError("Cannot read properties of undefined"));
      }
      PruneStep(res, to, i, out);
      out := Kept(res, out, name, parent);
    }
    r := Ok(out);
  }

  /** `out[parent][name] = res[parent][name]`, the scope created if missing; nothing is set when the name is unresolved. */
  function Kept(res: Resolutions, out: Resolutions, name: string, parent: string): Resolutions
    requires parent in res
  {
    var scope := ScopeOf(out, parent);
    out[parent := if name in res[parent] then scope[name := res[parent][name]] else scope]
  }

  /** What `pruneResolutions` has built after the first `i` pairs. */
  ghost predicate Pruned(res: Resolutions, to: seq<(string, string)>, i: int, out: Resolutions)
    requires 0 <= i <= |to|
  {
    && (forall j :: 0 <= j < i ==> to[j].1 in res)
    && (forall p :: p in out <==> exists j :: 0 <= j < i && to[j].1 == p)
    && (forall p, n :: p in out && n in out[p] ==>
          (exists j :: 0 <= j < i && to[j] == (n, p)) && Resolution(res, n, p) == Some(out[p][n]))
    && (forall j :: 0 <= j < i && Resolution(res, to[j].0, to[j].1).Some? ==>
          Resolution(out, to[j].0, to[j].1) == Resolution(res, to[j].0, to[j].1))
  }

  /** One pair more. */
  lemma PruneStep(res: Resolutions, to: seq<(string, string)>, i: int, out: Resolutions)
    requires 0 <= i < |to| && Pruned(res, to, i, out) && to[i].1 in res
    ensures Pruned(res, to, i + 1, Kept(res, out, to[i].0, to[i].1))
  {
    var out' := Kept(res, out, to[i].0, to[i].1);
    PruneStepScopes(res, to, i, out, out');
    PruneStepBindings(res, to, i, out, out');
    PruneStepKeeps(res, to, i, out, out');
  }

  lemma PruneStepScopes(res: Resolutions, to: seq<(string, string)>, i: int, out: Resolutions, out': Resolutions)
    requires 0 <= i < |to| && Pruned(res, to, i, out) && to[i].1 in res
    requires out' == Kept(res, out, to[i].0, to[i].1)
    ensures forall p :: p in out' <==> exists j :: 0 <= j < i + 1 && to[j].1 == p
  {
    forall p | p in out' ensures exists j :: 0 <= j < i + 1 && to[j].1 == p {
      if p != to[i].1 {
        var j :| 0 <= j < i && to[j].1 == p;
      }
    }
  }

  lemma PruneStepBindings(res: Resolutions, to: seq<(string, string)>, i: int, out: Resolutions, out': Resolutions)
    requires 0 <= i < |to| && Pruned(res, to, i, out) && to[i].1 in res
    requires out' == Kept(res, out, to[i].0, to[i].1)
    ensures forall p, n :: p in out' && n in out'[p] ==>
      (exists j :: 0 <= j < i + 1 && to[j] == (n, p)) && Resolution(res, n, p) == Some(out'[p][n])
  {
    var (name, parent) := to[i];
    forall p, n | p in out' && n in out'[p]
      ensures (exists j :: 0 <= j < i + 1 && to[j] == (n, p)) && Resolution(res, n, p) == Some(out'[p][n])
    {
      if p != parent || n != name {
        assert p in out && n in out[p];
        var j :| 0 <= j < i && to[j] == (n, p);
      }
    }
  }

  lemma PruneStepKeeps(res: Resolutions, to: seq<(string, string)>, i: int, out: Resolutions, out': Resolutions)
    requires 0 <= i < |to| && Pruned(res, to, i, out) && to[i].1 in res
    requires out' == Kept(res, out, to[i].0, to[i].1)
    ensures forall j :: 0 <= j < i + 1 && Resolution(res, to[j].0, to[j].1).Some? ==>
      Resolution(out', to[j].0, to[j].1) == Resolution(res, to[j].0, to[j].1)
  {
  }

  // ---------------------------------------------------------- loadVersionLock

  /** A `deps` value of a lockfile package: not a table, or its entries (`None` for a non-string value). */
  datatype Deps = NoDeps | DepsTable(entries: seq<(string, Option<string>)>)

  /** One `[[package]]` of the lockfile. */
  datatype LockPackage = LockPackage(url: string, deps: Deps)

  /** The lockfile's path and its `pathToFileURL`, against which its URLs resolve. */
  datatype LockPath = LockPath(file: string, url: string)

  /** `{ resolutions, exists }`; `found` is the lockfile's `exists`. */
  datatype Lockfile = Lockfile(found: bool, resolutions: Resolutions)

  /** A `[[package]]` as written: its URL and its sorted `name = target` entries. */
  datatype SavedPackage = SavedPackage(url: string, deps: seq<(string, string)>)

  /**
   * The TOML library: `parse` gives the `package` value, `None` when it is
   * not an array, and fails on a syntax error; `stringify` prints a
   * package list.
   */
  datatype Toml = Toml(parse: string -> Result<Option<seq<LockPackage>>>, stringify: seq<SavedPackage> -> string)

  /** The text `parseResolutionURL` resolves: a `/` is added unless it ends in `/` or holds a `|`. */
  function LockUrlText(url: string): (r: string)
    ensures EndsWith(r, "/") || '|' in r
    ensures EndsWith(url, "/") || '|' in url ==> r == url
    ensures !(EndsWith(url, "/") || '|' in url) ==> r == url + "/"
  {
    if EndsWith(url, "/") || '|' in url then url else url + "/"
  }

  /**
   * The message of `parseResolutionURL`'s error: the URL, the entry's name
   * when it has a non-empty one (a package URL has none), and the lockfile path.
   */
  function InvalidUrlMessage(url: string, name: string, lockFile: string): (m: string)
  {
    "Invalid package URL " + url + " " + (if name != "" then "for " + name + " " else "") + "in lockfile " + lockFile
  }

  /** The message names the entry only when it has a non-empty name. */
  lemma InvalidUrlMessageCases(url: string, name: string, lockFile: string)
    ensures name == "" ==> InvalidUrlMessage(url, name, lockFile) == "Invalid package URL " + url + " in lockfile " + lockFile
    ensures name != "" ==> InvalidUrlMessage(url, name, lockFile) == "Invalid package URL " + url + " for " + name + " in lockfile " + lockFile
  {
  }

  /**
   * `parseResolutionURL(url, name)`: resolved against the lockfile's URL, or
   * `ERR_INVALID_LOCKFILE` naming the URL, the entry and the lockfile.
   */
  function ParseResolutionUrl(url: string, name: string, lock: LockPath, urls: UrlOps): (r: Result<string>)
    ensures r.Err? <==> urls.parse(LockUrlText(url), lock.url).None?
    ensures r.Err? ==> r.error == JspmError(InvalidUrlMessage(url, name, lock.file), "ERR_INVALID_LOCKFILE")
    ensures r.Ok? ==> r.value == urls.parse(LockUrlText(url), lock.url).value.href
  {
    match urls.parse(LockUrlText(url), lock.url)
    case None => Err(JspmError(InvalidUrlMessage(url, name, lock.file), "ERR_INVALID_LOCKFILE"))
    case Some(u) => Ok(u.href)
  }

  /** The keys of a table's entries are distinct, as an object's are. */
  predicate DistinctKeys(entries: seq<(string, Option<string>)>)
  {
    forall i, j :: 0 <= i < j < |entries| ==> entries[i].0 != entries[j].0
  }

  /** Every string value among `entries` resolves. */
  ghost predicate EntriesParse(entries: seq<(string, Option<string>)>, lock: LockPath, urls: UrlOps)
  {
    forall i :: 0 <= i < |entries| && entries[i].1.Some? ==> ParseResolutionUrl(entries[i].1.value, entries[i].0, lock, urls).Ok?
  }

  /** `k` is the resolved URL of one of the string entries. */
  ghost predicate IsTarget(entries: seq<(string, Option<string>)>, lock: LockPath, urls: UrlOps, k: string)
  {
    exists j :: 0 <= j < |entries| && entries[j].1.Some? && ParseResolutionUrl(entries[j].1.value, entries[j].0, lock, urls) == Ok(k)
  }

  /**
   * What `parseResolutions` leaves for one table: `deps` binds exactly its
   * string entries to their resolved targets, each target is a scope of
   * `res'`, and `res'` only adds empty scopes for targets to `res`.
   */
  ghost predicate TableParsed(entries: seq<(string, Option<string>)>, lock: LockPath, urls: UrlOps,
                              res: Resolutions, deps: map<string, string>, res': Resolutions)
  {
    && (forall n :: n in deps <==> exists e :: 0 <= e < |entries| && entries[e].0 == n && entries[e].1.Some?)
    && (forall e :: 0 <= e < |entries| && entries[e].1.Some? ==> ParseResolutionUrl(entries[e].1.value, entries[e].0, lock, urls).Ok?)
    && (forall e :: 0 <= e < |entries| && entries[e].1.Some? ==>
          deps[entries[e].0] == ParseResolutionUrl(entries[e].1.value, entries[e].0, lock, urls).value
          && deps[entries[e].0] in res')
    && (forall k :: k in res ==> k in res' && res'[k] == res[k])
    && (forall k :: k in res' && k !in res ==> res'[k] == map[] && IsTarget(entries, lock, urls, k))
  }

  /**
   * `parseResolutions(deps, resolutions)`: the string entries, resolved;
   * each target also gets a scope entry, empty unless it already had one.
   * Returns the scope's dependencies and the updated table.
   */
  method ParseResolutions(entries: seq<(string, Option<string>)>, lock: LockPath, urls: UrlOps, res: Resolutions)
    returns (r: Result<(map<string, string>, Resolutions)>)
    requires DistinctKeys(entries)
    ensures r.Ok? <==> EntriesParse(entries, lock, urls)
    ensures r.Err? ==> r.error.JspmError? && r.error.code == "ERR_INVALID_LOCKFILE"
    ensures r.Ok? ==> TableParsed(entries, lock, urls, res, r.value.0, r.value.1)
  {
    ParseFacts(entries, lock, urls, res);
    ghost var whole := ParseFrom(entries, 0, lock, urls, map[], res);
    var deps: map<string, string> := map[];
    var res' := res;
    for i := 0 to |entries|
      invariant ParseFrom(entries, i, lock, urls, deps, res') == whole
    {
      var (name, value) := entries[i];
      if value.Some? {
        var url := ParseResolutionUrl(value.value, name, lock, urls);
        if url.Err? {
          assert ParseFrom(entries, i, lock, urls, deps, res') == Err(url.error);
          return Err(url.error);
        }
        assert ParseFrom(entries, i, lock, urls, deps, res')
          == ParseFrom(entries, i + 1, lock, urls, deps[name := url.value], res'[url.value := ScopeOf(res', url.value)]);
        res' := res'[url.value := ScopeOf(res', url.value)];
        deps := deps[name := url.value];
      }
    }
    r := Ok((deps, res'));
  }

  /** The loop of `parseResolutions` from entry `i` on, given what the entries before it built. */
  function ParseFrom(entries: seq<(string, Option<string>)>, i: int, lock: LockPath, urls: UrlOps,
                     deps: map<string, string>, res: Resolutions): Result<(map<string, string>, Resolutions)>
    requires 0 <= i <= |entries|
    decreases |entries| - i
  {
    if i == |entries| then Ok((deps, res))
    else if entries[i].1.None? then ParseFrom(entries, i + 1, lock, urls, deps, res)
    else match ParseResolutionUrl(entries[i].1.value, entries[i].0, lock, urls)
      case Err(e) => Err(e)
      case Ok(url) => ParseFrom(entries, i + 1, lock, urls, deps[entries[i].0 := url], res[url := ScopeOf(res, url)])
  }

  /** The properties of `ParseFrom` from the first entry, as `ParseResolutions` states them. */
  lemma ParseFacts(entries: seq<(string, Option<string>)>, lock: LockPath, urls: UrlOps, res: Resolutions)
    requires DistinctKeys(entries)
    ensures var r := ParseFrom(entries, 0, lock, urls, map[], res);
      && (r.Ok? <==> EntriesParse(entries, lock, urls))
      && (r.Err? ==> r.error.JspmError? && r.error.code == "ERR_INVALID_LOCKFILE")
      && (r.Ok? ==> var (deps, res') := r.value;
           && (forall n :: n in deps <==> exists i :: 0 <= i < |entries| && entries[i].0 == n && entries[i].1.Some?)
           && (forall i :: 0 <= i < |entries| && entries[i].1.Some? ==>
                 deps[entries[i].0] == ParseResolutionUrl(entries[i].1.value, entries[i].0, lock, urls).value
                 && deps[entries[i].0] in res')
           && (forall k :: k in res ==> k in res' && res'[k] == res[k])
           && (forall k :: k in res' && k !in res ==> res'[k] == map[] && IsTarget(entries, lock, urls, k)))
  {
    ParseOk(entries, 0, lock, urls, map[], res);
    ParseErr(entries, 0, lock, urls, map[], res);
    ParseKeys(entries, 0, lock, urls, map[], res);
    ParseValues(entries, 0, lock, urls, map[], res);
    ParseKeeps(entries, 0, lock, urls, map[], res);
    ParseNew(entries, 0, lock, urls, map[], res);
  }

  /** Every string entry from `i` on resolves. */
  ghost predicate ParsesFrom(entries: seq<(string, Option<string>)>, i: int, lock: LockPath, urls: UrlOps)
  {
    forall j :: 0 <= i <= j < |entries| && entries[j].1.Some? ==> ParseResolutionUrl(entries[j].1.value, entries[j].0, lock, urls).Ok?
  }

  /** The entries from `i` on resolve exactly when entry `i` does and those after it do. */
  lemma ParsesFromStep(entries: seq<(string, Option<string>)>, i: int, lock: LockPath, urls: UrlOps)
    requires 0 <= i < |entries|
    ensures ParsesFrom(entries, i, lock, urls) <==>
      (entries[i].1.Some? ==> ParseResolutionUrl(entries[i].1.value, entries[i].0, lock, urls).Ok?)
      && ParsesFrom(entries, i + 1, lock, urls)
  {
    if (entries[i].1.Some? ==> ParseResolutionUrl(entries[i].1.value, entries[i].0, lock, urls).Ok?)
       && ParsesFrom(entries, i + 1, lock, urls)
    {
      forall j | i <= j < |entries| && entries[j].1.Some?
        ensures ParseResolutionUrl(entries[j].1.value, entries[j].0, lock, urls).Ok?
      {
        if j > i {
          assert i + 1 <= j;
        }
      }
    }
  }

  /** The loop succeeds exactly when every remaining string entry resolves. */
  lemma {:induction false} ParseOk(entries: seq<(string, Option<string>)>, i: int, lock: LockPath, urls: UrlOps,
                                   deps: map<string, string>, res: Resolutions)
    requires 0 <= i <= |entries|
    ensures ParseFrom(entries, i, lock, urls, deps, res).Ok? <==> ParsesFrom(entries, i, lock, urls)
    decreases |entries| - i
  {
    if i < |entries| {
      ParsesFromStep(entries, i, lock, urls);
      if entries[i].1.None? {
        ParseOk(entries, i + 1, lock, urls, deps, res);
      } else if ParseResolutionUrl(entries[i].1.value, entries[i].0, lock, urls).Ok? {
        var url := ParseResolutionUrl(entries[i].1.value, entries[i].0, lock, urls).value;
        ParseOk(entries, i + 1, lock, urls, deps[entries[i].0 := url], res[url := ScopeOf(res, url)]);
      }
    }
  }

  /** Its only error is an invalid lockfile. */
  lemma {:induction false} ParseErr(entries: seq<(string, Option<string>)>, i: int, lock: LockPath, urls: UrlOps,
                                    deps: map<string, string>, res: Resolutions)
    requires 0 <= i <= |entries|
    ensures var r := ParseFrom(entries, i, lock, urls, deps, res);
      r.Err? ==> r.error.JspmError? && r.error.code == "ERR_INVALID_LOCKFILE"
    decreases |entries| - i
  {
    if i < |entries| {
      if entries[i].1.None? {
        ParseErr(entries, i + 1, lock, urls, deps, res);
      } else if ParseResolutionUrl(entries[i].1.value, entries[i].0, lock, urls).Ok? {
        var url := ParseResolutionUrl(entries[i].1.value, entries[i].0, lock, urls).value;
        ParseErr(entries, i + 1, lock, urls, deps[entries[i].0 := url], res[url := ScopeOf(res, url)]);
      }
    }
  }

  /** The names bound are those bound before and those of the remaining string entries. */
  lemma {:induction false} ParseKeys(entries: seq<(string, Option<string>)>, i: int, lock: LockPath, urls: UrlOps,
                                     deps: map<string, string>, res: Resolutions)
    requires 0 <= i <= |entries|
    ensures var r := ParseFrom(entries, i, lock, urls, deps, res);
      r.Ok? ==> forall n :: n in r.value.0 <==> n in deps || exists j :: i <= j < |entries| && entries[j].0 == n && entries[j].1.Some?
    decreases |entries| - i
  {
    if i < |entries| {
      if entries[i].1.None? {
        ParseKeys(entries, i + 1, lock, urls, deps, res);
      } else if ParseResolutionUrl(entries[i].1.value, entries[i].0, lock, urls).Ok? {
        var url := ParseResolutionUrl(entries[i].1.value, entries[i].0, lock, urls).value;
        ParseKeys(entries, i + 1, lock, urls, deps[entries[i].0 := url], res[url := ScopeOf(res, url)]);
      }
    }
  }

  /** Scopes already present are never changed. */
  lemma {:induction false} ParseKeeps(entries: seq<(string, Option<string>)>, i: int, lock: LockPath, urls: UrlOps,
                                      deps: map<string, string>, res: Resolutions)
    requires 0 <= i <= |entries|
    ensures var r := ParseFrom(entries, i, lock, urls, deps, res);
      r.Ok? ==> forall k :: k in res ==> k in r.value.1 && r.value.1[k] == res[k]
    decreases |entries| - i
  {
    if i < |entries| {
      if entries[i].1.None? {
        ParseKeeps(entries, i + 1, lock, urls, deps, res);
      } else if ParseResolutionUrl(entries[i].1.value, entries[i].0, lock, urls).Ok? {
        var url := ParseResolutionUrl(entries[i].1.value, entries[i].0, lock, urls).value;
        ParseKeeps(entries, i + 1, lock, urls, deps[entries[i].0 := url], res[url := ScopeOf(res, url)]);
      }
    }
  }

  /** Each remaining string entry's name ends up bound to its resolved URL, which has a scope entry. */
  lemma {:induction false} ParseValues(entries: seq<(string, Option<string>)>, i: int, lock: LockPath, urls: UrlOps,
                                       deps: map<string, string>, res: Resolutions)
    requires 0 <= i <= |entries| && DistinctKeys(entries)
    ensures var r := ParseFrom(entries, i, lock, urls, deps, res);
      r.Ok? ==> forall j :: i <= j < |entries| && entries[j].1.Some? ==>
        && entries[j].0 in r.value.0
        && ParseResolutionUrl(entries[j].1.value, entries[j].0, lock, urls) == Ok(r.value.0[entries[j].0])
        && r.value.0[entries[j].0] in r.value.1
    decreases |entries| - i
  {
    if i < |entries| {
      if entries[i].1.None? {
        ParseValues(entries, i + 1, lock, urls, deps, res);
      } else if ParseResolutionUrl(entries[i].1.value, entries[i].0, lock, urls).Ok? {
        var url := ParseResolutionUrl(entries[i].1.value, entries[i].0, lock, urls).value;
        var deps', res' := deps[entries[i].0 := url], res[url := ScopeOf(res, url)];
        var r := ParseFrom(entries, i + 1, lock, urls, deps', res');
        assert ParseFrom(entries, i, lock, urls, deps, res) == r;
        ParseValues(entries, i + 1, lock, urls, deps', res');
        ParseKeeps(entries, i + 1, lock, urls, deps', res');
        assert forall j :: i + 1 <= j < |entries| ==> entries[j].0 != entries[i].0;
        ParseUntouched(entries, i + 1, lock, urls, deps', res', entries[i].0);
        assert r.Ok? ==> entries[i].0 in r.value.0 && r.value.0[entries[i].0] == url && url in r.value.1;
      }
    }
  }

  /** A name none of the remaining entries carries keeps its binding. */
  lemma {:induction false} ParseUntouched(entries: seq<(string, Option<string>)>, i: int, lock: LockPath, urls: UrlOps,
                                          deps: map<string, string>, res: Resolutions, name: string)
    requires 0 <= i <= |entries| && name in deps
    requires forall j :: i <= j < |entries| ==> entries[j].0 != name
    ensures var r := ParseFrom(entries, i, lock, urls, deps, res);
      r.Ok? ==> name in r.value.0 && r.value.0[name] == deps[name]
    decreases |entries| - i
  {
    if i < |entries| {
      if entries[i].1.None? {
        ParseUntouched(entries, i + 1, lock, urls, deps, res, name);
      } else if ParseResolutionUrl(entries[i].1.value, entries[i].0, lock, urls).Ok? {
        var url := ParseResolutionUrl(entries[i].1.value, entries[i].0, lock, urls).value;
        ParseUntouched(entries, i + 1, lock, urls, deps[entries[i].0 := url], res[url := ScopeOf(res, url)], name);
      }
    }
  }

  /** Every scope it adds is empty and is the resolved URL of a remaining string entry. */
  lemma {:induction false} ParseNew(entries: seq<(string, Option<string>)>, i: int, lock: LockPath, urls: UrlOps,
                                    deps: map<string, string>, res: Resolutions)
    requires 0 <= i <= |entries|
    ensures var r := ParseFrom(entries, i, lock, urls, deps, res);
      r.Ok? ==> forall k :: k in r.value.1 && k !in res ==>
        && r.value.1[k] == map[]
        && exists j :: i <= j < |entries| && entries[j].1.Some? && ParseResolutionUrl(entries[j].1.value, entries[j].0, lock, urls) == Ok(k)
    decreases |entries| - i
  {
    if i < |entries| {
      if entries[i].1.None? {
        ParseNew(entries, i + 1, lock, urls, deps, res);
      } else if ParseResolutionUrl(entries[i].1.value, entries[i].0, lock, urls).Ok? {
        var url := ParseResolutionUrl(entries[i].1.value, entries[i].0, lock, urls).value;
        var res' := res[url := ScopeOf(res, url)];
        ParseNew(entries, i + 1, lock, urls, deps[entries[i].0 := url], res');
        ParseKeeps(entries, i + 1, lock, urls, deps[entries[i].0 := url], res');
      }
    }
  }

  /** The TOML library only produces tables whose keys are distinct. */
  ghost predicate TablesDistinct(toml: Toml)
  {
    forall text: string, ps: seq<LockPackage>, i: int :: toml.parse(text) == Ok(Some(ps)) && 0 <= i < |ps| && ps[i].deps.DepsTable? ==>
      DistinctKeys(ps[i].deps.entries)
  }

  /** Every URL among the first `n` packages, scope or string target, resolves. */
  ghost predicate PackagesParse(ps: seq<LockPackage>, n: int, lock: LockPath, urls: UrlOps)
  {
    forall j :: 0 <= j < n && j < |ps| ==>
      ParseResolutionUrl(ps[j].url, "", lock, urls).Ok?
      && (ps[j].deps.DepsTable? ==> EntriesParse(ps[j].deps.entries, lock, urls))
  }

  /** `k` is the resolved scope URL, or a resolved target, of one of the first `n` packages. */
  ghost predicate KnownUrl(ps: seq<LockPackage>, n: int, lock: LockPath, urls: UrlOps, k: string)
  {
    exists j :: 0 <= j < n && j < |ps|
      && (ParseResolutionUrl(ps[j].url, "", lock, urls) == Ok(k)
          || (ps[j].deps.DepsTable? && IsTarget(ps[j].deps.entries, lock, urls, k)))
  }

  /** Some string entry `name` of `entries` resolves to `v`. */
  ghost predicate EntryBinds(entries: seq<(string, Option<string>)>, lock: LockPath, urls: UrlOps, name: string, v: string)
  {
    exists e :: 0 <= e < |entries| && entries[e].0 == name && entries[e].1.Some?
      && ParseResolutionUrl(entries[e].1.value, entries[e].0, lock, urls) == Ok(v)
  }

  /** One of the first `n` packages has scope `s` and an entry binding `name` to `v`. */
  ghost predicate BindingFrom(ps: seq<LockPackage>, n: int, lock: LockPath, urls: UrlOps, s: string, name: string, v: string)
  {
    exists j :: 0 <= j < n && j < |ps| && ps[j].deps.DepsTable?
      && ParseResolutionUrl(ps[j].url, "", lock, urls) == Ok(s)
      && EntryBinds(ps[j].deps.entries, lock, urls, name, v)
  }

  /** The first `n` packages' tables have their scope and every target in `res`. */
  ghost predicate TablesLoaded(ps: seq<LockPackage>, n: int, lock: LockPath, urls: UrlOps, res: Resolutions)
  {
    forall j :: 0 <= j < n && j < |ps| && ps[j].deps.DepsTable? && ParseResolutionUrl(ps[j].url, "", lock, urls).Ok? ==>
      ParseResolutionUrl(ps[j].url, "", lock, urls).value in res
      && forall k :: IsTarget(ps[j].deps.entries, lock, urls, k) ==> k in res
  }

  /** The tables of `ps` have distinct keys. */
  predicate PackageTablesDistinct(ps: seq<LockPackage>)
  {
    forall i :: 0 <= i < |ps| && ps[i].deps.DepsTable? ==> DistinctKeys(ps[i].deps.entries)
  }

  /**
   * The soundness half of the loading invariant after `n` packages: every
   * table's scope and targets are present, every scope is a package URL
   * or target, and every binding comes from some package's string entry.
   */
  ghost predicate Sound(ps: seq<LockPackage>, n: int, lock: LockPath, urls: UrlOps, res: Resolutions)
  {
    && TablesLoaded(ps, n, lock, urls, res)
    && (forall k :: k in res ==> KnownUrl(ps, n, lock, urls, k))
    && (forall s, name :: s in res && name in res[s] ==> BindingFrom(ps, n, lock, urls, s, name, res[s][name]))
  }

  /**
   * Package `k` sets scope `s` outright: its URL resolves to `s` and it has
   * a table, or it has none and `s` ends in `/` (the empty reset).
   */
  ghost predicate Resets(ps: seq<LockPackage>, k: int, lock: LockPath, urls: UrlOps, s: string)
  {
    0 <= k < |ps| && ParseResolutionUrl(ps[k].url, "", lock, urls) == Ok(s)
    && (ps[k].deps.DepsTable? || EndsWith(s, "/"))
  }

  /** Package `j` is the last of the first `n` packages to set scope `s`. */
  ghost predicate LastReset(ps: seq<LockPackage>, n: int, j: int, lock: LockPath, urls: UrlOps, s: string)
  {
    Resets(ps, j, lock, urls, s) && forall k :: j < k < n ==> !Resets(ps, k, lock, urls, s)
  }

  /** `m` binds exactly the string entries of `entries`, each to its resolved URL. */
  ghost predicate TableBound(entries: seq<(string, Option<string>)>, lock: LockPath, urls: UrlOps, m: map<string, string>)
  {
    && (forall name :: name in m ==> exists e :: 0 <= e < |entries| && entries[e].0 == name && entries[e].1.Some?)
    && (forall e :: 0 <= e < |entries| && entries[e].1.Some? ==>
          entries[e].0 in m && ParseResolutionUrl(entries[e].1.value, entries[e].0, lock, urls) == Ok(m[entries[e].0]))
  }

  /** Scope `s` holds what package `j` sets: its table's bindings, or nothing after a reset. */
  ghost predicate Holds(ps: seq<LockPackage>, j: int, lock: LockPath, urls: UrlOps, res: Resolutions, s: string)
    requires 0 <= j < |ps|
  {
    s in res
    && (ps[j].deps.DepsTable? ==> TableBound(ps[j].deps.entries, lock, urls, res[s]))
    && (!ps[j].deps.DepsTable? ==> res[s] == map[])
  }

  /**
   * The completeness half: the scope last set by one of the first `n`
   * packages holds exactly what that package sets.
   */
  ghost predicate Complete(ps: seq<LockPackage>, n: int, lock: LockPath, urls: UrlOps, res: Resolutions)
  {
    forall j, s :: 0 <= j < n && LastReset(ps, n, j, lock, urls, s) ==> Holds(ps, j, lock, urls, res, s)
  }

  /** The loop invariant of `LoadPackages` after `n` packages. */
  ghost predicate Loaded(ps: seq<LockPackage>, n: int, lock: LockPath, urls: UrlOps, res: Resolutions)
  {
    Sound(ps, n, lock, urls, res) && Complete(ps, n, lock, urls, res)
  }

  /** A package that does not set `s` leaves the last setter of `s` before it the last one. */
  lemma LastResetBefore(ps: seq<LockPackage>, i: int, j: int, lock: LockPath, urls: UrlOps, s: string)
    requires 0 <= j < i && LastReset(ps, i + 1, j, lock, urls, s)
    ensures LastReset(ps, i, j, lock, urls, s) && !Resets(ps, i, lock, urls, s)
  {
  }

  /**
   * After package `i`, which sets `scope` to `table` (or sets nothing when
   * `sets` is false), every other scope of `res` is unchanged in `out`.
   */
  lemma CompleteStep(ps: seq<LockPackage>, i: int, lock: LockPath, urls: UrlOps,
                     res: Resolutions, out: Resolutions, sets: bool, scope: string)
    requires 0 <= i < |ps| && Complete(ps, i, lock, urls, res)
    requires sets <==> Resets(ps, i, lock, urls, scope)
    requires forall k :: Resets(ps, i, lock, urls, k) ==> k == scope
    requires forall k :: k in res && (k != scope || !sets) ==> k in out && out[k] == res[k]
    requires sets ==> Holds(ps, i, lock, urls, out, scope)
    ensures Complete(ps, i + 1, lock, urls, out)
  {
    forall j, s | 0 <= j < i + 1 && LastReset(ps, i + 1, j, lock, urls, s)
      ensures Holds(ps, j, lock, urls, out, s)
    {
      if j < i {
        LastResetBefore(ps, i, j, lock, urls, s);
        assert Holds(ps, j, lock, urls, res, s);
        KeptScope(res, out, scope, sets, s);
        HoldsKept(ps, j, lock, urls, res, out, s);
      } else {
        SetterIsScope(ps, i, lock, urls, s, scope, sets);
      }
    }
  }

  /** A scope other than the one set keeps its map. */
  lemma KeptScope(res: Resolutions, out: Resolutions, scope: string, sets: bool, s: string)
    requires forall k :: k in res && (k != scope || !sets) ==> k in out && out[k] == res[k]
    requires s in res && (s != scope || !sets)
    ensures s in out && out[s] == res[s]
  {
  }

  /** A scope whose map is unchanged keeps what it holds. */
  lemma HoldsKept(ps: seq<LockPackage>, j: int, lock: LockPath, urls: UrlOps, res: Resolutions, out: Resolutions, s: string)
    requires 0 <= j < |ps| && Holds(ps, j, lock, urls, res, s)
    requires s in out && out[s] == res[s]
    ensures Holds(ps, j, lock, urls, out, s)
  {
  }

  /** The scope package `i` sets is the only one it can set. */
  lemma SetterIsScope(ps: seq<LockPackage>, i: int, lock: LockPath, urls: UrlOps, s: string, scope: string, sets: bool)
    requires Resets(ps, i, lock, urls, s)
    requires sets <==> Resets(ps, i, lock, urls, scope)
    requires forall k :: Resets(ps, i, lock, urls, k) ==> k == scope
    ensures s == scope && sets
  {
  }

  /** Loading a package with a table keeps the invariant. */
  lemma TableStep(ps: seq<LockPackage>, i: int, lock: LockPath, urls: UrlOps,
                  res: Resolutions, deps: map<string, string>, res': Resolutions, scope: string)
    requires 0 <= i < |ps| && ps[i].deps.DepsTable?
    requires ParseResolutionUrl(ps[i].url, "", lock, urls) == Ok(scope)
    requires Sound(ps, i, lock, urls, res)
    requires TableParsed(ps[i].deps.entries, lock, urls, res, deps, res')
    ensures Sound(ps, i + 1, lock, urls, res'[scope := deps])
  {
    var out := res'[scope := deps];
    TableStepTables(ps, i, lock, urls, res, deps, res', scope, out);
    TableStepKnown(ps, i, lock, urls, res, deps, res', scope, out);
    TableStepBindings(ps, i, lock, urls, res, deps, res', scope, out);
  }

  lemma TableStepTables(ps: seq<LockPackage>, i: int, lock: LockPath, urls: UrlOps,
                  res: Resolutions, deps: map<string, string>, res': Resolutions, scope: string, out: Resolutions)
    requires out == res'[scope := deps]
    requires 0 <= i < |ps| && ps[i].deps.DepsTable?
    requires ParseResolutionUrl(ps[i].url, "", lock, urls) == Ok(scope)
    requires Sound(ps, i, lock, urls, res)
    requires TableParsed(ps[i].deps.entries, lock, urls, res, deps, res')
    ensures TablesLoaded(ps, i + 1, lock, urls, out)
  {
    var entries := ps[i].deps.entries;
    forall j | 0 <= j < i + 1 && ps[j].deps.DepsTable? && ParseResolutionUrl(ps[j].url, "", lock, urls).Ok?
      ensures ParseResolutionUrl(ps[j].url, "", lock, urls).value in out
      ensures forall k :: IsTarget(ps[j].deps.entries, lock, urls, k) ==> k in out
    {
      forall k | IsTarget(ps[j].deps.entries, lock, urls, k) ensures k in out {
        if j == i {
          var e :| 0 <= e < |entries| && entries[e].1.Some? && ParseResolutionUrl(entries[e].1.value, entries[e].0, lock, urls) == Ok(k);
          assert deps[entries[e].0] == k;
        }
      }
    }
  }

  lemma TableStepKnown(ps: seq<LockPackage>, i: int, lock: LockPath, urls: UrlOps,
                  res: Resolutions, deps: map<string, string>, res': Resolutions, scope: string, out: Resolutions)
    requires out == res'[scope := deps]
    requires 0 <= i < |ps| && ps[i].deps.DepsTable?
    requires ParseResolutionUrl(ps[i].url, "", lock, urls) == Ok(scope)
    requires Sound(ps, i, lock, urls, res)
    requires TableParsed(ps[i].deps.entries, lock, urls, res, deps, res')
    ensures forall k :: k in out ==> KnownUrl(ps, i + 1, lock, urls, k)
  {
    var entries := ps[i].deps.entries;
    forall k | k in out ensures KnownUrl(ps, i + 1, lock, urls, k) {
      if k == scope {
      } else if k in res {
        var j :| 0 <= j < i && j < |ps|
          && (ParseResolutionUrl(ps[j].url, "", lock, urls) == Ok(k)
              || (ps[j].deps.DepsTable? && IsTarget(ps[j].deps.entries, lock, urls, k)));
      } else {
        assert IsTarget(entries, lock, urls, k);
      }
    }
  }

  lemma TableStepBindings(ps: seq<LockPackage>, i: int, lock: LockPath, urls: UrlOps,
                  res: Resolutions, deps: map<string, string>, res': Resolutions, scope: string, out: Resolutions)
    requires out == res'[scope := deps]
    requires 0 <= i < |ps| && ps[i].deps.DepsTable?
    requires ParseResolutionUrl(ps[i].url, "", lock, urls) == Ok(scope)
    requires Sound(ps, i, lock, urls, res)
    requires TableParsed(ps[i].deps.entries, lock, urls, res, deps, res')
    ensures forall s, name :: s in out && name in out[s] ==> BindingFrom(ps, i + 1, lock, urls, s, name, out[s][name])
  {
    var entries := ps[i].deps.entries;
    forall s, name | s in out && name in out[s] ensures BindingFrom(ps, i + 1, lock, urls, s, name, out[s][name]) {
      if s == scope {
        var e :| 0 <= e < |entries| && entries[e].0 == name && entries[e].1.Some?;
        assert EntryBinds(entries, lock, urls, name, out[s][name]);
      } else if s in res {
        assert out[s] == res[s];
        var j :| 0 <= j < i && j < |ps| && ps[j].deps.DepsTable?
          && ParseResolutionUrl(ps[j].url, "", lock, urls) == Ok(s)
          && EntryBinds(ps[j].deps.entries, lock, urls, name, res[s][name]);
      }
    }
  }

  /** Loading a package without a table, when its scope is left alone, keeps the invariant. */
  lemma PlainStep(ps: seq<LockPackage>, i: int, lock: LockPath, urls: UrlOps, res: Resolutions)
    requires 0 <= i < |ps| && !ps[i].deps.DepsTable?
    requires Sound(ps, i, lock, urls, res)
    ensures Sound(ps, i + 1, lock, urls, res)
  {
    forall j | 0 <= j < i + 1 && j < |ps| && ps[j].deps.DepsTable? && ParseResolutionUrl(ps[j].url, "", lock, urls).Ok?
      ensures ParseResolutionUrl(ps[j].url, "", lock, urls).value in res
      ensures forall k :: IsTarget(ps[j].deps.entries, lock, urls, k) ==> k in res
    {
      assert j < i;
    }
    assert TablesLoaded(ps, i + 1, lock, urls, res);
    forall k | k in res ensures KnownUrl(ps, i + 1, lock, urls, k) {
      var j :| 0 <= j < i && j < |ps|
        && (ParseResolutionUrl(ps[j].url, "", lock, urls) == Ok(k)
            || (ps[j].deps.DepsTable? && IsTarget(ps[j].deps.entries, lock, urls, k)));
    }
    forall s, name | s in res && name in res[s] ensures BindingFrom(ps, i + 1, lock, urls, s, name, res[s][name]) {
      var j :| 0 <= j < i && j < |ps| && ps[j].deps.DepsTable?
        && ParseResolutionUrl(ps[j].url, "", lock, urls) == Ok(s)
        && EntryBinds(ps[j].deps.entries, lock, urls, name, res[s][name]);
    }
  }

  /** Loading a package without a table, resetting its scope to empty, keeps the invariant. */
  lemma ResetStep(ps: seq<LockPackage>, i: int, lock: LockPath, urls: UrlOps, res: Resolutions, scope: string)
    requires 0 <= i < |ps| && !ps[i].deps.DepsTable?
    requires ParseResolutionUrl(ps[i].url, "", lock, urls) == Ok(scope)
    requires Sound(ps, i, lock, urls, res)
    ensures Sound(ps, i + 1, lock, urls, res[scope := map[]])
  {
    PlainStep(ps, i, lock, urls, res);
    var out := res[scope := map[]];
    assert TablesLoaded(ps, i + 1, lock, urls, out) by {
      assert res.Keys <= out.Keys;
    }
    forall k | k in out ensures KnownUrl(ps, i + 1, lock, urls, k) {
      if k == scope {
        assert ParseResolutionUrl(ps[i].url, "", lock, urls) == Ok(scope);
      } else {
        assert k in res;
      }
    }
    forall s, name | s in out && name in out[s] ensures BindingFrom(ps, i + 1, lock, urls, s, name, out[s][name]) {
      assert s != scope && out[s] == res[s];
    }
  }

  /** Package `i` parsing extends the parsed prefix by one. */
  lemma PackagesParseStep(ps: seq<LockPackage>, i: int, lock: LockPath, urls: UrlOps)
    requires 0 <= i < |ps| && PackagesParse(ps, i, lock, urls)
    ensures (ParseResolutionUrl(ps[i].url, "", lock, urls).Ok?
             && (ps[i].deps.DepsTable? ==> EntriesParse(ps[i].deps.entries, lock, urls)))
            ==> PackagesParse(ps, i + 1, lock, urls)
  {
  }

  /** A package that does not parse makes the whole array fail. */
  lemma ParseStops(ps: seq<LockPackage>, i: int, lock: LockPath, urls: UrlOps)
    requires 0 <= i < |ps|
    requires !(ParseResolutionUrl(ps[i].url, "", lock, urls).Ok?
               && (ps[i].deps.DepsTable? ==> EntriesParse(ps[i].deps.entries, lock, urls)))
    ensures !PackagesParse(ps, |ps|, lock, urls)
  {
  }

  /**
   * The loop of `loadVersionLock` over the `package` array: each package's
   * scope gets its string entries, resolved, every target gets a scope
   * entry, and a URL that does not resolve fails with `ERR_INVALID_LOCKFILE`.
   */
  method LoadPackages(ps: seq<LockPackage>, lock: LockPath, urls: UrlOps) returns (r: Result<Resolutions>)
    requires PackageTablesDistinct(ps)
    ensures r.Ok? <==> PackagesParse(ps, |ps|, lock, urls)
    ensures r.Err? ==> r.error.JspmError? && r.error.code == "ERR_INVALID_LOCKFILE"
    ensures r.Ok? ==> Loaded(ps, |ps|, lock, urls, r.value)
  {
    var res: Resolutions := map[];
    for i := 0 to |ps|
      invariant PackagesParse(ps, i, lock, urls)
      invariant Loaded(ps, i, lock, urls, res)
    {
      var next := LoadPackage(ps, i, lock, urls, res);
      if next.Err? {
        return Err(next.error);
      }
      res := next.value;
    }
    r := Ok(res);
  }

  /** One `[[package]]` entry of the loop: its URL, then its table, a directory reset or nothing. */
  method LoadPackage(ps: seq<LockPackage>, i: int, lock: LockPath, urls: UrlOps, res: Resolutions)
    returns (r: Result<Resolutions>)
    requires PackageTablesDistinct(ps) && 0 <= i < |ps|
    requires PackagesParse(ps, i, lock, urls) && Loaded(ps, i, lock, urls, res)
    ensures r.Ok? ==> PackagesParse(ps, i + 1, lock, urls) && Loaded(ps, i + 1, lock, urls, r.value)
    ensures r.Err? ==> !PackagesParse(ps, |ps|, lock, urls)
    ensures r.Err? ==> r.error.JspmError? && r.error.code == "ERR_INVALID_LOCKFILE"
  {
    PackagesParseStep(ps, i, lock, urls);
    var scope := ParseResolutionUrl(ps[i].url, "", lock, urls);
    if scope.Err? {
      ParseStops(ps, i, lock, urls);
      return Err(scope.error);
    }
    if ps[i].deps.DepsTable? {
      var entries := ps[i].deps.entries;
      var pr := ParseResolutions(entries, lock, urls, res);
      if pr.Err? {
        ParseStops(ps, i, lock, urls);
        return Err(pr.error);
      }
      var (deps, res') := pr.value;
      TableStep(ps, i, lock, urls, res, deps, res', scope.value);
      CompleteStep(ps, i, lock, urls, res, res'[scope.value := deps], true, scope.value);
      r := Ok(res'[scope.value := deps]);
    } else if EndsWith(scope.value, "/") {
      ResetStep(ps, i, lock, urls, res, scope.value);
      CompleteStep(ps, i, lock, urls, res, res[scope.value := map[]], true, scope.value);
      r := Ok(res[scope.value := map[]]);
    } else {
      PlainStep(ps, i, lock, urls, res);
      CompleteStep(ps, i, lock, urls, res, res, false, scope.value);
      r := Ok(res);
    }
  }

  /**
   * `loadVersionLock(lockFile)`, given the file's text (`None` when it
   * cannot be read): without a file, or without a `package` array, the
   * table is empty; otherwise it is what `LoadPackages` reads.
   */
  method LoadVersionLock(file: Option<string>, lock: LockPath, toml: Toml, urls: UrlOps) returns (r: Result<Lockfile>)
    requires TablesDistinct(toml)
    ensures file.None? ==> r == Ok(Lockfile(false, map[]))
    ensures r.Ok? ==> r.value.found == file.Some?
    ensures file.Some? && toml.parse(file.value).Err? ==> r == Err(toml.parse(file.value).error)
    ensures file.Some? && toml.parse(file.value) == Ok(None) ==> r == Ok(Lockfile(true, map[]))
    ensures file.Some? && toml.parse(file.value).Ok? && toml.parse(file.value).value.Some? ==>
      var ps := toml.parse(file.value).value.value;
      && (r.Ok? <==> PackagesParse(ps, |ps|, lock, urls))
      && (r.Err? ==> r.error.JspmError? && r.error.code == "ERR_INVALID_LOCKFILE")
      && (r.Ok? ==> Loaded(ps, |ps|, lock, urls, r.value.resolutions))
  {
    if file.None? {
      return Ok(Lockfile(false, map[]));
    }
    var parsed := toml.parse(file.value);
    if parsed.Err? {
      return Err(parsed.error);
    }
    if parsed.value.None? {
      return Ok(Lockfile(true, map[]));
    }
    var loaded := LoadPackages(parsed.value.value, lock, urls);
    if loaded.Err? {
      return Err(loaded.error);
    }
    r := Ok(Lockfile(true, loaded.value));
  }

  // ---------------------------------------------------------- saveVersionLock

  const LockHeader: string := "# Generated by jspm\n"

  /** `relativeUrl(new URL(pkgUrl), lockFileUrl).slice(0, -1)`: a scope URL as written. */
  function SavedScopeUrl(pkgUrl: string, lockDirUrl: string, urls: UrlOps): string
  {
    var rel := urls.relative(pkgUrl, lockDirUrl);
    Slice(rel, 0, |rel| - 1)
  }

  /** A target as written: relative to the lockfile's folder, without a trailing `/`. */
  function SavedTarget(value: string, lockDirUrl: string, urls: UrlOps): string
  {
    var rel := urls.relative(value, lockDirUrl);
    if EndsWith(rel, "/") then rel[..|rel| - 1] else rel
  }

  /** `deps` writes exactly the bindings of `scope`, each target in its saved form. */
  ghost predicate SavesDeps(deps: seq<(string, string)>, scope: map<string, string>, lockDirUrl: string, urls: UrlOps)
  {
    && (forall k :: 0 <= k < |deps| ==> deps[k].0 in scope && deps[k].1 == SavedTarget(scope[deps[k].0], lockDirUrl, urls))
    && (forall n :: n in scope ==> exists k :: 0 <= k < |deps| && deps[k].0 == n)
  }

  /** `p` is the written form of the scope `u` of `res`. */
  ghost predicate SavesScope(p: SavedPackage, res: Resolutions, u: string, lockDirUrl: string, urls: UrlOps)
  {
    u in res && p.url == SavedScopeUrl(u, lockDirUrl, urls) && SavesDeps(p.deps, res[u], lockDirUrl, urls)
  }

  /** `p` writes some non-empty scope of `res`, its dependencies sorted by name. */
  ghost predicate WrittenPackage(p: SavedPackage, res: Resolutions, lockDirUrl: string, urls: UrlOps)
  {
    |p.deps| > 0 && SortedBy(p.deps, DepName) && exists u :: SavesScope(p, res, u, lockDirUrl, urls)
  }

  /** Every non-empty scope of `res` other than those in `except` is written by one of `packages`. */
  ghost predicate AllScopesWritten(res: Resolutions, except: set<string>, packages: seq<SavedPackage>, lockDirUrl: string, urls: UrlOps)
  {
    forall u :: u in res && res[u] != map[] && u !in except ==>
      exists i :: 0 <= i < |packages| && SavesScope(packages[i], res, u, lockDirUrl, urls)
  }

  /**
   * The written form of the table: packages sorted by URL, each the
   * non-empty scope of some table entry with its dependencies sorted by
   * name, and every non-empty scope written.
   */
  ghost predicate SavedForm(res: Resolutions, packages: seq<SavedPackage>, lockDirUrl: string, urls: UrlOps)
  {
    && SortedBy(packages, PackageUrl)
    && (forall i :: 0 <= i < |packages| ==> WrittenPackage(packages[i], res, lockDirUrl, urls))
    && AllScopesWritten(res, {}, packages, lockDirUrl, urls)
  }

  function DepName(d: (string, string)): string { d.0 }

  function PackageUrl(p: SavedPackage): string { p.url }

  /** Writing `n` next: every name written or still to come stays so once `n` leaves the names to come. */
  lemma SavedStep(acc: seq<(string, string)>, names: set<string>, remaining: set<string>, n: string, v: string)
    requires forall m :: m in names ==> m in remaining || exists k :: 0 <= k < |acc| && acc[k].0 == m
    ensures forall m :: m in names ==> m in remaining - {n} || exists k :: 0 <= k < |acc + [(n, v)]| && (acc + [(n, v)])[k].0 == m
  {
    var acc' := acc + [(n, v)];
    forall m | m in names && m !in remaining - {n} ensures exists k :: 0 <= k < |acc'| && acc'[k].0 == m {
      if m == n {
        assert acc'[|acc|].0 == m;
      } else {
        var k :| 0 <= k < |acc| && acc[k].0 == m;
        assert acc'[k].0 == m;
      }
    }
  }

  /** `Object.entries(scope)`, each target in its saved form, in some order. */
  method SavedEntries(scope: map<string, string>, lockDirUrl: string, urls: UrlOps) returns (acc: seq<(string, string)>)
    ensures SavesDeps(acc, scope, lockDirUrl, urls)
  {
    var remaining := scope.Keys;
    acc := [];
    while remaining != {}
      decreases |remaining|
      invariant remaining <= scope.Keys
      invariant forall k :: 0 <= k < |acc| ==> acc[k].0 in scope && acc[k].1 == SavedTarget(scope[acc[k].0], lockDirUrl, urls)
      invariant forall n :: n in scope ==> n in remaining || exists k :: 0 <= k < |acc| && acc[k].0 == n
    {
      var n :| n in remaining;
      var acc' := acc + [(n, SavedTarget(scope[n], lockDirUrl, urls))];
      SavedStep(acc, scope.Keys, remaining, n, SavedTarget(scope[n], lockDirUrl, urls));
      acc := acc';
      remaining := remaining - {n};
    }
  }

  /** Sorting a written dependency list keeps what it writes. */
  lemma SortedDepsSave(acc: seq<(string, string)>, scope: map<string, string>, lockDirUrl: string, urls: UrlOps)
    requires SavesDeps(acc, scope, lockDirUrl, urls)
    ensures SavesDeps(SortBy(acc, DepName), scope, lockDirUrl, urls)
    ensures SortedBy(SortBy(acc, DepName), DepName)
  {
    var deps := SortBy(acc, DepName);
    SortBySorted(acc, DepName);
    SortByMembers(acc, DepName);
    forall k | 0 <= k < |deps| ensures deps[k].0 in scope && deps[k].1 == SavedTarget(scope[deps[k].0], lockDirUrl, urls) {
      assert deps[k] in acc;
    }
    forall n | n in scope ensures exists k :: 0 <= k < |deps| && deps[k].0 == n {
      var k :| 0 <= k < |acc| && acc[k].0 == n;
      assert acc[k] in deps;
    }
  }

  /** `Object.entries(scope)` mapped to saved targets and sorted by name. */
  method SavedDeps(scope: map<string, string>, lockDirUrl: string, urls: UrlOps) returns (deps: seq<(string, string)>)
    ensures SavesDeps(deps, scope, lockDirUrl, urls)
    ensures SortedBy(deps, DepName)
  {
    var acc := SavedEntries(scope, lockDirUrl, urls);
    SortedDepsSave(acc, scope, lockDirUrl, urls);
    deps := SortBy(acc, DepName);
  }

  lemma NonEmptyHasKey(m: map<string, string>)
    requires m != map[]
    ensures exists k :: k in m
  {
  }

  /** The written form of one non-empty scope. */
  method SavedPackageOf(res: Resolutions, pkgUrl: string, lockDirUrl: string, urls: UrlOps) returns (p: SavedPackage)
    requires pkgUrl in res && res[pkgUrl] != map[]
    ensures SavesScope(p, res, pkgUrl, lockDirUrl, urls)
    ensures WrittenPackage(p, res, lockDirUrl, urls)
  {
    var deps := SavedDeps(res[pkgUrl], lockDirUrl, urls);
    NonEmptyHasKey(res[pkgUrl]);
    var n :| n in res[pkgUrl];
    var k :| 0 <= k < |deps| && deps[k].0 == n;
    p := SavedPackage(SavedScopeUrl(pkgUrl, lockDirUrl, urls), deps);
    assert SavesScope(p, res, pkgUrl, lockDirUrl, urls);
  }

  /** The packages of the non-empty scopes, in some order. */
  method SavedScopes(res: Resolutions, lockDirUrl: string, urls: UrlOps) returns (acc: seq<SavedPackage>)
    ensures forall i :: 0 <= i < |acc| ==> WrittenPackage(acc[i], res, lockDirUrl, urls)
    ensures AllScopesWritten(res, {}, acc, lockDirUrl, urls)
  {
    var remaining := res.Keys;
    acc := [];
    while remaining != {}
      decreases |remaining|
      invariant remaining <= res.Keys
      invariant ScopesSaved(res, remaining, acc, lockDirUrl, urls)
    {
      var pkgUrl :| pkgUrl in remaining;
      if res[pkgUrl] != map[] {
        var p := SavedPackageOf(res, pkgUrl, lockDirUrl, urls);
        CoverStep(res, remaining, pkgUrl, acc, [p], lockDirUrl, urls);
        acc := acc + [p];
      } else {
        CoverStep(res, remaining, pkgUrl, acc, [], lockDirUrl, urls);
      }
      remaining := remaining - {pkgUrl};
    }
  }

  /** The loop state of `SavedScopes`: every package written so far is a scope's, and every scope not remaining is written. */
  ghost predicate ScopesSaved(res: Resolutions, remaining: set<string>, acc: seq<SavedPackage>, lockDirUrl: string, urls: UrlOps)
  {
    && (forall i :: 0 <= i < |acc| ==> WrittenPackage(acc[i], res, lockDirUrl, urls))
    && AllScopesWritten(res, remaining, acc, lockDirUrl, urls)
  }

  /** Writing scope `pkgUrl` (or skipping it when empty) takes it off the scopes still to write. */
  lemma CoverStep(res: Resolutions, remaining: set<string>, pkgUrl: string, acc: seq<SavedPackage>,
                  extra: seq<SavedPackage>, lockDirUrl: string, urls: UrlOps)
    requires pkgUrl in res && ScopesSaved(res, remaining, acc, lockDirUrl, urls)
    requires res[pkgUrl] != map[] ==> |extra| == 1 && SavesScope(extra[0], res, pkgUrl, lockDirUrl, urls)
    requires forall i :: 0 <= i < |extra| ==> WrittenPackage(extra[i], res, lockDirUrl, urls)
    requires res[pkgUrl] == map[] ==> extra == []
    ensures ScopesSaved(res, remaining - {pkgUrl}, acc + extra, lockDirUrl, urls)
    ensures extra == [] ==> ScopesSaved(res, remaining - {pkgUrl}, acc, lockDirUrl, urls)
  {
    var acc' := acc + extra;
    forall u | u in res && res[u] != map[] && u !in remaining - {pkgUrl}
      ensures exists i :: 0 <= i < |acc'| && SavesScope(acc'[i], res, u, lockDirUrl, urls)
    {
      if u == pkgUrl {
        assert acc'[|acc|] == extra[0];
      } else {
        var i :| 0 <= i < |acc| && SavesScope(acc[i], res, u, lockDirUrl, urls);
        assert acc'[i] == acc[i];
      }
    }
    forall i | 0 <= i < |acc'|
      ensures WrittenPackage(acc'[i], res, lockDirUrl, urls)
    {
      if i < |acc| {
        assert acc'[i] == acc[i];
      } else {
        assert acc'[i] == extra[i - |acc|];
      }
    }
    if extra == [] {
      assert acc' == acc;
    }
  }

  /** Every package of a sorted list is one of the unsorted list's. */
  lemma SortedPackagesWritten(acc: seq<SavedPackage>, res: Resolutions, lockDirUrl: string, urls: UrlOps)
    requires forall i :: 0 <= i < |acc| ==> WrittenPackage(acc[i], res, lockDirUrl, urls)
    ensures forall i :: 0 <= i < |SortBy(acc, PackageUrl)| ==> WrittenPackage(SortBy(acc, PackageUrl)[i], res, lockDirUrl, urls)
  {
    var packages := SortBy(acc, PackageUrl);
    SortByMembers(acc, PackageUrl);
    forall i | 0 <= i < |packages| ensures WrittenPackage(packages[i], res, lockDirUrl, urls) {
      assert packages[i] in acc;
    }
  }

  /** Every scope the unsorted list writes, the sorted list writes. */
  lemma SortedPackagesCover(acc: seq<SavedPackage>, res: Resolutions, lockDirUrl: string, urls: UrlOps)
    requires AllScopesWritten(res, {}, acc, lockDirUrl, urls)
    ensures AllScopesWritten(res, {}, SortBy(acc, PackageUrl), lockDirUrl, urls)
  {
    var packages := SortBy(acc, PackageUrl);
    SortByMembers(acc, PackageUrl);
    forall u | u in res && res[u] != map[]
      ensures exists i :: 0 <= i < |packages| && SavesScope(packages[i], res, u, lockDirUrl, urls)
    {
      var j :| 0 <= j < |acc| && SavesScope(acc[j], res, u, lockDirUrl, urls);
      assert acc[j] in packages;
    }
  }

  /** The package list `saveVersionLock` builds from the table. */
  method SavedPackages(res: Resolutions, lockDirUrl: string, urls: UrlOps) returns (packages: seq<SavedPackage>)
    ensures SavedForm(res, packages, lockDirUrl, urls)
  {
    var acc := SavedScopes(res, lockDirUrl, urls);
    SortedPackagesWritten(acc, res, lockDirUrl, urls);
    SortedPackagesCover(acc, res, lockDirUrl, urls);
    SortBySorted(acc, PackageUrl);
    packages := SortBy(acc, PackageUrl);
  }

  function TrimEach(lines: seq<string>): (r: seq<string>)
    ensures |r| == |lines|
    ensures forall i :: 0 <= i < |lines| ==> r[i] == TrimStart(lines[i])
  {
    if |lines| == 0 then [] else [TrimStart(lines[0])] + TrimEach(lines[1..])
  }

  /** `text.split('\n').map(line => line.trimLeft()).join('\n')`. */
  function TrimLines(text: string): string
  {
    Join(TrimEach(Split(text, '\n')), "\n")
  }

  /**
   * `saveVersionLock(resolutions, lockFile)`, given the current file text
   * (`None` when it cannot be read): the packages in their written form,
   * the output text, and whether it differs from the file and so is written.
   */
  method SaveVersionLock(res: Resolutions, lockDirUrl: string, original: Option<string>, toml: Toml, urls: UrlOps)
    returns (packages: seq<SavedPackage>, output: string, written: bool)
    ensures SavedForm(res, packages, lockDirUrl, urls)
    ensures output == LockHeader + TrimLines(toml.stringify(packages))
    ensures written <==> original != Some(output)
  {
    packages := SavedPackages(res, lockDirUrl, urls);
    output := LockHeader + TrimLines(toml.stringify(packages));
    written := original != Some(output);
  }
}
