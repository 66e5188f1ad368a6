/**
 * The import-map `TraceMap` of src/tracemap.ts: an import map (top-level
 * `imports`, per-scope `scopes`, `integrity` and `depcache`) held against
 * a base URL, with the operations that replace, merge, serialise, rebase
 * targets onto the base and flatten scopes into their origin, and the
 * free function `resolve`.
 *
 * URLs are parsed by the `parse` of a `UrlOps` value. With `fixed` set,
 * `_baseUrlRelative` climbs one directory fewer and `flatten` leaves alone
 * a scope that is its own hoisting target.
 */
module ImportMaps {
  import opened Wrappers
  import opened Strings
  import opened Manifest
  import opened Sorting
  import opened Urls
  import opened JsonStyle

  /** A specifier's target: a URL string, or `None` for `null`. */
  type Imports = Dict<Option<string>>

  type Scopes = Dict<Imports>

  /** `ImportMap`. */
  datatype ImportMap = ImportMap(imports: Imports, scopes: Scopes, integrity: Dict<string>, depcache: Dict<seq<string>>)

  /** An import-map object whose sections may be missing. */
  datatype Sections = Sections(
    imports: Option<Imports>,
    scopes: Option<Scopes>,
    integrity: Option<Dict<string>>,
    depcache: Option<Dict<seq<string>>>)

  const EmptyMap := ImportMap([], [], [], [])

  // ---------------------------------------------------------- dictionaries

  /** `Object.assign(d, src)`: each entry of `src` in turn is written into `d`. */
  function Assign<V>(d: Dict<V>, src: Dict<V>): Dict<V>
  {
    if |src| == 0 then d else Put(Assign(d, src[..|src| - 1]), src[|src| - 1].0, src[|src| - 1].1)
  }

  /** After `Object.assign` a key bound in `src` has its (last) value there; every other key is as before. */
  lemma {:induction false} GetAssign<V>(d: Dict<V>, src: Dict<V>, key: string)
    ensures Get(Assign(d, src), key) == if Latest(src, key).Some? then Latest(src, key) else Get(d, key)
  {
    if |src| > 0 {
      var init := src[..|src| - 1];
      GetAssign(d, init, key);
      GetPut(Assign(d, init), src[|src| - 1].0, src[|src| - 1].1, key);
    }
  }

  lemma {:induction false} AssignDistinct<V>(d: Dict<V>, src: Dict<V>)
    requires DistinctKeys(d)
    ensures DistinctKeys(Assign(d, src))
  {
    if |src| > 0 {
      AssignDistinct(d, src[..|src| - 1]);
      PutDistinct(Assign(d, src[..|src| - 1]), src[|src| - 1].0, src[|src| - 1].1);
    }
  }

  /** `delete d[key]`: the other entries stay, in order. */
  function Delete<V>(d: Dict<V>, key: string): (r: Dict<V>)
    ensures forall i :: 0 <= i < |r| ==> r[i] in d && r[i].0 != key
    ensures forall i :: 0 <= i < |d| && d[i].0 != key ==> d[i] in r
  {
    if |d| == 0 then []
    else if d[0].0 == key then Delete(d[1..], key)
    else [d[0]] + Delete(d[1..], key)
  }

  /** After `delete d[key]`, `key` is unbound and every other key reads as before. */
  lemma {:induction false} GetDelete<V>(d: Dict<V>, key: string, other: string)
    ensures Get(Delete(d, key), other) == if other == key then None else Get(d, other)
  {
    if |d| > 0 {
      GetDelete(d[1..], key, other);
      if d[0].0 != key {
        assert ([d[0]] + Delete(d[1..], key))[1..] == Delete(d[1..], key);
      }
    }
    if other == key {
      GetFinds(Delete(d, key), key);
    }
  }

  lemma {:induction false} DeleteDistinct<V>(d: Dict<V>, key: string)
    requires DistinctKeys(d)
    ensures DistinctKeys(Delete(d, key))
  {
    if |d| > 0 {
      assert DistinctKeys(d[1..]);
      DeleteDistinct(d[1..], key);
      if d[0].0 != key {
        var r := [d[0]] + Delete(d[1..], key);
        forall i, j | 0 <= i < j < |r| ensures r[i].0 != r[j].0 {
          if i == 0 {
            assert r[j] in Delete(d[1..], key);
            assert r[j] in d[1..];
            var k :| 0 <= k < |d[1..]| && d[1..][k] == r[j];
            assert d[k + 1] == r[j];
          }
        }
      }
    }
  }

  /** `alphabetize(d)`: the entries sorted by key. */
  function Alphabetize<V>(d: Dict<V>): Dict<V>
  {
    SortBy(d, (e: (string, V)) => e.0)
  }

  /** With distinct keys, a binding's value is what `Get` finds. */
  lemma GetMember<V>(d: Dict<V>, key: string, value: V)
    requires DistinctKeys(d) && (key, value) in d
    ensures Get(d, key) == Some(value)
  {
    GetFinds(d, key);
    var i :| 0 <= i < |d| && d[i] == (key, value);
    var j :| 0 <= j < |d| && d[j] == (key, Get(d, key).value);
    assert i == j;
  }

  /** Sorting a dictionary with distinct keys changes no lookup. */
  lemma GetAlphabetize<V>(d: Dict<V>, key: string)
    requires DistinctKeys(d)
    ensures Get(Alphabetize(d), key) == Get(d, key)
  {
    var r := Alphabetize(d);
    SortByMembers(d, (e: (string, V)) => e.0);
    GetFinds(r, key);
    GetFinds(d, key);
    if Get(r, key).Some? {
      var i :| 0 <= i < |r| && r[i] == (key, Get(r, key).value);
      assert r[i] in d;
      GetMember(d, key, Get(r, key).value);
    } else {
      forall i | 0 <= i < |d| ensures d[i].0 != key {
        assert d[i] in r;
        var k :| 0 <= k < |r| && r[k] == d[i];
      }
    }
  }

  // ----------------------------------------------------- set, extend, toString

  /** What `set(map)` stores: each section, or an empty object where it is missing. */
  function Filled(p: Sections): ImportMap
  {
    ImportMap(p.imports.UnwrapOr([]), p.scopes.UnwrapOr([]), p.integrity.UnwrapOr([]), p.depcache.UnwrapOr([]))
  }

  /** `Object.assign(this._map.scopes[scope] ||= {}, bindings)`. */
  function MergeScope(scopes: Scopes, scope: string, bindings: Imports): Scopes
  {
    Put(scopes, scope, Assign(Get(scopes, scope).UnwrapOr([]), bindings))
  }

  /** The per-scope merge of `extend` over the scopes of `src`, in order. */
  function MergeScopes(scopes: Scopes, src: Scopes): Scopes
  {
    if |src| == 0 then scopes else MergeScope(MergeScopes(scopes, src[..|src| - 1]), src[|src| - 1].0, src[|src| - 1].1)
  }

  /**
   * After the per-scope merge, a scope named in `src` holds its old
   * bindings overwritten by the incoming ones; any other scope is as before.
   */
  lemma {:induction false} GetMergeScopes(scopes: Scopes, src: Scopes, scope: string)
    requires DistinctKeys(src)
    ensures Get(MergeScopes(scopes, src), scope)
      == if Get(src, scope).Some? then Some(Assign(Get(scopes, scope).UnwrapOr([]), Get(src, scope).value)) else Get(scopes, scope)
  {
    if |src| > 0 {
      var init, last := src[..|src| - 1], src[|src| - 1];
      assert DistinctKeys(init);
      GetMergeScopes(scopes, init, scope);
      var before := MergeScopes(scopes, init);
      GetPut(before, last.0, Assign(Get(before, last.0).UnwrapOr([]), last.1), scope);
      GetAppend(init, last, scope);
      assert init + [last] == src;
      if last.0 == scope {
        GetMergeScopes(scopes, init, last.0);
        forall i | 0 <= i < |init| ensures init[i].0 != scope {
          assert src[i].0 != src[|src| - 1].0;
        }
        GetFinds(init, scope);
      }
    }
  }

  /** `extend(map, overrideScopes)`. */
  function Extended(m: ImportMap, p: Sections, overrideScopes: bool): ImportMap
  {
    ImportMap(
      if p.imports.Some? then Assign(m.imports, p.imports.value) else m.imports,
      if p.scopes.None? then m.scopes
      else if overrideScopes then Assign(m.scopes, p.scopes.value)
      else MergeScopes(m.scopes, p.scopes.value),
      if p.integrity.Some? then Assign(m.integrity, p.integrity.value) else m.integrity,
      if p.depcache.Some? then Assign(m.depcache, p.depcache.value) else m.depcache)
  }

  /**
   * `extend`: incoming top-level imports win over existing ones, and
   * without `overrideScopes` an incoming scope is merged into the existing
   * scope of that name rather than replacing it.
   */
  lemma ExtendedLookups(m: ImportMap, p: Sections, specifier: string, scope: string)
    requires p.imports.Some? && p.scopes.Some? && DistinctKeys(p.imports.value) && DistinctKeys(p.scopes.value)
    ensures Get(Extended(m, p, false).imports, specifier)
      == if Get(p.imports.value, specifier).Some? then Get(p.imports.value, specifier) else Get(m.imports, specifier)
    ensures Get(p.scopes.value, scope).Some? ==>
      Get(Extended(m, p, false).scopes, scope) == Some(Assign(Get(m.scopes, scope).UnwrapOr([]), Get(p.scopes.value, scope).value))
    ensures Get(p.scopes.value, scope).Some? ==>
      Get(Extended(m, p, true).scopes, scope) == Get(p.scopes.value, scope)
  {
    GetAssign(m.imports, p.imports.value, specifier);
    LatestIsGet(p.imports.value, specifier);
    GetMergeScopes(m.scopes, p.scopes.value, scope);
    GetAssign(m.scopes, p.scopes.value, scope);
    LatestIsGet(p.scopes.value, scope);
  }

  /** The object `toString` serialises: only the sections that have keys. */
  function Shown(m: ImportMap): (r: Sections)
    ensures r.imports.None? <==> |m.imports| == 0
    ensures r.scopes.None? <==> |m.scopes| == 0
    ensures r.integrity.None? <==> |m.integrity| == 0
    ensures r.depcache.None? <==> |m.depcache| == 0
  {
    Sections(
      if |m.imports| > 0 then Some(m.imports) else None,
      if |m.scopes| > 0 then Some(m.scopes) else None,
      if |m.integrity| > 0 then Some(m.integrity) else None,
      if |m.depcache| > 0 then Some(m.depcache) else None)
  }

  /** Serialising drops only empty sections: `set` of what `toString` shows gives the map back. */
  lemma FilledShown(m: ImportMap)
    ensures Filled(Shown(m)) == m
  {
  }

  /** A style with no indentation and no newlines: what `toString(true)` prints in. */
  function Minified(style: Style): Style
  {
    style.(indent := "", tab := "", newline := "")
  }

  // ------------------------------------------------------ _baseUrlRelative

  /** `s.repeat(n)`. */
  function Repeat(s: string, n: nat): (r: string)
    ensures |r| == n * |s|
  {
    if n == 0 then "" else s + Repeat(s, n - 1)
  }

  /** The loop of lines 113-116 from `i`, with the last shared `/` so far at `acc`. */
  function SharedFrom(basePath: string, urlPath: string, i: int, acc: int): (r: int)
    requires 0 <= i <= |basePath| && i <= |urlPath| && basePath[..i] == urlPath[..i]
    requires -1 <= acc < i
    requires acc >= 0 ==> basePath[..acc + 1] == urlPath[..acc + 1] && urlPath[acc] == '/'
    ensures -1 <= r < |basePath| && r < |urlPath|
    ensures r >= 0 ==> basePath[..r + 1] == urlPath[..r + 1] && urlPath[r] == '/'
    decreases |basePath| - i
  {
    if i >= |basePath| || i >= |urlPath| || basePath[i] != urlPath[i] then acc
    else
      assert basePath[..i + 1] == basePath[..i] + [basePath[i]];
      assert urlPath[..i + 1] == urlPath[..i] + [urlPath[i]];
      SharedFrom(basePath, urlPath, i + 1, if urlPath[i] == '/' then i else acc)
  }

  /** The position of the last `/` of the common prefix of the two paths, or -1. */
  function SharedSlash(basePath: string, urlPath: string): (r: int)
    ensures -1 <= r < |basePath| && r < |urlPath|
    ensures r >= 0 ==> basePath[..r + 1] == urlPath[..r + 1] && urlPath[r] == '/'
  {
    SharedFrom(basePath, urlPath, 0, -1)
  }

  /**
   * How many `../` lead from the base directory up to the shared prefix:
   * as written, the number of pieces `split('/')` cuts the rest of the base
   * path into; corrected, the number of `/` in it.
   */
  function Ups(basePath: string, urlPath: string, fixed: bool): nat
  {
    if fixed then Count(basePath[SharedSlash(basePath, urlPath) + 1..], '/')
    else |Split(basePath[SharedSlash(basePath, urlPath) + 1..], '/')|
  }

  /** `_baseUrlRelative(url)` against the base URL `base`. */
  function Relative(base: Url, url: Url, fixed: bool): string
  {
    if StartsWith(url.href, base.href) then url.href[|base.href|..]
    else if url.origin != base.origin || !StartsWith(url.href, url.origin) || !StartsWith(base.href, url.origin) then url.href
    else
      Repeat("../", Ups(base.pathname, url.pathname, fixed))
        + url.pathname[SharedSlash(base.pathname, url.pathname) + 1..] + url.search + url.hash
  }

  /** Under the base URL the result is the rest of the href; from another origin it is the whole href. */
  lemma RelativeCases(base: Url, url: Url, fixed: bool)
    ensures StartsWith(url.href, base.href) ==> Relative(base, url, fixed) == url.href[|base.href|..]
    ensures !StartsWith(url.href, base.href) && url.origin != base.origin ==> Relative(base, url, fixed) == url.href
  {
  }

  /** As written the count is one more than the number of directories to climb. */
  lemma UpsAsWritten(basePath: string, urlPath: string)
    ensures Ups(basePath, urlPath, false) == Ups(basePath, urlPath, true) + 1
  {
    SplitLength(basePath[SharedSlash(basePath, urlPath) + 1..], '/');
  }

  /** `s` up to and including its last `/`, or "" when it has none. */
  function ToSlash(s: string): (r: string)
    ensures |r| <= |s| && r == s[..|r|]
    ensures |r| == 0 || r[|r| - 1] == '/'
    ensures forall k :: |r| <= k < |s| ==> s[k] != '/'
  {
    if |s| == 0 then ""
    else if s[|s| - 1] == '/' then s
    else ToSlash(s[..|s| - 1])
  }

  /**
   * Resolving `../` against a directory path (one ending in `/`) drops its
   * last segment, as the merge and dot-segment removal of section 5.2 of
   * RFC 3986 do.
   */
  function Parent(dir: string): string
  {
    if |dir| == 0 then "" else ToSlash(dir[..|dir| - 1])
  }

  /** Resolving `n` times `../` against a directory path. */
  function Climb(dir: string, n: nat): string
  {
    if n == 0 then dir else Climb(Parent(dir), n - 1)
  }

  lemma {:induction false} ToSlashPast(a: string, b: string)
    requires |a| == 0 || a[|a| - 1] == '/'
    requires '/' !in b
    ensures ToSlash(a + b) == a
    decreases |b|
  {
    if |b| > 0 {
      assert (a + b)[..|a + b| - 1] == a + b[..|b| - 1];
      ToSlashPast(a, b[..|b| - 1]);
    } else {
      assert a + b == a;
    }
  }

  /** A path is its directory part followed by a last segment without `/`. */
  lemma LastSegment(body: string)
    ensures body == ToSlash(body) + body[|ToSlash(body)|..]
    ensures '/' !in body[|ToSlash(body)|..]
  {
    var up := ToSlash(body);
    var seg := body[|up|..];
    forall k | 0 <= k < |seg| ensures seg[k] != '/' {
      assert seg[k] == body[|up| + k];
    }
  }

  lemma DropLast(shared: string, rest: string, up: string, seg: string)
    requires |rest| > 0 && rest[..|rest| - 1] == up + seg
    ensures (shared + rest)[..|shared + rest| - 1] == (shared + up) + seg
  {
    assert (shared + rest)[..|shared + rest| - 1] == shared + rest[..|rest| - 1];
  }

  lemma ParentSplit(whole: string, dir: string, seg: string)
    requires |whole| > 0 && whole[..|whole| - 1] == dir + seg
    requires |dir| == 0 || dir[|dir| - 1] == '/'
    requires '/' !in seg
    ensures Parent(whole) == dir
  {
    ToSlashPast(dir, seg);
  }

  /** Resolving `../` against `shared + rest` stays within `shared` when `rest` is a directory path. */
  lemma ParentAppend(shared: string, rest: string)
    requires |shared| == 0 || shared[|shared| - 1] == '/'
    requires |rest| > 0 && rest[|rest| - 1] == '/'
    ensures Parent(shared + rest) == shared + ToSlash(rest[..|rest| - 1])
  {
    var body := rest[..|rest| - 1];
    var up := ToSlash(body);
    var seg := body[|up|..];
    LastSegment(body);
    DropLast(shared, rest, up, seg);
    ParentSplit(shared + rest, shared + up, seg);
  }

  /** Dropping the last segment of a directory path removes one `/`. */
  lemma CountParent(rest: string)
    requires |rest| > 0 && rest[|rest| - 1] == '/'
    ensures Count(rest, '/') == Count(ToSlash(rest[..|rest| - 1]), '/') + 1
  {
    var body := rest[..|rest| - 1];
    var up := ToSlash(body);
    var seg := body[|up|..];
    LastSegment(body);
    assert rest == (up + seg) + "/";
    CountAbsent(seg, '/');
    CountConcat(up + seg, "/", '/');
    CountConcat(up, seg, '/');
    assert Count("/", '/') == 1;
  }

  /** Climbing as many directories as `rest` has `/` from `shared + rest` lands on `shared`. */
  lemma {:induction false} ClimbRest(shared: string, rest: string)
    requires |shared| == 0 || shared[|shared| - 1] == '/'
    requires |rest| == 0 || rest[|rest| - 1] == '/'
    ensures Climb(shared + rest, Count(rest, '/')) == shared
    decreases |rest|
  {
    if |rest| == 0 {
      assert shared + rest == shared;
    } else {
      var up := ToSlash(rest[..|rest| - 1]);
      ParentAppend(shared, rest);
      CountParent(rest);
      ClimbRest(shared, up);
    }
  }

  /**
   * Corrected, the relative path climbs from the base directory exactly to
   * the shared prefix, so appending the URL's remaining path gives the
   * URL's path back.
   */
  lemma RelativeRoundTrip(basePath: string, urlPath: string)
    requires |basePath| > 0 && basePath[|basePath| - 1] == '/'
    ensures Climb(basePath, Ups(basePath, urlPath, true)) + urlPath[SharedSlash(basePath, urlPath) + 1..] == urlPath
  {
    var si := SharedSlash(basePath, urlPath);
    assert Ups(basePath, urlPath, true) == Count(basePath[si + 1..], '/');
    ClimbShared(basePath, urlPath, si);
  }

  lemma ClimbShared(basePath: string, urlPath: string, si: int)
    requires |basePath| > 0 && basePath[|basePath| - 1] == '/'
    requires -1 <= si < |basePath| && si < |urlPath|
    requires si >= 0 ==> basePath[..si + 1] == urlPath[..si + 1] && urlPath[si] == '/'
    ensures Climb(basePath, Count(basePath[si + 1..], '/')) + urlPath[si + 1..] == urlPath
  {
    var shared, rest := basePath[..si + 1], basePath[si + 1..];
    assert basePath == shared + rest;
    assert |shared| == 0 || shared[|shared| - 1] == '/' by {
      if si >= 0 {
        assert shared[si] == urlPath[..si + 1][si];
      }
    }
    assert |rest| == 0 || rest[|rest| - 1] == '/' by {
      if |rest| > 0 {
        assert rest[|rest| - 1] == basePath[|basePath| - 1];
      }
    }
    ClimbRest(shared, rest);
    assert shared == urlPath[..si + 1];
    assert urlPath == urlPath[..si + 1] + urlPath[si + 1..];
  }

  /**
   * As written, from `/a/b/` to `/a/c.js` the result `../../c.js` climbs
   * to `/`, so it names `/c.js`.
   */
  lemma RelativeAsWritten()
    ensures Ups("/a/b/", "/a/c.js", false) == 2
    ensures Climb("/a/b/", 2) + "/a/c.js"[SharedSlash("/a/b/", "/a/c.js") + 1..] == "/c.js"
  {
    assert SharedSlash("/a/b/", "/a/c.js") == 2;
    assert "/a/b/"[3..] == "b/";
    SplitLength("b/", '/');
    assert Count("b/", '/') == 1;
    assert Parent("/a/b/") == "/a/";
    assert Parent("/a/") == "/";
  }

  /** Corrected, the same pair gives `../c.js`, which names `/a/c.js`. */
  lemma RelativeCorrected()
    ensures Ups("/a/b/", "/a/c.js", true) == 1
    ensures Climb("/a/b/", 1) + "/a/c.js"[SharedSlash("/a/b/", "/a/c.js") + 1..] == "/a/c.js"
  {
    assert SharedSlash("/a/b/", "/a/c.js") == 2;
    assert "/a/b/"[3..] == "b/";
    assert Count("b/", '/') == 1;
    assert Parent("/a/b/") == "/a/";
  }

  // ---------------------------------------------------------------- flatten

  /**
   * The scope `flatten` hoists a scope at `scopeUrl` into: `/` for the
   * base URL's own origin, the scope's origin and `/` for another origin,
   * none for a `file:` URL or one whose href does not start with its origin.
   */
  function HoistBase(scopeUrl: Url, baseUrl: Url): Option<string>
  {
    if scopeUrl.protocol == "file:" then None
    else if scopeUrl.origin == baseUrl.origin && StartsWith(scopeUrl.href, baseUrl.origin) then Some("/")
    else if StartsWith(scopeUrl.href, scopeUrl.origin) then Some(scopeUrl.origin + "/")
    else None
  }

  /** JavaScript truthiness of a looked-up binding: present, not `null`, not "". */
  predicate TruthyBinding(v: Option<Option<string>>)
  {
    v.Some? && v.value.Some? && v.value.value != ""
  }

  /**
   * Whether the hoisting scope lets a binding with target `target` in: it
   * has no truthy binding of that name, or one naming the same URL.
   */
  function Agrees(ops: UrlOps, baseUrl: Url, existing: Option<Option<string>>, target: Url): (r: Result<bool>)
    ensures !TruthyBinding(existing) ==> r == Ok(true)
    ensures TruthyBinding(existing) ==> (r.Err? <==> ops.parse(existing.value.value, baseUrl.href).None?)
  {
    if !TruthyBinding(existing) then Ok(true)
    else match ops.parse(existing.value.value, baseUrl.href)
      case None => Err(PlainError("Invalid URL"))
      case Some(u) => Ok(u.href == target.href)
  }

  /**
   * What `flatten` works with inside one scope: the URL parser, the base
   * URL, the `fixed` flag, the scope's key, the key of its hoisting scope,
   * and whether the two name the same object.
   */
  datatype ScopeCtx = ScopeCtx(ops: UrlOps, baseUrl: Url, fixed: bool, scope: string, baseKey: string, alias: bool)

  /**
   * The state of `flatten` inside one scope: all scopes, the hoisting
   * scope's object (`scopeBase`), the scope's own object (`scopeImports`)
   * and `flattenedAll`.
   */
  datatype Hoisting = Hoisting(scopes: Scopes, base: Imports, own: Imports, all: bool)

  /** A run that stops at a thrown error keeps the state reached so far. */
  datatype Stopped<S> = Stopped(state: S, error: Option<Error>)

  /** A target rebased for the hoisting scope: `_baseUrlRelative(new URL(target, baseUrl))`. */
  function Rebased(ops: UrlOps, baseUrl: Url, fixed: bool, target: string): Option<string>
  {
    match ops.parse(target, baseUrl.href)
    case None => None
    case Some(t) => Some(Relative(baseUrl, t, fixed))
  }

  /** Lines 207-209 for two different objects: into the base, out of the scope, base re-sorted. */
  function Hoist(c: ScopeCtx, h: Hoisting, name: string, rel: string): Hoisting
  {
    Hoisting(
      Put(Put(h.scopes, c.scope, Delete(h.own, name)), c.baseKey, Alphabetize(Put(h.base, name, Some(rel)))),
      Put(h.base, name, Some(rel)),
      Delete(h.own, name),
      h.all)
  }

  /** Lines 207-209 when `scopeBase` and `scopeImports` are the same object. */
  function HoistSelf(c: ScopeCtx, h: Hoisting, name: string, rel: string): Hoisting
  {
    Hoisting(
      Put(h.scopes, c.baseKey, Alphabetize(Delete(Put(h.own, name, Some(rel)), name))),
      Delete(Put(h.own, name, Some(rel)), name),
      Delete(Put(h.own, name, Some(rel)), name),
      h.all)
  }

  /** One turn of the loop over a scope's bindings (lines 202-213). */
  function HoistName(c: ScopeCtx, h: Hoisting, name: string, target: Option<string>): (r: Result<Hoisting>)
    ensures target.Some? && c.ops.parse(target.value, c.baseUrl.href).None? ==> r.Err?
  {
    if target.None? then Ok(h)
    else match c.ops.parse(target.value, c.baseUrl.href)
      case None => Err(PlainError("Invalid URL"))
      case Some(t) =>
        match Agrees(c.ops, c.baseUrl, Get(if c.alias then h.own else h.base, name), t)
        case Err(e) => Err(e)
        case Ok(agree) =>
          if !agree then Ok(h.(all := false))
          else if c.alias then Ok(HoistSelf(c, h, name, Relative(c.baseUrl, t, c.fixed)))
          else Ok(Hoist(c, h, name, Relative(c.baseUrl, t, c.fixed)))
  }

  /** The next turn after `prev`, unless `prev` already threw. */
  function HoistNext(c: ScopeCtx, prev: Stopped<Hoisting>, e: (string, Option<string>)): Stopped<Hoisting>
  {
    if prev.error.Some? then prev
    else match HoistName(c, prev.state, e.0, e.1)
      case Err(err) => Stopped(prev.state, Some(err))
      case Ok(h) => Stopped(h, None)
  }

  /** The loop over the bindings `entries` of the scope, in order. */
  function HoistAll(c: ScopeCtx, h: Hoisting, entries: Imports): Stopped<Hoisting>
  {
    if |entries| == 0 then Stopped(h, None)
    else HoistNext(c, HoistAll(c, h, entries[..|entries| - 1]), entries[|entries| - 1])
  }

  /** One more turn of the loop over the bindings. */
  lemma HoistAllStep(c: ScopeCtx, h: Hoisting, entries: Imports, n: nat)
    requires n < |entries|
    ensures HoistAll(c, h, entries[..n + 1]) == HoistNext(c, HoistAll(c, h, entries[..n]), entries[n])
  {
    assert entries[..n + 1][..n] == entries[..n];
  }

  /** Once a turn threw, the later turns change nothing. */
  lemma {:induction false} HoistAllStops(c: ScopeCtx, h: Hoisting, entries: Imports, n: nat)
    requires n <= |entries| && HoistAll(c, h, entries[..n]).error.Some?
    ensures HoistAll(c, h, entries) == HoistAll(c, h, entries[..n])
  {
    if n < |entries| {
      assert entries[..|entries| - 1][..n] == entries[..n];
      HoistAllStops(c, h, entries[..|entries| - 1], n);
    } else {
      assert entries[..n] == entries;
    }
  }

  /** The loop state a scope starts from. */
  function Start(c: ScopeCtx, scopes: Scopes, own: Imports): Hoisting
  {
    Hoisting(scopes, if c.alias then own else Get(scopes, c.baseKey).UnwrapOr([]), own, true)
  }

  /**
   * One turn of the loop over scopes (lines 189-216). Corrected, a scope
   * that is its own hoisting scope is left alone.
   */
  function FlattenScope(ops: UrlOps, baseUrl: Url, fixed: bool, scopes: Scopes, scope: string): (r: Stopped<Scopes>)
    ensures ops.parse(scope, baseUrl.href).Some? && ops.parse(scope, baseUrl.href).value.protocol == "file:" ==> r == Stopped(scopes, None)
    ensures ops.parse(scope, baseUrl.href).None? ==> r.error.Some?
  {
    match ops.parse(scope, baseUrl.href)
    case None => Stopped(scopes, Some(PlainError("Invalid URL")))
    case Some(u) =>
      match HoistBase(u, baseUrl)
      case None => Stopped(scopes, None)
      case Some(baseKey) =>
        if fixed && baseKey == scope then Stopped(scopes, None)
        else match Get(scopes, scope)
          case None => Stopped(scopes, Some(PlainError("Cannot convert undefined or null to object")))
          case Some(own) =>
            FinishScope(ScopeCtx(ops, baseUrl, fixed, scope, baseKey, baseKey == scope), HoistAll(ScopeCtx(ops, baseUrl, fixed, scope, baseKey, baseKey == scope), Start(ScopeCtx(ops, baseUrl, fixed, scope, baseKey, baseKey == scope), scopes, own), own))
  }

  /** Lines 215-216: the scope goes when every binding was hoisted. */
  function FinishScope(c: ScopeCtx, h: Stopped<Hoisting>): Stopped<Scopes>
  {
    if h.error.Some? then Stopped(h.state.scopes, h.error)
    else if h.state.all then Stopped(Delete(h.state.scopes, c.scope), None)
    else Stopped(h.state.scopes, None)
  }

  /** The next scope after `prev`, unless `prev` already threw. */
  function FlattenNext(ops: UrlOps, baseUrl: Url, fixed: bool, prev: Stopped<Scopes>, scope: string): Stopped<Scopes>
  {
    if prev.error.Some? then prev else FlattenScope(ops, baseUrl, fixed, prev.state, scope)
  }

  /** The loop over the scope keys taken before it starts. */
  function FlattenScopes(ops: UrlOps, baseUrl: Url, fixed: bool, scopes: Scopes, keys: seq<string>): Stopped<Scopes>
  {
    if |keys| == 0 then Stopped(scopes, None)
    else FlattenNext(ops, baseUrl, fixed, FlattenScopes(ops, baseUrl, fixed, scopes, keys[..|keys| - 1]), keys[|keys| - 1])
  }

  /** One more scope visited after a prefix of the keys that did not throw. */
  lemma FlattenScopesStep(ops: UrlOps, baseUrl: Url, fixed: bool, scopes: Scopes, keys: seq<string>, i: nat, current: Scopes)
    requires i < |keys| && FlattenScopes(ops, baseUrl, fixed, scopes, keys[..i]) == Stopped(current, None)
    ensures FlattenScopes(ops, baseUrl, fixed, scopes, keys[..i + 1]) == FlattenScope(ops, baseUrl, fixed, current, keys[i])
  {
    assert keys[..i + 1][..i] == keys[..i];
  }

  /** Once a scope threw, the later scopes are not visited. */
  lemma {:induction false} FlattenScopesStops(ops: UrlOps, baseUrl: Url, fixed: bool, scopes: Scopes, keys: seq<string>, n: nat)
    requires n <= |keys| && FlattenScopes(ops, baseUrl, fixed, scopes, keys[..n]).error.Some?
    ensures FlattenScopes(ops, baseUrl, fixed, scopes, keys) == FlattenScopes(ops, baseUrl, fixed, scopes, keys[..n])
  {
    if n < |keys| {
      assert keys[..|keys| - 1][..n] == keys[..n];
      FlattenScopesStops(ops, baseUrl, fixed, scopes, keys[..|keys| - 1], n);
    } else {
      assert keys[..n] == keys;
    }
  }

  /** Lines 218-221: the depcache without its empty lists. */
  function DropEmpty(d: Dict<seq<string>>): (r: Dict<seq<string>>)
    ensures forall i :: 0 <= i < |r| ==> r[i] in d && |r[i].1| > 0
    ensures forall i :: 0 <= i < |d| && |d[i].1| > 0 ==> d[i] in r
  {
    if |d| == 0 then []
    else if |d[|d| - 1].1| == 0 then DropEmpty(d[..|d| - 1])
    else DropEmpty(d[..|d| - 1]) + [d[|d| - 1]]
  }

  /** `flatten()`: the scopes hoisted, then the empty depcache lists dropped. */
  function Flattened(ops: UrlOps, baseUrl: Url, fixed: bool, m: ImportMap): Stopped<ImportMap>
  {
    if FlattenScopes(ops, baseUrl, fixed, m.scopes, Keys(m.scopes)).error.Some? then
      Stopped(m.(scopes := FlattenScopes(ops, baseUrl, fixed, m.scopes, Keys(m.scopes)).state), FlattenScopes(ops, baseUrl, fixed, m.scopes, Keys(m.scopes)).error)
    else
      Stopped(m.(scopes := FlattenScopes(ops, baseUrl, fixed, m.scopes, Keys(m.scopes)).state, depcache := DropEmpty(m.depcache)), None)
  }

  /**
   * Inside a scope whose hoisting scope is another object, after the
   * bindings `done`: every non-null target parsed; each non-null binding
   * of `done` is in the hoisting scope under its rebased URL and gone from
   * the scope, or still in the scope with `flattenedAll` false; bindings
   * not yet visited are untouched; the scope's object is the one stored
   * under its key; the hoisting scope's object is stored re-sorted, or
   * both are as they were.
   */
  ghost predicate Kept(c: ScopeCtx, scopes0: Scopes, own0: Imports, done: Imports, h: Hoisting)
  {
    && DistinctKeys(h.base)
    && Get(h.scopes, c.scope) == Some(h.own)
    && (Get(h.scopes, c.baseKey) == Some(Alphabetize(h.base))
        || (Get(h.scopes, c.baseKey) == Get(scopes0, c.baseKey) && h.base == Get(scopes0, c.baseKey).UnwrapOr([])))
    && (forall k :: k !in Keys(done) ==> Get(h.own, k) == Get(own0, k))
    && (forall i :: 0 <= i < |done| && done[i].1.Some? ==> Rebased(c.ops, c.baseUrl, c.fixed, done[i].1.value).Some?)
    && (forall i :: 0 <= i < |done| && done[i].1.Some? ==>
          (Get(h.base, done[i].0) == Some(Rebased(c.ops, c.baseUrl, c.fixed, done[i].1.value)) && Get(h.own, done[i].0).None?)
          || (Get(h.own, done[i].0) == Some(done[i].1) && !h.all))
  }

  lemma KeysPrefix(d: Imports, n: nat)
    requires n < |d| && DistinctKeys(d)
    ensures Keys(d[..n + 1]) == Keys(d[..n]) + [d[n].0]
    ensures d[n].0 !in Keys(d[..n])
  {
    assert Keys(d[..n + 1]) == Keys(d[..n]) + [d[n].0];
    forall j | 0 <= j < n ensures Keys(d[..n])[j] != d[n].0 {
      assert d[j].0 != d[n].0;
    }
  }

  /** A turn that skips a null binding or meets a conflict keeps `Kept`. */
  lemma KeptSkip(c: ScopeCtx, scopes0: Scopes, own0: Imports, n: nat, h: Hoisting, h': Hoisting)
    requires n < |own0| && DistinctKeys(own0)
    requires Kept(c, scopes0, own0, own0[..n], h)
    requires own0[n].1.Some? ==> Rebased(c.ops, c.baseUrl, c.fixed, own0[n].1.value).Some?
    requires (h' == h && own0[n].1.None?) || h' == h.(all := false)
    ensures Kept(c, scopes0, own0, own0[..n + 1], h')
  {
    var name, target := own0[n].0, own0[n].1;
    KeysPrefix(own0, n);
    assert own0[..n + 1] == own0[..n] + [own0[n]];
    GetMember(own0, name, target);
  }

  /** A turn that hoists keeps `Kept`. */
  lemma KeptHoist(c: ScopeCtx, scopes0: Scopes, own0: Imports, n: nat, h: Hoisting, rel: string)
    requires n < |own0| && DistinctKeys(own0) && c.scope != c.baseKey
    requires Kept(c, scopes0, own0, own0[..n], h)
    requires own0[n].1.Some? && Rebased(c.ops, c.baseUrl, c.fixed, own0[n].1.value) == Some(rel)
    ensures Kept(c, scopes0, own0, own0[..n + 1], Hoist(c, h, own0[n].0, rel))
  {
    var name := own0[n].0;
    var h' := Hoist(c, h, name, rel);
    KeysPrefix(own0, n);
    var done, done' := own0[..n], own0[..n + 1];
    assert done' == done + [own0[n]];
    assert DistinctKeys(h'.base) by {
      PutDistinct(h.base, name, Some(rel));
    }
    assert Get(h'.scopes, c.scope) == Some(h'.own) by {
      GetPut(Put(h.scopes, c.scope, h'.own), c.baseKey, Alphabetize(h'.base), c.scope);
      GetPut(h.scopes, c.scope, h'.own, c.scope);
    }
    assert Get(h'.scopes, c.baseKey) == Some(Alphabetize(h'.base)) by {
      GetPut(Put(h.scopes, c.scope, h'.own), c.baseKey, Alphabetize(h'.base), c.baseKey);
    }
    assert forall k :: k !in Keys(done') ==> Get(h'.own, k) == Get(own0, k) by {
      forall k | k !in Keys(done') ensures Get(h'.own, k) == Get(own0, k) {
        GetDelete(h.own, name, k);
      }
    }
    assert forall i :: 0 <= i < |done'| && done'[i].1.Some? ==> Rebased(c.ops, c.baseUrl, c.fixed, done'[i].1.value).Some? by {
      forall i | 0 <= i < |done'| && done'[i].1.Some? ensures Rebased(c.ops, c.baseUrl, c.fixed, done'[i].1.value).Some? {
        if i < n {
          assert done'[i] == done[i];
        }
      }
    }
    assert Get(h'.base, name) == Some(Some(rel)) && Get(h'.own, name).None? by {
      GetDelete(h.own, name, name);
      GetPut(h.base, name, Some(rel), name);
    }
    forall i | 0 <= i < |done'| && done'[i].1.Some?
      ensures (Get(h'.base, done'[i].0) == Some(Rebased(c.ops, c.baseUrl, c.fixed, done'[i].1.value)) && Get(h'.own, done'[i].0).None?)
        || (Get(h'.own, done'[i].0) == Some(done'[i].1) && !h'.all)
    {
      if i < n {
        assert done'[i] == done[i];
        assert done[i].0 != name by { assert own0[i].0 != own0[n].0; }
        GetPut(h.base, name, Some(rel), done[i].0);
        GetDelete(h.own, name, done[i].0);
      }
    }
  }

  /** One turn keeps `Kept`. */
  lemma KeptStep(c: ScopeCtx, scopes0: Scopes, own0: Imports, n: nat, h: Hoisting, h': Hoisting)
    requires n < |own0| && DistinctKeys(own0) && !c.alias && c.scope != c.baseKey
    requires Kept(c, scopes0, own0, own0[..n], h)
    requires HoistName(c, h, own0[n].0, own0[n].1) == Ok(h')
    ensures Kept(c, scopes0, own0, own0[..n + 1], h')
  {
    if own0[n].1.Some? && h' != h.(all := false) {
      KeptHoist(c, scopes0, own0, n, h, Relative(c.baseUrl, c.ops.parse(own0[n].1.value, c.baseUrl.href).value, c.fixed));
    } else {
      KeptSkip(c, scopes0, own0, n, h, h');
    }
  }

  /** A loop over the bindings that threw nowhere keeps `Kept`. */
  lemma {:induction false} HoistAllKept(c: ScopeCtx, scopes0: Scopes, own0: Imports, n: nat)
    requires n <= |own0| && DistinctKeys(own0) && !c.alias && c.scope != c.baseKey
    requires Get(scopes0, c.scope) == Some(own0) && DistinctKeys(Get(scopes0, c.baseKey).UnwrapOr([]))
    requires HoistAll(c, Start(c, scopes0, own0), own0[..n]).error.None?
    ensures Kept(c, scopes0, own0, own0[..n], HoistAll(c, Start(c, scopes0, own0), own0[..n]).state)
  {
    if n > 0 {
      HoistAllStep(c, Start(c, scopes0, own0), own0, n - 1);
      var prev := HoistAll(c, Start(c, scopes0, own0), own0[..n - 1]);
      assert prev.error.None?;
      HoistAllKept(c, scopes0, own0, n - 1);
      KeptStep(c, scopes0, own0, n - 1, prev.state, HoistAll(c, Start(c, scopes0, own0), own0[..n]).state);
    } else {
      assert Keys(own0[..0]) == [];
    }
  }

  /** In the hoisting scope as stored, a name reads what the loop's `scopeBase` holds. */
  lemma StoredBase(c: ScopeCtx, scopes0: Scopes, own0: Imports, done: Imports, h: Hoisting, scopes: Scopes, name: string)
    requires Kept(c, scopes0, own0, done, h)
    requires Get(scopes, c.baseKey) == Get(h.scopes, c.baseKey)
    ensures Get(Get(scopes, c.baseKey).UnwrapOr([]), name) == Get(h.base, name)
  {
    if Get(h.scopes, c.baseKey) == Some(Alphabetize(h.base)) {
      GetAlphabetize(h.base, name);
    }
  }

  /**
   * Flattening a scope loses none of its non-null bindings: each is still
   * in the scope or is in the hoisting scope under its rebased URL, and
   * once the scope is deleted it is the latter. As written this needs the
   * hoisting scope to be another scope (see `FlattenSelfAsWritten`).
   */
  lemma FlattenScopeKeeps(ops: UrlOps, baseUrl: Url, fixed: bool, scopes: Scopes, scope: string, u: Url, baseKey: string, own: Imports, name: string, target: string)
    requires ops.parse(scope, baseUrl.href) == Some(u) && HoistBase(u, baseUrl) == Some(baseKey) && (baseKey != scope || fixed)
    requires Get(scopes, scope) == Some(own) && DistinctKeys(own) && DistinctKeys(Get(scopes, baseKey).UnwrapOr([]))
    requires FlattenScope(ops, baseUrl, fixed, scopes, scope).error.None?
    requires (name, Some(target)) in own
    ensures Get(FlattenScope(ops, baseUrl, fixed, scopes, scope).state, scope).None? ==>
      Rebased(ops, baseUrl, fixed, target).Some? &&
      Get(Get(FlattenScope(ops, baseUrl, fixed, scopes, scope).state, baseKey).UnwrapOr([]), name) == Some(Rebased(ops, baseUrl, fixed, target))
    ensures Get(Get(FlattenScope(ops, baseUrl, fixed, scopes, scope).state, scope).UnwrapOr([]), name) == Some(Some(target))
      || (Rebased(ops, baseUrl, fixed, target).Some? &&
          Get(Get(FlattenScope(ops, baseUrl, fixed, scopes, scope).state, baseKey).UnwrapOr([]), name) == Some(Rebased(ops, baseUrl, fixed, target)))
  {
    var i :| 0 <= i < |own| && own[i] == (name, Some(target));
    if baseKey == scope {
      assert FlattenScope(ops, baseUrl, fixed, scopes, scope).state == scopes;
      GetMember(own, name, Some(target));
    } else {
      var c := ScopeCtx(ops, baseUrl, fixed, scope, baseKey, false);
      assert own[..|own|] == own;
      HoistAllKept(c, scopes, own, |own|);
      var h := HoistAll(c, Start(c, scopes, own), own).state;
      var r := FlattenScope(ops, baseUrl, fixed, scopes, scope).state;
      assert r == if h.all then Delete(h.scopes, scope) else h.scopes;
      GetDelete(h.scopes, scope, baseKey);
      GetDelete(h.scopes, scope, scope);
      StoredBase(c, scopes, own, own, h, r, name);
    }
  }

  /** With `scopeBase` and `scopeImports` one object, every turn hoists and the object loses the name. */
  /** Setting a binding and deleting it again leaves the other names alone. */
  lemma SetAndDelete(own: Imports, name: string, rel: string, k: string)
    requires k != name
    ensures Get(Delete(Put(own, name, Some(rel)), name), k) == Get(own, k)
  {
    GetDelete(Put(own, name, Some(rel)), name, k);
    GetPut(own, name, Some(rel), k);
  }

  ghost predicate SelfHoisted(c: ScopeCtx, own0: Imports, done: Imports, h: Hoisting)
  {
    h.all && h.base == h.own && forall k :: k !in Keys(done) ==> Get(h.own, k) == Get(own0, k)
  }

  /** Hoisting one binding of such a scope keeps the invariant. */
  lemma HoistSelfStep(c: ScopeCtx, own0: Imports, before: Imports, after: Imports, h: Hoisting, name: string, rel: string)
    requires SelfHoisted(c, own0, before, h) && Keys(after) == Keys(before) + [name]
    ensures SelfHoisted(c, own0, after, HoistSelf(c, h, name, rel))
  {
    forall k | k !in Keys(after) ensures Get(HoistSelf(c, h, name, rel).own, k) == Get(own0, k) {
      assert k != name && k !in Keys(before);
      SetAndDelete(h.own, name, rel, k);
    }
  }

  /** One binding of such a scope, whose value is still the one the scope had. */
  lemma SelfName(c: ScopeCtx, own0: Imports, before: Imports, after: Imports, h: Hoisting, name: string, target: Option<string>)
    requires c.alias && SelfHoisted(c, own0, before, h)
    requires Keys(after) == Keys(before) + [name] && name !in Keys(before) && Get(own0, name) == Some(target)
    requires HoistName(c, h, name, target).Ok?
    ensures SelfHoisted(c, own0, after, HoistName(c, h, name, target).value)
  {
    if target.Some? {
      var t := c.ops.parse(target.value, c.baseUrl.href).value;
      var rel := Relative(c.baseUrl, t, c.fixed);
      assert Get(h.own, name) == Some(target);
      assert Agrees(c.ops, c.baseUrl, Get(h.own, name), t) == Ok(true);
      assert HoistName(c, h, name, target).value == HoistSelf(c, h, name, rel);
      HoistSelfStep(c, own0, before, after, h, name, rel);
    }
  }

  lemma {:induction false} HoistAllSelf(c: ScopeCtx, scopes0: Scopes, own0: Imports, n: nat)
    requires n <= |own0| && DistinctKeys(own0) && c.alias
    requires HoistAll(c, Start(c, scopes0, own0), own0[..n]).error.None?
    ensures SelfHoisted(c, own0, own0[..n], HoistAll(c, Start(c, scopes0, own0), own0[..n]).state)
  {
    if n > 0 {
      HoistAllStep(c, Start(c, scopes0, own0), own0, n - 1);
      var prev := HoistAll(c, Start(c, scopes0, own0), own0[..n - 1]);
      HoistAllSelf(c, scopes0, own0, n - 1);
      KeysPrefix(own0, n - 1);
      GetMember(own0, own0[n - 1].0, own0[n - 1].1);
      SelfName(c, own0, own0[..n - 1], own0[..n], prev.state, own0[n - 1].0, own0[n - 1].1);
    } else {
      assert Keys(own0[..0]) == [];
    }
  }

  /**
   * As written, a scope that is its own hoisting scope (such as `/` for a
   * base URL of the same origin) is deleted by `flatten` together with all
   * its bindings, which are then found nowhere.
   */
  lemma FlattenSelfAsWritten(ops: UrlOps, baseUrl: Url, scopes: Scopes, scope: string, u: Url, own: Imports)
    requires ops.parse(scope, baseUrl.href) == Some(u) && HoistBase(u, baseUrl) == Some(scope)
    requires Get(scopes, scope) == Some(own) && DistinctKeys(own)
    requires FlattenScope(ops, baseUrl, false, scopes, scope).error.None?
    ensures Get(FlattenScope(ops, baseUrl, false, scopes, scope).state, scope).None?
  {
    var c := ScopeCtx(ops, baseUrl, false, scope, scope, true);
    assert own[..|own|] == own;
    HoistAllSelf(c, scopes, own, |own|);
    GetDelete(HoistAll(c, Start(c, scopes, own), own).state.scopes, scope, scope);
  }

  /** Corrected, such a scope is left as it is. */
  lemma FlattenSelfCorrected(ops: UrlOps, baseUrl: Url, scopes: Scopes, scope: string, u: Url)
    requires ops.parse(scope, baseUrl.href) == Some(u) && HoistBase(u, baseUrl) == Some(scope)
    ensures FlattenScope(ops, baseUrl, true, scopes, scope) == Stopped(scopes, None)
  {
  }

  // ---------------------------------------------------------------- resolve

  /**
   * The functions `resolve` calls: the URL parser, and the scope and map
   * matchers `getScopeMatches` and `getMapMatch` (src/installtree.ts is
   * not part of this model). The scope matcher answers the matching scope
   * keys, most specific first.
   */
  datatype ResolveOps = ResolveOps(
    urls: UrlOps,
    scopeMatches: (string, Scopes, string) -> seq<string>,
    mapMatch: (string, Imports) -> Option<string>)

  /** `getMapMatch(specifier, m)`, taken as a key of `m` (any other answer counts as no match). */
  function MapMatch(ops: ResolveOps, specifier: string, m: Imports): (r: Option<string>)
    ensures r.Some? ==> Get(m, r.value).Some?
  {
    if ops.mapMatch(specifier, m).Some? && Get(m, ops.mapMatch(specifier, m).value).Some? then ops.mapMatch(specifier, m) else None
  }

  /**
   * A matched binding: `null` for a `null` target, otherwise the target
   * followed by the rest of the specifier, resolved against the base URL.
   */
  function Bound(ops: ResolveOps, specifier: string, target: Option<string>, key: string, baseUrl: Url): (r: Result<Option<Url>>)
    ensures target.None? ==> r == Ok(None)
    ensures target.Some? ==> (r.Ok? <==> ops.urls.parse(target.value + SliceFrom(specifier, |key|), baseUrl.href).Some?)
    ensures r.Err? ==> r.error == PlainError("Invalid URL")
  {
    if target.None? then Ok(None)
    else match ops.urls.parse(target.value + SliceFrom(specifier, |key|), baseUrl.href)
      case None => Err(PlainError("Invalid URL"))
      case Some(u) => Ok(Some(u))
  }

  /** The bindings of scope `scope`; a key the map lacks has none. */
  function ScopeImports(scopes: Scopes, scope: string): Imports
  {
    Get(scopes, scope).UnwrapOr([])
  }

  /** The loop of lines 431-438 over the matching scopes `matches`: the first scope that binds the specifier decides. */
  function ScopeLookup(ops: ResolveOps, specifier: string, scopes: Scopes, matches: seq<string>, baseUrl: Url): (r: Option<Result<Option<Url>>>)
    ensures r.Some? && r.value.Err? ==> r.value.error == PlainError("Invalid URL")
  {
    if |matches| == 0 then None
    else if MapMatch(ops, specifier, ScopeImports(scopes, matches[0])).Some? then
      Some(Bound(ops, specifier, Get(ScopeImports(scopes, matches[0]), MapMatch(ops, specifier, ScopeImports(scopes, matches[0])).value).value,
                 MapMatch(ops, specifier, ScopeImports(scopes, matches[0])).value, baseUrl))
    else ScopeLookup(ops, specifier, scopes, matches[1..], baseUrl)
  }

  /** The error `resolve` throws when nothing binds the specifier. */
  function NotFound(specifier: string, parentUrl: Url): Error
  {
    JspmError("Unable to resolve \"" + specifier + "\" from " + parentUrl.href, "MODULE_NOT_FOUND")
  }

  /** `resolve(specifier, parentUrl, map, baseUrl)`: `Ok(None)` is `null`, `Err` a thrown error. */
  function Resolved(ops: ResolveOps, specifier: string, parentUrl: Url, m: ImportMap, baseUrl: Url): (r: Result<Option<Url>>)
    ensures !ops.urls.isPlain(specifier) ==>
      r == (if ops.urls.parse(specifier, parentUrl.href).Some? then Ok(ops.urls.parse(specifier, parentUrl.href)) else Err(PlainError("Invalid URL")))
  {
    if !ops.urls.isPlain(specifier) then
      if ops.urls.parse(specifier, parentUrl.href).Some? then Ok(ops.urls.parse(specifier, parentUrl.href)) else Err(PlainError("Invalid URL"))
    else if ScopeLookup(ops, specifier, m.scopes, ops.scopeMatches(parentUrl.href, m.scopes, baseUrl.href), baseUrl).Some? then
      ScopeLookup(ops, specifier, m.scopes, ops.scopeMatches(parentUrl.href, m.scopes, baseUrl.href), baseUrl).value
    else if MapMatch(ops, specifier, m.imports).Some? then
      Bound(ops, specifier, Get(m.imports, MapMatch(ops, specifier, m.imports).value).value, MapMatch(ops, specifier, m.imports).value, baseUrl)
    else Err(NotFound(specifier, parentUrl))
  }

  /**
   * Scopes are consulted in the matcher's order and the first scope that
   * binds the specifier decides, whatever later scopes say.
   */
  lemma {:induction false} ScopeLookupFirst(ops: ResolveOps, specifier: string, scopes: Scopes, matches: seq<string>, baseUrl: Url, j: nat)
    requires j < |matches|
    requires forall i :: 0 <= i < j ==> MapMatch(ops, specifier, ScopeImports(scopes, matches[i])).None?
    requires MapMatch(ops, specifier, ScopeImports(scopes, matches[j])).Some?
    ensures ScopeLookup(ops, specifier, scopes, matches, baseUrl)
      == Some(Bound(ops, specifier, Get(ScopeImports(scopes, matches[j]), MapMatch(ops, specifier, ScopeImports(scopes, matches[j])).value).value,
                    MapMatch(ops, specifier, ScopeImports(scopes, matches[j])).value, baseUrl))
  {
    if j > 0 {
      ScopeLookupFirst(ops, specifier, scopes, matches[1..], baseUrl, j - 1);
    }
  }

  /** No scope binds the specifier exactly when the lookup over them gives nothing. */
  lemma {:induction false} ScopeLookupNone(ops: ResolveOps, specifier: string, scopes: Scopes, matches: seq<string>, baseUrl: Url)
    ensures ScopeLookup(ops, specifier, scopes, matches, baseUrl).None?
      <==> forall i :: 0 <= i < |matches| ==> MapMatch(ops, specifier, ScopeImports(scopes, matches[i])).None?
  {
    if |matches| > 0 {
      ScopeLookupNone(ops, specifier, scopes, matches[1..], baseUrl);
      assert forall i :: 1 <= i < |matches| ==> matches[i] == matches[1..][i - 1];
    }
  }

  /**
   * A bare specifier that no matching scope and no top-level import binds
   * is a MODULE_NOT_FOUND error, and only such a specifier is.
   */
  lemma ResolvedNotFound(ops: ResolveOps, specifier: string, parentUrl: Url, m: ImportMap, baseUrl: Url)
    requires ops.urls.isPlain(specifier)
    ensures Resolved(ops, specifier, parentUrl, m, baseUrl) == Err(NotFound(specifier, parentUrl))
      <==> (forall i :: 0 <= i < |ops.scopeMatches(parentUrl.href, m.scopes, baseUrl.href)| ==>
             MapMatch(ops, specifier, ScopeImports(m.scopes, ops.scopeMatches(parentUrl.href, m.scopes, baseUrl.href)[i])).None?)
           && MapMatch(ops, specifier, m.imports).None?
  {
    var matches := ops.scopeMatches(parentUrl.href, m.scopes, baseUrl.href);
    ScopeLookupNone(ops, specifier, m.scopes, matches, baseUrl);
  }

  /** A binding of the specifier in a matching scope shadows the top-level imports. */
  lemma ResolvedScopeFirst(ops: ResolveOps, specifier: string, parentUrl: Url, m: ImportMap, baseUrl: Url, j: nat)
    requires ops.urls.isPlain(specifier)
    requires j < |ops.scopeMatches(parentUrl.href, m.scopes, baseUrl.href)|
    requires MapMatch(ops, specifier, ScopeImports(m.scopes, ops.scopeMatches(parentUrl.href, m.scopes, baseUrl.href)[j])).Some?
    ensures forall imports :: Resolved(ops, specifier, parentUrl, m.(imports := imports), baseUrl) == Resolved(ops, specifier, parentUrl, m, baseUrl)
  {
    var matches := ops.scopeMatches(parentUrl.href, m.scopes, baseUrl.href);
    ScopeLookupNone(ops, specifier, m.scopes, matches, baseUrl);
  }

  /** A `null` target reached first resolves to `null`. */
  lemma ResolvedNull(ops: ResolveOps, specifier: string, parentUrl: Url, m: ImportMap, baseUrl: Url)
    requires ops.urls.isPlain(specifier)
    requires forall i :: 0 <= i < |ops.scopeMatches(parentUrl.href, m.scopes, baseUrl.href)| ==>
      MapMatch(ops, specifier, ScopeImports(m.scopes, ops.scopeMatches(parentUrl.href, m.scopes, baseUrl.href)[i])).None?
    requires MapMatch(ops, specifier, m.imports).Some? && Get(m.imports, MapMatch(ops, specifier, m.imports).value) == Some(None)
    ensures Resolved(ops, specifier, parentUrl, m, baseUrl) == Ok(None)
  {
    ScopeLookupNone(ops, specifier, m.scopes, ops.scopeMatches(parentUrl.href, m.scopes, baseUrl.href), baseUrl);
  }

  /** `resolve`, with its loop over the matching scopes. */
  method ResolveInMap(ops: ResolveOps, specifier: string, parentUrl: Url, m: ImportMap, baseUrl: Url) returns (r: Result<Option<Url>>)
    ensures r == Resolved(ops, specifier, parentUrl, m, baseUrl)
  {
    if !ops.urls.isPlain(specifier) {
      var u := ops.urls.parse(specifier, parentUrl.href);
      if u.None? {
        return Err(PlainError("Invalid URL"));
      }
      return Ok(u);
    }
    var matches := ops.scopeMatches(parentUrl.href, m.scopes, baseUrl.href);
    var i := 0;
    while i < |matches|
      invariant 0 <= i <= |matches|
      invariant ScopeLookup(ops, specifier, m.scopes, matches, baseUrl) == ScopeLookup(ops, specifier, m.scopes, matches[i..], baseUrl)
    {
      var scopeImports := ScopeImports(m.scopes, matches[i]);
      var mapMatch := MapMatch(ops, specifier, scopeImports);
      if mapMatch.Some? {
        var target := Get(scopeImports, mapMatch.value).value;
        if target.None? {
          return Ok(None);
        }
        var u := ops.urls.parse(target.value + SliceFrom(specifier, |mapMatch.value|), baseUrl.href);
        if u.None? {
          return Err(PlainError("Invalid URL"));
        }
        return Ok(u);
      }
      assert matches[i..][1..] == matches[i + 1..];
      i := i + 1;
    }
    var mapMatch := MapMatch(ops, specifier, m.imports);
    if mapMatch.Some? {
      var target := Get(m.imports, mapMatch.value).value;
      if target.None? {
        return Ok(None);
      }
      var u := ops.urls.parse(target.value + SliceFrom(specifier, |mapMatch.value|), baseUrl.href);
      if u.None? {
        return Err(PlainError("Invalid URL"));
      }
      return Ok(u);
    }
    return Err(NotFound(specifier, parentUrl));
  }

  // ------------------------------------------------- upgrade / uninstall

  /**
   * The loop of `upgrade` and `uninstall` over the packages: each must be
   * a truthy top-level import when its turn comes, and is then deleted; the
   * first that is not stops the loop with the deletions so far kept.
   */
  function RemoveTopLevel(imports: Imports, packages: seq<string>, verb: string): Stopped<Imports>
  {
    if |packages| == 0 then Stopped(imports, None)
    else RemoveNext(RemoveTopLevel(imports, packages[..|packages| - 1], verb), packages[|packages| - 1], verb)
  }

  function RemoveNext(prev: Stopped<Imports>, pkg: string, verb: string): Stopped<Imports>
  {
    if prev.error.Some? then prev
    else if !TruthyBinding(Get(prev.state, pkg)) then
      Stopped(prev.state, Some(PlainError("Cannot " + verb + " package " + pkg + " as it is not a top-level \"imports\" entry.")))
    else Stopped(Delete(prev.state, pkg), None)
  }

  /** Once a package was refused, the later ones are not looked at. */
  lemma {:induction false} RemoveTopLevelStops(imports: Imports, packages: seq<string>, verb: string, n: nat)
    requires n <= |packages| && RemoveTopLevel(imports, packages[..n], verb).error.Some?
    ensures RemoveTopLevel(imports, packages, verb) == RemoveTopLevel(imports, packages[..n], verb)
  {
    if n < |packages| {
      assert packages[..|packages| - 1][..n] == packages[..n];
      RemoveTopLevelStops(imports, packages[..|packages| - 1], verb, n);
    } else {
      assert packages[..n] == packages;
    }
  }

  /** Lines 397 and 409: no packages at all is an error; otherwise the loop. */
  function Removal(imports: Imports, packages: seq<string>, verb: string, none: string): (r: Stopped<Imports>)
    ensures |packages| == 0 ==> r == Stopped(imports, Some(PlainError(none)))
  {
    if |packages| == 0 then Stopped(imports, Some(PlainError(none))) else RemoveTopLevel(imports, packages, verb)
  }

  /**
   * The loop succeeds exactly when every package is a truthy top-level
   * import and none is named twice; it then leaves every package unbound
   * and every other import as it was.
   */
  lemma {:induction false} RemoveTopLevelSpec(imports: Imports, packages: seq<string>, verb: string)
    ensures RemoveTopLevel(imports, packages, verb).error.None?
      <==> forall j :: 0 <= j < |packages| ==> TruthyBinding(Get(imports, packages[j])) && packages[j] !in packages[..j]
    ensures RemoveTopLevel(imports, packages, verb).error.None? ==>
      forall k :: Get(RemoveTopLevel(imports, packages, verb).state, k) == if k in packages then None else Get(imports, k)
  {
    if |packages| > 0 {
      var init, last := packages[..|packages| - 1], packages[|packages| - 1];
      RemoveTopLevelSpec(imports, init, verb);
      assert packages == init + [last];
      assert forall j :: 0 <= j < |init| ==> init[..j] == packages[..j];
      var prev := RemoveTopLevel(imports, init, verb);
      if prev.error.None? {
        forall k ensures Get(Delete(prev.state, last), k) == if k in packages then None else Get(imports, k) {
          GetDelete(prev.state, last, k);
        }
      }
    }
  }

  // ---------------------------------------------------------------- TraceMap

  /** The `baseUrl` argument of the constructor. */
  datatype BaseArg = NoBase | BaseString(s: string) | BaseInstance(u: Url)

  /**
   * The base URL a new `TraceMap` starts with (lines 69-72): a non-empty
   * string is resolved as a directory against the environment's base URL.
   * As written a `URL` instance is ignored and the environment's base URL
   * stays; corrected, the instance is taken.
   */
  function InitialBase(ops: UrlOps, envBaseUrl: Url, arg: BaseArg, fixed: bool): (r: Result<Url>)
    ensures arg.NoBase? ==> r == Ok(envBaseUrl)
    ensures arg.BaseString? && arg.s != "" && !EndsWith(arg.s, "/") ==>
      (r.Ok? <==> ops.parse(arg.s + "/", envBaseUrl.href).Some?)
    ensures arg.BaseString? && EndsWith(arg.s, "/") ==>
      (r.Ok? <==> ops.parse(arg.s, envBaseUrl.href).Some?)
  {
    match arg
    case NoBase => Ok(envBaseUrl)
    case BaseString(s) =>
      if s == "" then Ok(envBaseUrl)
      else (match ops.parse(if EndsWith(s, "/") then s else s + "/", envBaseUrl.href)
        case None => Err(PlainError("Invalid URL"))
        case Some(u) => Ok(u))
    case BaseInstance(u) => Ok(if fixed then u else envBaseUrl)
  }

  /** As written, a base URL given as a `URL` instance has no effect. */
  lemma InitialBaseAsWritten(ops: UrlOps, envBaseUrl: Url, u: Url)
    ensures InitialBase(ops, envBaseUrl, BaseInstance(u), false) == Ok(envBaseUrl)
  {
  }

  /** Corrected, it becomes the base URL. */
  lemma InitialBaseCorrected(ops: UrlOps, envBaseUrl: Url, u: Url)
    ensures InitialBase(ops, envBaseUrl, BaseInstance(u), true) == Ok(u)
  {
  }

  /**
   * `TraceMap` of src/tracemap.ts: an import map held against a base URL,
   * with the conditions its installs use and the JSON style object it
   * prints in.
   */
  class TraceMap {
    var baseUrl: Url
    var importMap: ImportMap
    var conditions: seq<string>
    const mapStyle: StyleObject
    const ops: ResolveOps
    const fixed: bool

    /**
     * `new TraceMap(baseUrl, map, conditions)`, given the base URL
     * `InitialBase` works out and the initial map `init`. A map given as
     * text comes with its `detected` style, held in a new object; any other
     * map prints in the shared `defaults` object itself.
     */
    constructor(ops: ResolveOps, baseUrl: Url, init: Option<Sections>, detected: Option<Style>, defaults: StyleObject,
                conditions: Option<seq<string>>, fixed: bool)
      ensures this.ops == ops && this.fixed == fixed && this.baseUrl == baseUrl
      ensures detected.Some? ==> fresh(mapStyle) && mapStyle.style == detected.value
      ensures detected.None? ==> mapStyle == defaults
      ensures importMap == if init.Some? then Extended(EmptyMap, init.value, true) else EmptyMap
      ensures this.conditions == if conditions.Some? then conditions.value else ["browser", "development"]
    {
      this.ops := ops;
      this.fixed := fixed;
      this.baseUrl := baseUrl;
      if detected.Some? {
        mapStyle := new StyleObject(detected.value);
      } else {
        mapStyle := defaults;
      }
      importMap := if init.Some? then Extended(EmptyMap, init.value, true) else EmptyMap;
      this.conditions := if conditions.Some? then conditions.value else ["browser", "development"];
    }

    /** `set(map)`. */
    method Set(p: Sections)
      modifies this`importMap
      ensures importMap == Filled(p)
    {
      importMap := ImportMap(p.imports.UnwrapOr([]), p.scopes.UnwrapOr([]), p.integrity.UnwrapOr([]), p.depcache.UnwrapOr([]));
    }

    /** The loop of `extend` over the incoming scopes, merging each into the existing one. */
    static method MergeEach(scopes: Scopes, src: Scopes) returns (r: Scopes)
      ensures r == MergeScopes(scopes, src)
    {
      r := scopes;
      var i := 0;
      while i < |src|
        invariant 0 <= i <= |src|
        invariant r == MergeScopes(scopes, src[..i])
      {
        assert src[..i + 1][..i] == src[..i];
        r := MergeScope(r, src[i].0, src[i].1);
        i := i + 1;
      }
      assert src[..i] == src;
    }

    /** `extend(map, overrideScopes)`. */
    method Extend(p: Sections, overrideScopes: bool)
      modifies this`importMap
      ensures importMap == Extended(old(importMap), p, overrideScopes)
    {
      var imports, scopes, integrity, depcache := importMap.imports, importMap.scopes, importMap.integrity, importMap.depcache;
      if p.imports.Some? {
        imports := Assign(imports, p.imports.value);
      }
      if p.scopes.Some? {
        if overrideScopes {
          scopes := Assign(scopes, p.scopes.value);
        } else {
          scopes := MergeEach(scopes, p.scopes.value);
        }
      }
      if p.integrity.Some? {
        integrity := Assign(integrity, p.integrity.value);
      }
      if p.depcache.Some? {
        depcache := Assign(depcache, p.depcache.value);
      }
      importMap := ImportMap(imports, scopes, integrity, depcache);
    }

    /**
     * `toString(minify)`: the non-empty sections printed in the map's style,
     * minified on request. As written, minifying assigns into the style
     * object, so every map sharing it prints minified from then on;
     * corrected, the object is left alone.
     */
    method ToString(minify: bool, stringify: (Sections, string) -> string) returns (r: string)
      modifies mapStyle
      ensures r == StringifyStyled(Shown(importMap), if minify then Minified(old(mapStyle.style)) else old(mapStyle.style), stringify)
      ensures mapStyle.style == if minify && !fixed then Minified(old(mapStyle.style)) else old(mapStyle.style)
    {
      var obj := Sections(None, None, None, None);
      if |importMap.imports| > 0 {
        obj := obj.(imports := Some(importMap.imports));
      }
      if |importMap.scopes| > 0 {
        obj := obj.(scopes := Some(importMap.scopes));
      }
      if |importMap.integrity| > 0 {
        obj := obj.(integrity := Some(importMap.integrity));
      }
      if |importMap.depcache| > 0 {
        obj := obj.(depcache := Some(importMap.depcache));
      }
      var style := mapStyle.style;
      if minify {
        style := style.(indent := "", tab := "", newline := "");
        if !fixed {
          mapStyle.style := style;
        }
      }
      r := StringifyStyled(obj, style, stringify);
    }

    /** `_baseUrlRelative(url)`, with its loop over the common prefix of the paths. */
    method BaseUrlRelative(url: Url) returns (r: string)
      ensures r == Relative(baseUrl, url, fixed)
    {
      var baseUrlHref := baseUrl.href;
      if StartsWith(url.href, baseUrlHref) {
        return url.href[|baseUrlHref|..];
      }
      if url.origin != baseUrl.origin || !StartsWith(url.href, url.origin) || !StartsWith(baseUrlHref, url.origin) {
        return url.href;
      }
      var baseUrlPath, urlPath := baseUrl.pathname, url.pathname;
      var sharedBaseIndex := SharedBaseIndex(baseUrlPath, urlPath);
      var rest := baseUrlPath[sharedBaseIndex + 1..];
      var ups := if fixed then Count(rest, '/') else |Split(rest, '/')|;
      r := Repeat("../", ups) + urlPath[sharedBaseIndex + 1..] + url.search + url.hash;
    }

    /** The loop of lines 111-116: the last `/` of the common prefix of the two paths. */
    static method SharedBaseIndex(baseUrlPath: string, urlPath: string) returns (sharedBaseIndex: int)
      ensures sharedBaseIndex == SharedSlash(baseUrlPath, urlPath)
    {
      var minLen := if |baseUrlPath| < |urlPath| then |baseUrlPath| else |urlPath|;
      sharedBaseIndex := -1;
      var i := 0;
      while i < minLen && baseUrlPath[i] == urlPath[i]
        invariant 0 <= i <= minLen && -1 <= sharedBaseIndex < i
        invariant baseUrlPath[..i] == urlPath[..i]
        invariant sharedBaseIndex >= 0 ==> baseUrlPath[..sharedBaseIndex + 1] == urlPath[..sharedBaseIndex + 1] && urlPath[sharedBaseIndex] == '/'
        invariant SharedFrom(baseUrlPath, urlPath, i, sharedBaseIndex) == SharedSlash(baseUrlPath, urlPath)
      {
        assert baseUrlPath[..i + 1] == baseUrlPath[..i] + [baseUrlPath[i]];
        assert urlPath[..i + 1] == urlPath[..i] + [urlPath[i]];
        if urlPath[i] == '/' {
          sharedBaseIndex := i;
        }
        i := i + 1;
      }
    }

    /** One turn of `flatten`'s loop over scopes, with its loop over the scope's bindings. */
    method FlattenOne(scopes: Scopes, scope: string) returns (r: Stopped<Scopes>)
      ensures r == FlattenScope(ops.urls, baseUrl, fixed, scopes, scope)
    {
      var scopeUrl := ops.urls.parse(scope, baseUrl.href);
      if scopeUrl.None? {
        return Stopped(scopes, Some(PlainError("Invalid URL")));
      }
      var scopeBaseUrl := HoistBase(scopeUrl.value, baseUrl);
      if scopeBaseUrl.None? || (fixed && scopeBaseUrl.value == scope) {
        return Stopped(scopes, None);
      }
      var scopeImports := Get(scopes, scope);
      if scopeImports.None? {
        return Stopped(scopes, Some(PlainError("Cannot convert undefined or null to object")));
      }
      var own := scopeImports.value;
      var c := ScopeCtx(ops.urls, baseUrl, fixed, scope, scopeBaseUrl.value, scopeBaseUrl.value == scope);
      var h := Start(c, scopes, own);
      var j := 0;
      while j < |own|
        invariant 0 <= j <= |own|
        invariant HoistAll(c, Start(c, scopes, own), own[..j]) == Stopped(h, None)
      {
        HoistAllStep(c, Start(c, scopes, own), own, j);
        var step := HoistName(c, h, own[j].0, own[j].1);
        if step.Err? {
          HoistAllStops(c, Start(c, scopes, own), own, j + 1);
          return FinishScope(c, Stopped(h, Some(step.error)));
        }
        h := step.value;
        j := j + 1;
      }
      assert own[..j] == own;
      r := FinishScope(c, Stopped(h, None));
    }

    /** The loop of lines 188-217 over the scope keys taken before it starts. */
    method FlattenScopesIn(scopes: Scopes) returns (r: Stopped<Scopes>)
      ensures r == FlattenScopes(ops.urls, baseUrl, fixed, scopes, Keys(scopes))
    {
      var keys := Keys(scopes);
      var current := scopes;
      var i := 0;
      while i < |keys|
        invariant 0 <= i <= |keys|
        invariant FlattenScopes(ops.urls, baseUrl, fixed, scopes, keys[..i]) == Stopped(current, None)
      {
        var next := FlattenOne(current, keys[i]);
        FlattenScopesStep(ops.urls, baseUrl, fixed, scopes, keys, i, current);
        if next.error.Some? {
          FlattenScopesStops(ops.urls, baseUrl, fixed, scopes, keys, i + 1);
          return next;
        }
        current := next.state;
        i := i + 1;
      }
      assert keys[..i] == keys;
      r := Stopped(current, None);
    }

    /** The loop of lines 218-221 over the depcache. */
    static method DropEmptyIn(depcache: Dict<seq<string>>) returns (kept: Dict<seq<string>>)
      ensures kept == DropEmpty(depcache)
    {
      kept := [];
      var j := 0;
      while j < |depcache|
        invariant 0 <= j <= |depcache|
        invariant kept == DropEmpty(depcache[..j])
      {
        assert depcache[..j + 1][..j] == depcache[..j];
        if |depcache[j].1| > 0 {
          kept := kept + [depcache[j]];
        }
        j := j + 1;
      }
      assert depcache[..j] == depcache;
    }

    /** `flatten()`; an error it throws comes back with the scopes as far as they got. */
    method Flatten() returns (error: Option<Error>)
      modifies this`importMap
      ensures Stopped(importMap, error) == Flattened(ops.urls, baseUrl, fixed, old(importMap))
    {
      var scopes := FlattenScopesIn(importMap.scopes);
      importMap := importMap.(scopes := scopes.state);
      if scopes.error.Some? {
        return scopes.error;
      }
      var depcache := DropEmptyIn(importMap.depcache);
      importMap := importMap.(depcache := depcache);
      error := None;
    }

    /** `resolve(specifier, parentUrl)` against this map and base URL. */
    method Resolve(specifier: string, parentUrl: Url) returns (r: Result<Option<Url>>)
      ensures r == Resolved(ops, specifier, parentUrl, importMap, baseUrl)
    {
      r := ResolveInMap(ops, specifier, parentUrl, importMap, baseUrl);
    }

    /** The checks and deletions `upgrade` and `uninstall` share. */
    method RemoveImports(packages: seq<string>, verb: string, none: string) returns (error: Option<Error>)
      modifies this`importMap
      ensures importMap == old(importMap).(imports := importMap.imports)
      ensures Stopped(importMap.imports, error) == Removal(old(importMap.imports), packages, verb, none)
    {
      if |packages| == 0 {
        return Some(PlainError(none));
      }
      ghost var imports0 := importMap.imports;
      var i := 0;
      while i < |packages|
        invariant 0 <= i <= |packages|
        invariant importMap == old(importMap).(imports := importMap.imports)
        invariant RemoveTopLevel(imports0, packages[..i], verb) == Stopped(importMap.imports, None)
      {
        assert packages[..i + 1][..i] == packages[..i];
        var pkg := packages[i];
        if !TruthyBinding(Get(importMap.imports, pkg)) {
          RemoveTopLevelStops(imports0, packages, verb, i + 1);
          return Some(PlainError("Cannot " + verb + " package " + pkg + " as it is not a top-level \"imports\" entry."));
        }
        importMap := importMap.(imports := Delete(importMap.imports, pkg));
        i := i + 1;
      }
      assert packages[..i] == packages;
      error := None;
    }

    /**
     * `upgrade(packages)` up to the install it starts: without a list,
     * every top-level import is upgraded.
     */
    method Upgrade(packages: Option<seq<string>>) returns (error: Option<Error>)
      modifies this`importMap
      ensures importMap == old(importMap).(imports := importMap.imports)
      ensures Stopped(importMap.imports, error)
        == Removal(old(importMap.imports), packages.UnwrapOr(Keys(old(importMap.imports))), "upgrade", "No packages to upgrade.")
    {
      var pkgs := if packages.Some? then packages.value else Keys(importMap.imports);
      error := RemoveImports(pkgs, "upgrade", "No packages to upgrade.");
    }

    /** `uninstall(packages)` up to the install it starts. */
    method Uninstall(packages: seq<string>) returns (error: Option<Error>)
      modifies this`importMap
      ensures importMap == old(importMap).(imports := importMap.imports)
      ensures Stopped(importMap.imports, error) == Removal(old(importMap.imports), packages, "uninstall", "No packages provided to uninstall.")
    {
      error := RemoveImports(packages, "uninstall", "No packages provided to uninstall.");
    }
  }

  /**
   * As written, two maps built without a text share the default style
   * object: once the first prints minified, the second, asked for its
   * normal output, prints minified too, and the default stays minified.
   */
  method MinifySharedAsWritten(ops: ResolveOps, baseUrl: Url, defaults: StyleObject, stringify: (Sections, string) -> string)
    returns (second: string)
    modifies defaults
    ensures defaults.style == Minified(old(defaults.style))
    ensures second == StringifyStyled(Shown(EmptyMap), Minified(old(defaults.style)), stringify)
  {
    var first := new TraceMap(ops, baseUrl, None, None, defaults, None, false);
    var other := new TraceMap(ops, baseUrl, None, None, defaults, None, false);
    var minified := first.ToString(true, stringify);
    second := other.ToString(false, stringify);
  }

  /**
   * Corrected, minifying one map's output leaves the shared default, and
   * so the other map's output, as they were.
   */
  method MinifySharedCorrected(ops: ResolveOps, baseUrl: Url, defaults: StyleObject, stringify: (Sections, string) -> string)
    returns (second: string)
    modifies defaults
    ensures defaults.style == old(defaults.style)
    ensures second == StringifyStyled(Shown(EmptyMap), old(defaults.style), stringify)
  {
    var first := new TraceMap(ops, baseUrl, None, None, defaults, None, true);
    var other := new TraceMap(ops, baseUrl, None, None, defaults, None, true);
    var minified := first.ToString(true, stringify);
    second := other.ToString(false, stringify);
  }
}
