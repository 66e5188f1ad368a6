/**
 * `TraceMap.trace` of src/tracemap.ts: from entry specifiers, every
 * module reached through static imports is resolved against the import
 * map, recorded and analysed once, and numbered in post-order; dynamic
 * imports of that static graph are traced afterwards, one at a time, and
 * their modules join the trace without replacing any entry already there.
 *
 * Analysis (`analyze` of src/installtree.ts, which is not part of this
 * model) is a function parameter. The recursion carries a `fuel` bound.
 */
module ImportMapTrace {
  import opened Wrappers
  import opened Manifest
  import opened Urls
  import opened ImportMaps

  /** What `analyze(href, parentUrl, system)` reports for a module. */
  datatype Analysis = Analysis(deps: seq<string>, dynamicDeps: seq<string>, size: int, integrity: string)

  /**
   * A traced module: what its static and dynamic import specifiers
   * resolved to, whether only dynamic imports reach it, and its size,
   * post-order index and integrity (`size` and `order` are `None` while
   * still `NaN`).
   */
  datatype Entry = Entry(deps: Imports, dynamicDeps: Imports, dynamicOnly: bool, size: Option<int>, order: Option<nat>, integrity: string)

  /** The record `doTrace` writes a resolution into (`curMap`): the result map, or an entry's `deps` or `dynamicDeps`. */
  datatype Slot = TopMap | DepsOf(href: string) | DynamicDepsOf(href: string)

  /** Modules by URL, as `staticTrace` and each `dynTrace` hold them (the order of keys is not modelled). */
  type Traced = map<string, Entry>

  predicate Distinct(s: seq<string>)
  {
    forall i, j :: 0 <= i < j < |s| ==> s[i] != s[j]
  }

  /** A sequence without repeats has as many members as elements. */
  lemma {:induction false} DistinctCard(s: seq<string>)
    requires Distinct(s)
    ensures |set x | x in s| == |s|
  {
    if |s| > 0 {
      var init := s[..|s| - 1];
      assert Distinct(init);
      DistinctCard(init);
      assert (set x | x in s) == (set x | x in init) + {s[|s| - 1]};
      assert s[|s| - 1] !in init;
    }
  }

  /** No two numbered modules share an index. */
  ghost predicate Unique(t: Traced)
  {
    forall k1, k2 :: k1 in t && k2 in t && k1 != k2 && t[k1].order.Some? ==> t[k1].order != t[k2].order
  }

  /** Entries that were traced stay traced with their post-order index. */
  ghost predicate Retained(t0: Traced, t1: Traced)
  {
    forall k :: k in t0 ==> k in t1 && t1[k].order == t0[k].order
  }

  lemma RetainedTrans(t0: Traced, t1: Traced, t2: Traced)
    requires Retained(t0, t1) && Retained(t1, t2)
    ensures Retained(t0, t2)
  {
  }

  lemma RetainedLess(t0: Traced, t1: Traced, k: string)
    requires Retained(t0, t1)
    ensures Retained(t0 - {k}, t1)
  {
  }

  /** Writing a key keeps the keys there were, in order, and the key is there after. */
  lemma PutKeys<V>(t: Dict<V>, k: string, v: V)
    ensures Keys(t) <= Keys(Put(t, k, v)) && k in Keys(Put(t, k, v))
  {
    var r := Put(t, k, v);
    assert Keys(t) == Keys(r)[..|t|];
    GetPut(t, k, v, k);
    GetFinds(r, k);
    var i :| 0 <= i < |r| && r[i] == (k, v);
    assert Keys(r)[i] == k;
  }

  /** What a sequence holds, a sequence it begins holds too. */
  lemma PrefixKeeps(a: seq<string>, b: seq<string>)
    requires a <= b
    ensures forall x :: x in a ==> x in b
  {
    forall x | x in a ensures x in b {
      var i :| 0 <= i < |a| && a[i] == x;
      assert b[i] == x;
    }
  }

  /** The depcache "backbone" of lines 257-266: the parent lists the specifier, once, after what it listed. */
  function AddDepcache(depcache: Dict<seq<string>>, parentHref: string, specifier: string): (r: Dict<seq<string>>)
    ensures Get(r, parentHref).Some? && specifier in Get(r, parentHref).value
    ensures Get(depcache, parentHref).Some? ==> Get(depcache, parentHref).value <= Get(r, parentHref).value
    ensures Get(depcache, parentHref).Some? && specifier in Get(depcache, parentHref).value ==> r == depcache
    ensures Get(depcache, parentHref).Some? && specifier !in Get(depcache, parentHref).value ==>
      Get(r, parentHref).value == Get(depcache, parentHref).value + [specifier]
    ensures Get(depcache, parentHref).None? ==> Get(r, parentHref).value == [specifier]
    ensures forall k :: k != parentHref ==> Get(r, k) == Get(depcache, k)
  {
    var existing := Get(depcache, parentHref);
    if existing.Some? && specifier in existing.value then
      depcache
    else
      var listed := if existing.Some? then existing.value + [specifier] else [specifier];
      PutLookups(depcache, parentHref, listed);
      Put(depcache, parentHref, listed)
  }

  /** Lookups after writing one key: that key finds the new value, any other what it found before. */
  lemma PutLookups<V>(t: Dict<V>, k: string, v: V)
    ensures forall k2 :: Get(Put(t, k, v), k2) == if k2 == k then Some(v) else Get(t, k2)
  {
    forall k2 ensures Get(Put(t, k, v), k2) == if k2 == k then Some(v) else Get(t, k2) {
      GetPut(t, k, v, k2);
    }
  }

  lemma DistinctAppend(s: seq<string>, x: string)
    requires Distinct(s) && x !in s
    ensures Distinct(s + [x])
  {
    var s2 := s + [x];
    forall i, j | 0 <= i < j < |s2| ensures s2[i] != s2[j] {
      if j == |s| {
        assert s2[i] == s[i];
      }
    }
  }

  /**
   * How the module `k`'s entry `e` stands: pending without an index, or
   * numbered with the index under which `numbered` (the modules in the
   * order they were numbered) lists it.
   */
  ghost predicate Placed(e: Entry, k: string, pending: set<string>, numbered: seq<string>)
  {
    if e.order.None? then k in pending
    else k !in pending && e.order.value < |numbered| && numbered[e.order.value] == k
  }

  /**
   * The invariant of a trace in progress, over the static trace `s`, the
   * dynamic one `d`, the modules analysed, the pending ones, the modules
   * numbered so far and the counter `n`: the two traces share no module;
   * every module analysed is traced, and none twice; a traced module is
   * either pending or numbered; the counter is the number of modules
   * numbered, and the number of modules analysed and not pending.
   */
  ghost predicate Inv(s: Traced, d: Traced, analysed: seq<string>, pending: set<string>, numbered: seq<string>, n: nat)
  {
    && s.Keys !! d.Keys
    && Distinct(analysed)
    && (forall x :: x in analysed <==> x in s || x in d)
    && (forall x :: x in pending ==> x in s || x in d)
    && n == |numbered|
    && |analysed| == |pending| + n
    && (forall k :: k in s ==> Placed(s[k], k, pending, numbered))
    && (forall k :: k in d ==> Placed(d[k], k, pending, numbered))
  }

  /** Rewriting an entry without changing its index keeps `Inv`. */
  lemma InvRewrite(s: Traced, d: Traced, analysed: seq<string>, pending: set<string>, numbered: seq<string>, n: nat, dynamic: bool, href: string, e: Entry)
    requires Inv(s, d, analysed, pending, numbered, n)
    requires href in (if dynamic then d else s) && e.order == (if dynamic then d else s)[href].order
    ensures dynamic ==> Inv(s, d[href := e], analysed, pending, numbered, n)
    ensures !dynamic ==> Inv(s[href := e], d, analysed, pending, numbered, n)
  {
  }

  /** Tracing a module in neither trace into the static trace, pending, keeps `Inv` once it is recorded as analysed. */
  lemma InvInsertStatic(s: Traced, d: Traced, analysed: seq<string>, pending: set<string>, numbered: seq<string>, n: nat, href: string, e: Entry)
    requires Inv(s, d, analysed, pending, numbered, n)
    requires href !in s && href !in d && e.order.None?
    ensures Inv(s[href := e], d, analysed + [href], pending + {href}, numbered, n)
  {
    InvInsertCounts(analysed, pending, href);
    InvInsertInto(s, s[href := e], d, analysed, pending, numbered, n, href, e);
  }

  /** Tracing a module in neither trace into the dynamic trace, pending, keeps `Inv` once it is recorded as analysed. */
  lemma InvInsertDynamic(s: Traced, d: Traced, analysed: seq<string>, pending: set<string>, numbered: seq<string>, n: nat, href: string, e: Entry)
    requires Inv(s, d, analysed, pending, numbered, n)
    requires href !in s && href !in d && e.order.None?
    ensures Inv(s, d[href := e], analysed + [href], pending + {href}, numbered, n)
  {
    InvInsertCounts(analysed, pending, href);
    InvInsertInto(d, d[href := e], s, analysed, pending, numbered, n, href, e);
  }

  /** A module new to `analysed` and `pending` adds one to both. */
  lemma InvInsertCounts(analysed: seq<string>, pending: set<string>, href: string)
    requires Distinct(analysed) && href !in analysed && href !in pending
    ensures Distinct(analysed + [href]) && |analysed + [href]| == |analysed| + 1 && |pending + {href}| == |pending| + 1
  {
    DistinctAppend(analysed, href);
  }

  /** The per-module part of `InvInsertStatic` and `InvInsertDynamic`, for the trace `t` that receives the module, becoming `t2`, and the other trace `o`. */
  lemma InvInsertInto(t: Traced, t2: Traced, o: Traced, analysed: seq<string>, pending: set<string>, numbered: seq<string>, n: nat, href: string, e: Entry)
    requires forall k :: k in t ==> Placed(t[k], k, pending, numbered)
    requires forall k :: k in o ==> Placed(o[k], k, pending, numbered)
    requires forall x :: x in analysed <==> x in t || x in o
    requires forall x :: x in pending ==> x in t || x in o
    requires t.Keys !! o.Keys && href !in t && href !in o && e.order.None? && t2 == t[href := e]
    ensures forall k :: k in t2 ==> Placed(t2[k], k, pending + {href}, numbered)
    ensures forall k :: k in o ==> Placed(o[k], k, pending + {href}, numbered)
    ensures forall x :: x in analysed + [href] <==> x in t2 || x in o
    ensures forall x :: x in pending + {href} ==> x in t2 || x in o
    ensures t2.Keys !! o.Keys
  {
    forall k | k in t2 ensures Placed(t2[k], k, pending + {href}, numbered) {
      if k != href {
        assert Placed(t[k], k, pending, numbered);
      }
    }
    forall k | k in o ensures Placed(o[k], k, pending + {href}, numbered) {
      assert Placed(o[k], k, pending, numbered);
    }
  }

  /** Numbering a pending module with the counter keeps `Inv` with the counter one up. */
  lemma InvFinish(s: Traced, d: Traced, analysed: seq<string>, pending: set<string>, numbered: seq<string>, n: nat, dynamic: bool, href: string)
    requires Inv(s, d, analysed, pending, numbered, n)
    requires href in (if dynamic then d else s) && href in pending
    ensures dynamic ==> Inv(s, d[href := d[href].(order := Some(n))], analysed, pending - {href}, numbered + [href], n + 1)
    ensures !dynamic ==> Inv(s[href := s[href].(order := Some(n))], d, analysed, pending - {href}, numbered + [href], n + 1)
  {
    var p2, m2 := pending - {href}, numbered + [href];
    assert |p2| == |pending| - 1;
    forall k | k in s && k != href ensures Placed(s[k], k, p2, m2) {
      assert Placed(s[k], k, pending, numbered);
    }
    forall k | k in d && k != href ensures Placed(d[k], k, p2, m2) {
      assert Placed(d[k], k, pending, numbered);
    }
  }

  /** Appending the dynamic trace to the static one keeps `Inv`. */
  lemma InvMerge(s: Traced, d: Traced, analysed: seq<string>, pending: set<string>, numbered: seq<string>, n: nat)
    requires Inv(s, d, analysed, pending, numbered, n)
    ensures Inv(s + d, map[], analysed, pending, numbered, n)
  {
    forall k | k in s + d ensures Placed((s + d)[k], k, pending, numbered) {
      if k in d {
        assert (s + d)[k] == d[k];
      } else {
        assert (s + d)[k] == s[k];
      }
    }
  }

  /**
   * A trace with no module pending numbers every module, each with an
   * index below the number of modules that no other module has.
   */
  lemma InvComplete(s: Traced, analysed: seq<string>, numbered: seq<string>, n: nat)
    requires Inv(s, map[], analysed, {}, numbered, n)
    ensures forall k :: k in s ==> s[k].order.Some? && s[k].order.value < |s|
    ensures Unique(s)
  {
    DistinctCard(analysed);
    assert (set x | x in analysed) == s.Keys;
    forall k | k in s ensures s[k].order.Some? && s[k].order.value < |s| {
      assert Placed(s[k], k, {}, numbered);
    }
    forall k1, k2 | k1 in s && k2 in s && k1 != k2 && s[k1].order.Some? ensures s[k1].order != s[k2].order {
      assert Placed(s[k1], k1, {}, numbered) && Placed(s[k2], k2, {}, numbered);
    }
  }

  /**
   * Lines 302-305: every module of `d` that `s` lacks is copied into `s`;
   * a module both hold keeps its entry in `s`.
   */
  method AddMissing(s: Traced, d: Traced) returns (r: Traced)
    ensures r == d + s
  {
    r := s;
    var rest := d.Keys;
    while rest != {}
      invariant rest <= d.Keys
      invariant r.Keys == s.Keys + (d.Keys - rest)
      invariant forall k :: k in r ==> r[k] == (d + s)[k]
      decreases rest
    {
      var m :| m in rest;
      if m !in r {
        r := r[m := d[m]];
      }
      rest := rest - {m};
    }
    assert r.Keys == (d + s).Keys;
  }

  /** For traces that share no module, the order of a union does not matter. */
  lemma DisjointUnion(s: Traced, d: Traced)
    requires s.Keys !! d.Keys
    ensures d + s == s + d
  {
    assert (d + s).Keys == (s + d).Keys;
    forall k | k in s + d ensures (d + s)[k] == (s + d)[k] {
      if k in d {
        assert k !in s;
      }
    }
  }

  /**
   * Resolving `specifier` from the importer `parent` against the map gives
   * `target`: the resolved URL's href, or `null`.
   */
  ghost predicate ResolvedFrom(ops: ResolveOps, view: ImportMap, baseUrl: Url, specifier: string, parent: Url, target: Option<string>)
  {
    var r := Resolved(ops, specifier, parent, view, baseUrl);
    r.Ok? && target == (if r.value.Some? then Some(r.value.value.href) else None)
  }

  /** Resolving `specifier` from some importer gives `target`. */
  ghost predicate ResolvedSomewhere(ops: ResolveOps, view: ImportMap, baseUrl: Url, specifier: string, target: Option<string>)
  {
    exists p :: ResolvedFrom(ops, view, baseUrl, specifier, p, target)
  }

  /** Resolving `specifier` from the module at `href` gives `target`. */
  ghost predicate ResolvedFromHref(ops: ResolveOps, view: ImportMap, baseUrl: Url, specifier: string, href: string, target: Option<string>)
  {
    exists u: Url :: u.href == href && ResolvedFrom(ops, view, baseUrl, specifier, u, target)
  }

  /** Every binding of the result map is what its specifier resolves to from some importer. */
  ghost predicate MapResolved(ops: ResolveOps, view: ImportMap, baseUrl: Url, m: Imports)
  {
    forall i {:trigger ResolvedSomewhere(ops, view, baseUrl, m[i].0, m[i].1)} :: 0 <= i < |m| ==> ResolvedSomewhere(ops, view, baseUrl, m[i].0, m[i].1)
  }

  /** Every dependency a module `k` records is what its specifier resolves to from `k`. */
  ghost predicate EntryResolved(ops: ResolveOps, view: ImportMap, baseUrl: Url, k: string, e: Entry)
  {
    && (forall i :: 0 <= i < |e.deps| ==> ResolvedFromHref(ops, view, baseUrl, e.deps[i].0, k, e.deps[i].1))
    && (forall i :: 0 <= i < |e.dynamicDeps| ==> ResolvedFromHref(ops, view, baseUrl, e.dynamicDeps[i].0, k, e.dynamicDeps[i].1))
  }

  ghost predicate TraceResolved(ops: ResolveOps, view: ImportMap, baseUrl: Url, t: Traced)
  {
    forall k {:trigger EntryResolved(ops, view, baseUrl, k, t[k])} :: k in t ==> EntryResolved(ops, view, baseUrl, k, t[k])
  }

  /** Writing a key leaves every other entry as it was, so each entry is the new one or an old one. */
  lemma PutEntries<V>(d: Dict<V>, k: string, v: V)
    ensures forall i :: 0 <= i < |Put(d, k, v)| ==> Put(d, k, v)[i] == (k, v) || (i < |d| && Put(d, k, v)[i] == d[i])
  {
  }

  /** Recording one more resolution keeps the result map resolved. */
  lemma MapResolvedPut(ops: ResolveOps, view: ImportMap, baseUrl: Url, m: Imports, specifier: string, parent: Url, target: Option<string>)
    requires MapResolved(ops, view, baseUrl, m) && ResolvedFrom(ops, view, baseUrl, specifier, parent, target)
    ensures MapResolved(ops, view, baseUrl, Put(m, specifier, target))
  {
    var r := Put(m, specifier, target);
    PutEntries(m, specifier, target);
    forall i | 0 <= i < |r| ensures ResolvedSomewhere(ops, view, baseUrl, r[i].0, r[i].1) {
      if r[i] != (specifier, target) {
        assert ResolvedSomewhere(ops, view, baseUrl, m[i].0, m[i].1);
      }
    }
  }

  /** Recording a resolution from the module itself keeps its entry resolved. */
  lemma EntryResolvedPut(ops: ResolveOps, view: ImportMap, baseUrl: Url, k: string, e: Entry, dynamic: bool, specifier: string, parent: Url, target: Option<string>)
    requires EntryResolved(ops, view, baseUrl, k, e) && parent.href == k
    requires ResolvedFrom(ops, view, baseUrl, specifier, parent, target)
    ensures !dynamic ==> EntryResolved(ops, view, baseUrl, k, e.(deps := Put(e.deps, specifier, target)))
    ensures dynamic ==> EntryResolved(ops, view, baseUrl, k, e.(dynamicDeps := Put(e.dynamicDeps, specifier, target)))
  {
    PutEntries(e.deps, specifier, target);
    PutEntries(e.dynamicDeps, specifier, target);
    assert ResolvedFromHref(ops, view, baseUrl, specifier, k, target);
  }

  /** Only the recorded dependencies matter. */
  lemma EntryResolvedSameDeps(ops: ResolveOps, view: ImportMap, baseUrl: Url, k: string, e: Entry, e2: Entry)
    requires EntryResolved(ops, view, baseUrl, k, e) && e2.deps == e.deps && e2.dynamicDeps == e.dynamicDeps
    ensures EntryResolved(ops, view, baseUrl, k, e2)
  {
  }

  /** Writing a resolved entry keeps a trace resolved. */
  lemma TraceResolvedWrite(ops: ResolveOps, view: ImportMap, baseUrl: Url, t: Traced, k: string, e: Entry)
    requires TraceResolved(ops, view, baseUrl, t) && EntryResolved(ops, view, baseUrl, k, e)
    ensures TraceResolved(ops, view, baseUrl, t[k := e])
  {
    forall k2 | k2 in t && k2 != k ensures EntryResolved(ops, view, baseUrl, k2, t[k := e][k2]) {
      assert t[k := e][k2] == t[k2];
    }
  }

  /** Traces that resolve their dependencies keep doing so when joined. */
  lemma TraceResolvedUnion(ops: ResolveOps, view: ImportMap, baseUrl: Url, s: Traced, d: Traced)
    requires TraceResolved(ops, view, baseUrl, s) && TraceResolved(ops, view, baseUrl, d)
    ensures TraceResolved(ops, view, baseUrl, s + d)
  {
    forall k | k in s + d ensures EntryResolved(ops, view, baseUrl, k, (s + d)[k]) {
      if k in d {
        assert (s + d)[k] == d[k];
      } else {
        assert (s + d)[k] == s[k];
      }
    }
  }

  /**
   * The state of one `trace` call: the closure's `staticTrace`, the
   * current dynamic trace, the result `map`, the deferred `dynamics`, the
   * `postOrder` counter and the map's depcache; `analysed` (the modules
   * handed to `analyze`, in order), `pending` (the traced modules not yet
   * numbered) and `numbered` (the modules numbered, in order) are
   * bookkeeping of the model.
   */
  class Tracing {
    const ops: ResolveOps
    const baseUrl: Url
    const view: ImportMap
    const analyze: (string, string, bool) -> Result<Analysis>
    const system: bool
    const doDepcache: bool
    var staticTrace: Traced
    var dynTrace: Traced
    var topMap: Imports
    var dynamics: seq<(string, Url)>
    var postOrder: nat
    var depcache: Dict<seq<string>>
    ghost var analysed: seq<string>
    ghost var pending: set<string>
    ghost var numbered: seq<string>

    /** The tracing state keeps `Inv`, and every binding it wrote is a resolution. */
    ghost predicate Valid()
      reads this
    {
      && Inv(staticTrace, dynTrace, analysed, pending, numbered, postOrder)
      && Resolving(topMap, staticTrace, dynTrace)
    }

    /** Every binding written so far is a resolution. */
    ghost predicate Resolving(m: Imports, s: Traced, d: Traced)
    {
      && MapResolved(ops, view, baseUrl, m)
      && TraceResolved(ops, view, baseUrl, s)
      && TraceResolved(ops, view, baseUrl, d)
    }

    /** The trace `doTrace` writes into: `dynTrace` for a dynamic trace, `staticTrace` otherwise. */
    function Cur(dynamic: bool): Traced
      reads this
    {
      if dynamic then dynTrace else staticTrace
    }

    constructor(ops: ResolveOps, baseUrl: Url, view: ImportMap, analyze: (string, string, bool) -> Result<Analysis>, system: bool, doDepcache: bool)
      ensures Valid() && staticTrace == map[] && dynTrace == map[] && topMap == [] && dynamics == [] && postOrder == 0
      ensures analysed == [] && pending == {}
      ensures this.ops == ops && this.baseUrl == baseUrl && this.view == view && this.analyze == analyze
      ensures this.system == system && this.doDepcache == doDepcache && depcache == view.depcache
    {
      this.ops := ops;
      this.baseUrl := baseUrl;
      this.view := view;
      this.analyze := analyze;
      this.system := system;
      this.doDepcache := doDepcache;
      staticTrace := map[];
      dynTrace := map[];
      topMap := [];
      dynamics := [];
      postOrder := 0;
      depcache := view.depcache;
      analysed := [];
      pending := {};
      numbered := [];
    }

    /** Rewrites a traced entry, keeping its index. */
    method Update(dynamic: bool, href: string, e: Entry)
      requires Valid() && href in Cur(dynamic) && e.order == Cur(dynamic)[href].order
      requires EntryResolved(ops, view, baseUrl, href, e)
      modifies this`staticTrace, this`dynTrace
      ensures Valid() && Cur(dynamic) == old(Cur(dynamic))[href := e] && (if dynamic then staticTrace == old(staticTrace) else dynTrace == old(dynTrace))
    {
      InvRewrite(staticTrace, dynTrace, analysed, pending, numbered, postOrder, dynamic, href, e);
      TraceResolvedWrite(ops, view, baseUrl, Cur(dynamic), href, e);
      if dynamic {
        dynTrace := dynTrace[href := e];
      } else {
        staticTrace := staticTrace[href := e];
      }
    }

    /** `curMap[specifier] = resolved`. */
    method Record(slot: Slot, dynamic: bool, specifier: string, resolved: Option<string>, ghost parentUrl: Url)
      requires Valid() && (!slot.TopMap? ==> slot.href in Cur(dynamic) && slot.href == parentUrl.href)
      requires ResolvedFrom(ops, view, baseUrl, specifier, parentUrl, resolved)
      modifies this`staticTrace, this`dynTrace, this`topMap
      ensures Valid() && (if dynamic then staticTrace == old(staticTrace) else dynTrace == old(dynTrace)) && Retained(old(Cur(dynamic)), Cur(dynamic))
      ensures Cur(dynamic).Keys == old(Cur(dynamic)).Keys
      ensures slot.TopMap? ==> topMap == Put(old(topMap), specifier, resolved)
      ensures !slot.TopMap? ==> topMap == old(topMap)
    {
      match slot
      case TopMap =>
        MapResolvedPut(ops, view, baseUrl, topMap, specifier, parentUrl, resolved);
        topMap := Put(topMap, specifier, resolved);
      case DepsOf(h) =>
        var entry := Cur(dynamic)[h];
        EntryResolvedPut(ops, view, baseUrl, h, entry, false, specifier, parentUrl, resolved);
        Update(dynamic, h, entry.(deps := Put(entry.deps, specifier, resolved)));
      case DynamicDepsOf(h) =>
        var entry := Cur(dynamic)[h];
        EntryResolvedPut(ops, view, baseUrl, h, entry, true, specifier, parentUrl, resolved);
        Update(dynamic, h, entry.(dynamicDeps := Put(entry.dynamicDeps, specifier, resolved)));
    }

    /** `curEntry.integrity = integrity; curEntry.size = size` from a module's analysis. */
    method Analysed(dynamic: bool, href: string, a: Analysis)
      requires Valid() && href in Cur(dynamic)
      modifies this`staticTrace, this`dynTrace
      ensures Valid() && Cur(dynamic) == old(Cur(dynamic))[href := old(Cur(dynamic))[href].(integrity := a.integrity, size := Some(a.size))]
      ensures (if dynamic then staticTrace == old(staticTrace) else dynTrace == old(dynTrace))
    {
      var e := Cur(dynamic)[href].(integrity := a.integrity, size := Some(a.size));
      EntryResolvedSameDeps(ops, view, baseUrl, href, Cur(dynamic)[href], e);
      Update(dynamic, href, e);
    }

    /** `curTrace[href] = entry` for a module in neither trace, which is then analysed and pending. */
    method Insert(dynamic: bool, href: string, e: Entry)
      requires Valid() && e.order.None? && href !in staticTrace && href !in dynTrace
      requires EntryResolved(ops, view, baseUrl, href, e)
      modifies this`staticTrace, this`dynTrace, this`analysed, this`pending
      ensures Valid() && analysed == old(analysed) + [href] && pending == old(pending) + {href}
      ensures Cur(dynamic) == old(Cur(dynamic))[href := e] && (if dynamic then staticTrace == old(staticTrace) else dynTrace == old(dynTrace))
    {
      TraceResolvedWrite(ops, view, baseUrl, Cur(dynamic), href, e);
      if dynamic {
        InvInsertDynamic(staticTrace, dynTrace, analysed, pending, numbered, postOrder, href, e);
        dynTrace := dynTrace[href := e];
      } else {
        InvInsertStatic(staticTrace, dynTrace, analysed, pending, numbered, postOrder, href, e);
        staticTrace := staticTrace[href := e];
      }
      analysed := analysed + [href];
      pending := pending + {href};
    }

    /** `curEntry.order = postOrder++` for a pending module. */
    method Finish(dynamic: bool, href: string)
      requires Valid() && href in Cur(dynamic) && href in pending
      modifies this`staticTrace, this`dynTrace, this`postOrder, this`pending, this`numbered
      ensures Valid() && postOrder == old(postOrder) + 1 && pending == old(pending) - {href}
      ensures Cur(dynamic) == old(Cur(dynamic))[href := old(Cur(dynamic))[href].(order := Some(old(postOrder)))]
      ensures (if dynamic then staticTrace == old(staticTrace) else dynTrace == old(dynTrace))
    {
      var e := Cur(dynamic)[href].(order := Some(postOrder));
      InvFinish(staticTrace, dynTrace, analysed, pending, numbered, postOrder, dynamic, href);
      EntryResolvedSameDeps(ops, view, baseUrl, href, Cur(dynamic)[href], e);
      TraceResolvedWrite(ops, view, baseUrl, Cur(dynamic), href, e);
      if dynamic {
        dynTrace := dynTrace[href := e];
      } else {
        staticTrace := staticTrace[href := e];
      }
      pending := pending - {href};
      numbered := numbered + [href];
      postOrder := postOrder + 1;
    }

    /**
     * `doTrace(specifier, parentUrl, curTrace, curMap, dynamic)`. Entries
     * traced before keep their index; a call that returns normally
     * numbers every module it analysed.
     */
    method DoTrace(specifier: string, parentUrl: Url, slot: Slot, dynamic: bool, fuel: nat) returns (error: Option<Error>)
      requires Valid() && (dynamic || dynTrace == map[])
      requires !slot.TopMap? ==> slot.href in Cur(dynamic) && slot.href == parentUrl.href
      modifies this
      ensures Valid() && (dynamic || dynTrace == map[])
      ensures dynamic ==> staticTrace == old(staticTrace) && dynamics == old(dynamics)
      ensures !doDepcache ==> depcache == old(depcache)
      ensures error.None? ==> pending == old(pending)
      ensures Retained(old(Cur(dynamic)), Cur(dynamic))
      ensures Keys(old(topMap)) <= Keys(topMap)
      ensures slot.TopMap? && error.None? ==> specifier in Keys(topMap)
      ensures !slot.TopMap? ==> topMap == old(topMap)
      decreases fuel, 2
    {
      if fuel == 0 {
        return Some(Exhausted);
      }
      var resolved := ResolveInMap(ops, specifier, parentUrl, view, baseUrl);
      if resolved.Err? {
        return Some(resolved.error);
      }
      var target := if resolved.value.Some? then Some(resolved.value.value.href) else None;
      Record(slot, dynamic, specifier, target, parentUrl);
      PutKeys(old(topMap), specifier, target);
      if resolved.value.None? {
        return None;
      }
      var url := resolved.value.value;
      var href := url.href;
      if href in Cur(dynamic) || href in staticTrace {
        return None;
      }
      ghost var t2 := Cur(dynamic);
      error := Visit(specifier, parentUrl, url, dynamic, fuel);
      RetainedTrans(old(Cur(dynamic)), t2, Cur(dynamic));
    }

    /**
     * Lines 257-289 of `doTrace`, for a module `url` in neither trace: the
     * depcache backbone, a new pending entry, its analysis, its
     * dependencies, and its index.
     */
    method Visit(specifier: string, parentUrl: Url, url: Url, dynamic: bool, fuel: nat) returns (error: Option<Error>)
      requires Valid() && (dynamic || dynTrace == map[])
      requires url.href !in staticTrace && url.href !in dynTrace
      requires fuel > 0
      modifies this
      ensures Valid() && (dynamic || dynTrace == map[])
      ensures dynamic ==> staticTrace == old(staticTrace) && dynamics == old(dynamics)
      ensures !doDepcache ==> depcache == old(depcache)
      ensures error.None? ==> pending == old(pending)
      ensures Retained(old(Cur(dynamic)), Cur(dynamic))
      ensures topMap == old(topMap)
      decreases fuel, 1
    {
      var href := url.href;
      if doDepcache && dynamic {
        Backbone(parentUrl.href, specifier);
      }
      ghost var t0 := Cur(dynamic);
      Insert(dynamic, href, Entry([], [], dynamic, None, None, ""));
      ghost var t1 := Cur(dynamic);
      assert Retained(t0, t1);
      var analysis := analyze(href, parentUrl.href, system);
      if analysis.Err? {
        return Some(analysis.error);
      }
      Analysed(dynamic, href, analysis.value);
      ghost var t2 := Cur(dynamic);
      error := Descend(url, analysis.value, dynamic, fuel);
      assert Retained(t0, Cur(dynamic)) by {
        assert Retained(t0, t2 - {href});
      }
    }

    /** Lines 258-267 of `doTrace`: the parent lists the specifier in the depcache. */
    method Backbone(parentHref: string, specifier: string)
      modifies this`depcache
      ensures depcache == AddDepcache(old(depcache), parentHref, specifier)
    {
      depcache := AddDepcache(depcache, parentHref, specifier);
    }

    /** Lines 280-289 of `doTrace`: the dependencies of a pending module, then its index. */
    method Descend(url: Url, analysis: Analysis, dynamic: bool, fuel: nat) returns (error: Option<Error>)
      requires Valid() && (dynamic || dynTrace == map[])
      requires url.href in Cur(dynamic) && url.href in pending
      requires fuel > 0
      modifies this
      ensures Valid() && (dynamic || dynTrace == map[])
      ensures dynamic ==> staticTrace == old(staticTrace) && dynamics == old(dynamics)
      ensures !doDepcache ==> depcache == old(depcache)
      ensures error.None? ==> pending == old(pending) - {url.href}
      ensures Retained(old(Cur(dynamic)) - {url.href}, Cur(dynamic))
      ensures topMap == old(topMap)
      decreases fuel, 0
    {
      ghost var t0 := Cur(dynamic);
      error := TraceAllDeps(url, analysis, dynamic, fuel - 1);
      if error.Some? {
        RetainedLess(t0, Cur(dynamic), url.href);
        return;
      }
      ghost var t2 := Cur(dynamic);
      Finish(dynamic, url.href);
      assert Retained(t0 - {url.href}, Cur(dynamic)) by {
        assert Retained(t0, t2);
      }
    }

    /** Lines 280-288 of `doTrace`: the static dependencies of a pending module, then its dynamic ones. */
    method TraceAllDeps(url: Url, analysis: Analysis, dynamic: bool, fuel: nat) returns (error: Option<Error>)
      requires Valid() && (dynamic || dynTrace == map[])
      requires url.href in Cur(dynamic) && url.href in pending
      modifies this
      ensures Valid() && (dynamic || dynTrace == map[])
      ensures dynamic ==> staticTrace == old(staticTrace) && dynamics == old(dynamics)
      ensures !doDepcache ==> depcache == old(depcache)
      ensures error.None? ==> pending == old(pending)
      ensures Retained(old(Cur(dynamic)), Cur(dynamic))
      ensures url.href in Cur(dynamic) && url.href in pending
      ensures topMap == old(topMap)
      decreases fuel, 4
    {
      ghost var t0 := Cur(dynamic);
      error := TraceDeps(url, analysis.deps, dynamic, fuel);
      if error.Some? {
        return;
      }
      ghost var t1 := Cur(dynamic);
      error := TraceDynamicDeps(url, analysis.dynamicDeps, dynamic, fuel);
      RetainedTrans(t0, t1, Cur(dynamic));
    }

    /** Lines 281-282: each static dependency of an analysed module is traced into its `deps`. */
    method TraceDeps(url: Url, deps: seq<string>, dynamic: bool, fuel: nat) returns (error: Option<Error>)
      requires Valid() && (dynamic || dynTrace == map[])
      requires url.href in Cur(dynamic) && url.href in pending
      modifies this
      ensures Valid() && (dynamic || dynTrace == map[])
      ensures dynamic ==> staticTrace == old(staticTrace) && dynamics == old(dynamics)
      ensures !doDepcache ==> depcache == old(depcache)
      ensures error.None? ==> pending == old(pending)
      ensures Retained(old(Cur(dynamic)), Cur(dynamic))
      ensures url.href in Cur(dynamic) && url.href in pending
      ensures topMap == old(topMap)
      decreases fuel, 3
    {
      var i := 0;
      while i < |deps|
        invariant Valid() && (dynamic || dynTrace == map[])
        invariant dynamic ==> staticTrace == old(staticTrace) && dynamics == old(dynamics)
        invariant !doDepcache ==> depcache == old(depcache)
        invariant pending == old(pending) && url.href in Cur(dynamic)
        invariant Retained(old(Cur(dynamic)), Cur(dynamic))
        invariant topMap == old(topMap)
      {
        ghost var t := Cur(dynamic);
        error := DoTrace(deps[i], url, DepsOf(url.href), dynamic, fuel);
        RetainedTrans(old(Cur(dynamic)), t, Cur(dynamic));
        if error.Some? {
          return;
        }
        i := i + 1;
      }
      error := None;
    }

    /**
     * Lines 284-288: each dynamic import of an analysed module is traced
     * into its `dynamicDeps` in a dynamic trace, and deferred otherwise.
     */
    method TraceDynamicDeps(url: Url, dynamicDeps: seq<string>, dynamic: bool, fuel: nat) returns (error: Option<Error>)
      requires Valid() && (dynamic || dynTrace == map[])
      requires url.href in Cur(dynamic) && url.href in pending
      modifies this
      ensures Valid() && (dynamic || dynTrace == map[])
      ensures dynamic ==> staticTrace == old(staticTrace) && dynamics == old(dynamics)
      ensures !dynamic ==> staticTrace == old(staticTrace) && dynamics == old(dynamics) + seq(|dynamicDeps|, k requires 0 <= k < |dynamicDeps| => (dynamicDeps[k], url))
      ensures !doDepcache ==> depcache == old(depcache)
      ensures error.None? ==> pending == old(pending)
      ensures Retained(old(Cur(dynamic)), Cur(dynamic))
      ensures url.href in Cur(dynamic) && url.href in pending
      ensures topMap == old(topMap)
      decreases fuel, 3
    {
      if !dynamic {
        dynamics := dynamics + seq(|dynamicDeps|, k requires 0 <= k < |dynamicDeps| => (dynamicDeps[k], url));
        return None;
      }
      var j := 0;
      while j < |dynamicDeps|
        invariant Valid()
        invariant staticTrace == old(staticTrace) && dynamics == old(dynamics)
        invariant !doDepcache ==> depcache == old(depcache)
        invariant pending == old(pending) && url.href in Cur(dynamic)
        invariant Retained(old(Cur(dynamic)), Cur(dynamic))
        invariant topMap == old(topMap)
      {
        ghost var t := Cur(dynamic);
        error := DoTrace(dynamicDeps[j], url, DynamicDepsOf(url.href), true, fuel);
        RetainedTrans(old(Cur(dynamic)), t, Cur(dynamic));
        if error.Some? {
          return;
        }
        j := j + 1;
      }
      error := None;
    }

    /**
     * Lines 298-303 after a dynamic trace: its modules join the static
     * trace. None of them is in the static trace already (a dynamic trace
     * stops at any module the static trace holds), so the result is the
     * union of the two.
     */
    method Merge()
      requires Valid()
      modifies this`staticTrace, this`dynTrace
      ensures Valid() && dynTrace == map[]
      ensures staticTrace == old(staticTrace) + old(dynTrace)
    {
      InvMerge(staticTrace, dynTrace, analysed, pending, numbered, postOrder);
      TraceResolvedUnion(ops, view, baseUrl, staticTrace, dynTrace);
      staticTrace := AddMissing(staticTrace, dynTrace);
      DisjointUnion(old(staticTrace), dynTrace);
      dynTrace := map[];
    }

    /**
     * `trace(specifiers, system, doDepcache)` on fresh state: the static
     * graph first, then each deferred dynamic import in turn, merged into
     * the static trace after it. On success every traced module is
     * numbered, with an index below the number of modules that no other
     * module has, and every entry specifier is in the result map.
     */
    method Run(specifiers: seq<string>, fuel: nat) returns (error: Option<Error>)
      requires Valid() && staticTrace == map[] && dynTrace == map[] && topMap == [] && dynamics == [] && pending == {}
      modifies this
      ensures error.None? ==> Valid() && dynTrace == map[] && pending == {}
      ensures error.None? ==> forall k :: k in staticTrace ==> staticTrace[k].order.Some? && staticTrace[k].order.value < |staticTrace|
      ensures error.None? ==> Unique(staticTrace)
      ensures error.None? ==> forall s :: s in specifiers ==> s in Keys(topMap)
      ensures error.None? ==> MapResolved(ops, view, baseUrl, topMap) && TraceResolved(ops, view, baseUrl, staticTrace)
      ensures !doDepcache ==> depcache == old(depcache)
    {
      error := TraceSpecifiers(specifiers, fuel);
      if error.Some? {
        return;
      }
      error := TraceDynamics(specifiers, fuel);
      if error.Some? {
        return;
      }
      InvComplete(staticTrace, analysed, numbered, postOrder);
    }

    /** Lines 294-296: the static graph, traced from each specifier against the base URL. */
    method TraceSpecifiers(specifiers: seq<string>, fuel: nat) returns (error: Option<Error>)
      requires Valid() && dynTrace == map[] && pending == {}
      modifies this
      ensures error.None? ==> Valid() && dynTrace == map[] && pending == {}
      ensures error.None? ==> forall s :: s in specifiers ==> s in Keys(topMap)
      ensures !doDepcache ==> depcache == old(depcache)
    {
      var i := 0;
      while i < |specifiers|
        invariant i <= |specifiers|
        invariant Valid() && dynTrace == map[] && pending == {}
        invariant forall s :: s in specifiers[..i] ==> s in Keys(topMap)
        invariant !doDepcache ==> depcache == old(depcache)
      {
        ghost var m0 := topMap;
        error := DoTrace(specifiers[i], baseUrl, TopMap, false, fuel);
        if error.Some? {
          return;
        }
        PrefixKeeps(Keys(m0), Keys(topMap));
        assert specifiers[..i + 1] == specifiers[..i] + [specifiers[i]];
        i := i + 1;
      }
      assert specifiers[..i] == specifiers;
      error := None;
    }

    /**
     * Lines 298-305: each deferred dynamic import traced into a trace of its
     * own, whose new entries are then added to the static trace.
     */
    method TraceDynamics(specifiers: seq<string>, fuel: nat) returns (error: Option<Error>)
      requires Valid() && dynTrace == map[] && pending == {}
      requires forall s :: s in specifiers ==> s in Keys(topMap)
      modifies this
      ensures error.None? ==> Valid() && dynTrace == map[] && pending == {}
      ensures error.None? ==> forall s :: s in specifiers ==> s in Keys(topMap)
      ensures !doDepcache ==> depcache == old(depcache)
    {
      var j := 0;
      ghost var deferred := dynamics;
      while j < |dynamics|
        invariant j <= |dynamics| && dynamics == deferred
        invariant Valid() && dynTrace == map[] && pending == {}
        invariant forall s :: s in specifiers ==> s in Keys(topMap)
        invariant !doDepcache ==> depcache == old(depcache)
      {
        var (dep, parentUrl) := dynamics[j];
        ghost var m0 := topMap;
        error := DoTrace(dep, parentUrl, TopMap, true, fuel);
        if error.Some? {
          return;
        }
        PrefixKeeps(Keys(m0), Keys(topMap));
        Merge();
        j := j + 1;
      }
      error := None;
    }
  }

  /**
   * `TraceMap.trace`: traces against the map as it stands and writes the
   * depcache it grew back into the map (also when tracing fails, as the
   * source's in-place pushes persist). On success the result map holds
   * every entry specifier, and every traced module is numbered, the
   * numbers distinct and below the number of modules, so a permutation
   * of them; each binding of the result map and of every module's
   * dependencies is what its specifier resolves to.
   */
  method Trace(tm: TraceMap, specifiers: seq<string>, system: bool, doDepcache: bool, analyze: (string, string, bool) -> Result<Analysis>, fuel: nat)
      returns (r: Result<(Imports, Traced)>)
    modifies tm`importMap
    ensures tm.importMap == old(tm.importMap).(depcache := tm.importMap.depcache)
    ensures !doDepcache ==> tm.importMap == old(tm.importMap)
    ensures r.Ok? ==> forall k :: k in r.value.1 ==> r.value.1[k].order.Some? && r.value.1[k].order.value < |r.value.1|
    ensures r.Ok? ==> Unique(r.value.1)
    ensures r.Ok? ==> forall s :: s in specifiers ==> Get(r.value.0, s).Some?
    ensures r.Ok? ==> MapResolved(tm.ops, old(tm.importMap), tm.baseUrl, r.value.0)
    ensures r.Ok? ==> TraceResolved(tm.ops, old(tm.importMap), tm.baseUrl, r.value.1)
  {
    var t := new Tracing(tm.ops, tm.baseUrl, tm.importMap, analyze, system, doDepcache);
    var error := t.Run(specifiers, fuel);
    tm.importMap := tm.importMap.(depcache := t.depcache);
    if error.Some? {
      return Err(error.value);
    }
    forall s | s in specifiers ensures Get(t.topMap, s).Some? {
      GetFinds(t.topMap, s);
      var i :| 0 <= i < |t.topMap| && Keys(t.topMap)[i] == s;
      assert t.topMap[i].0 == s;
    }
    return Ok((t.topMap, t.staticTrace));
  }
}
