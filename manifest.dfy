/**
 * The package configuration (`package.json`) as the resolver, the
 * installer and the commands read it (the `PackageConfig` and
 * `ExportsTarget` types of src/install/package.ts), and JavaScript
 * objects as ordered dictionaries.
 */
module Manifest {
  import opened Wrappers

  /**
   * A JavaScript object's own keys with their values, in insertion order.
   * Objects built by `JSON.parse` or by assignment have distinct keys.
   */
  type Dict<V> = seq<(string, V)>

  predicate DistinctKeys<V>(d: Dict<V>)
  {
    forall i, j :: 0 <= i < j < |d| ==> d[i].0 != d[j].0
  }

  /** `d[key]`: the value under `key`, if any. */
  function Get<V>(d: Dict<V>, key: string): Option<V>
  {
    if |d| == 0 then None
    else if d[0].0 == key then Some(d[0].1)
    else Get(d[1..], key)
  }

  /** `Get` finds a binding exactly when the key is bound, and returns its value. */
  lemma {:induction false} GetFinds<V>(d: Dict<V>, key: string)
    ensures Get(d, key).None? <==> forall i :: 0 <= i < |d| ==> d[i].0 != key
    ensures Get(d, key).Some? ==> exists i :: 0 <= i < |d| && d[i] == (key, Get(d, key).value)
  {
    if |d| > 0 && d[0].0 != key {
      GetFinds(d[1..], key);
      if Get(d, key).Some? {
        var i :| 0 <= i < |d[1..]| && d[1..][i] == (key, Get(d, key).value);
        assert d[i + 1] == (key, Get(d, key).value);
      }
    }
  }

  /** `d[key] = value`: an existing key keeps its position, a new one goes last. */
  function Put<V>(d: Dict<V>, key: string, value: V): (r: Dict<V>)
    ensures |r| == |d| || |r| == |d| + 1
    ensures forall i :: 0 <= i < |d| ==> r[i] == (if d[i].0 == key then (key, value) else d[i])
    ensures (exists i :: 0 <= i < |d| && d[i].0 == key) ==> |r| == |d|
    ensures (forall i :: 0 <= i < |d| ==> d[i].0 != key) ==> r == d + [(key, value)]
  {
    if |d| == 0 then [(key, value)]
    else if d[0].0 == key then [(key, value)] + Overwrite(d[1..], key, value)
    else [d[0]] + Put(d[1..], key, value)
  }

  /** Every entry under `key` takes `value`; nothing is added. */
  function Overwrite<V>(d: Dict<V>, key: string, value: V): (r: Dict<V>)
    ensures |r| == |d|
    ensures forall i :: 0 <= i < |d| ==> r[i] == (if d[i].0 == key then (key, value) else d[i])
  {
    if |d| == 0 then [] else [if d[0].0 == key then (key, value) else d[0]] + Overwrite(d[1..], key, value)
  }

  /** The keys in order. */
  function Keys<V>(d: Dict<V>): (r: seq<string>)
    ensures |r| == |d| && forall i :: 0 <= i < |d| ==> r[i] == d[i].0
  {
    if |d| == 0 then [] else [d[0].0] + Keys(d[1..])
  }

  /** The values in order. */
  function Values<V>(d: Dict<V>): (r: seq<V>)
    ensures |r| == |d| && forall i :: 0 <= i < |d| ==> r[i] == d[i].1
  {
    if |d| == 0 then [] else [d[0].1] + Values(d[1..])
  }

  /** Overwriting leaves every other key's value alone. */
  lemma {:induction false} GetOverwrite<V>(d: Dict<V>, key: string, value: V, other: string)
    requires other != key
    ensures Get(Overwrite(d, key, value), other) == Get(d, other)
  {
    if |d| > 0 {
      var r := Overwrite(d, key, value);
      assert r[1..] == Overwrite(d[1..], key, value);
      GetOverwrite(d[1..], key, value, other);
    }
  }

  /** Reading after writing sees the written value; every other key reads as before. */
  lemma {:induction false} GetPut<V>(d: Dict<V>, key: string, value: V, other: string)
    ensures Get(Put(d, key, value), other) == if other == key then Some(value) else Get(d, other)
  {
    var r := Put(d, key, value);
    if |d| == 0 {
    } else if d[0].0 == key {
      assert r[1..] == Overwrite(d[1..], key, value);
      if other != key {
        GetOverwrite(d[1..], key, value, other);
      }
    } else {
      assert r[1..] == Put(d[1..], key, value);
      GetPut(d[1..], key, value, other);
    }
  }

  /** Writing keeps the keys distinct. */
  lemma {:induction false} PutDistinct<V>(d: Dict<V>, key: string, value: V)
    requires DistinctKeys(d)
    ensures DistinctKeys(Put(d, key, value))
  {
    var r := Put(d, key, value);
    if forall i :: 0 <= i < |d| ==> d[i].0 != key {
      assert r == d + [(key, value)];
    } else {
      assert |r| == |d|;
      forall i, j | 0 <= i < j < |r| ensures r[i].0 != r[j].0 {
        assert r[i].0 == d[i].0 && r[j].0 == d[j].0;
      }
    }
  }

  /**
   * The value the last binding of `key` gives it: what a sequence of
   * assignments `d[0]`, `d[1]`, ... leaves under `key`.
   */
  function Latest<V>(d: Dict<V>, key: string): (r: Option<V>)
    ensures r.None? <==> forall i :: 0 <= i < |d| ==> d[i].0 != key
  {
    if |d| == 0 then None
    else if d[|d| - 1].0 == key then Some(d[|d| - 1].1)
    else Latest(d[..|d| - 1], key)
  }

  /** One more assignment decides its own key and leaves the others alone. */
  lemma LatestAppend<V>(d: Dict<V>, key: string, value: V, other: string)
    ensures Latest(d + [(key, value)], other) == if other == key then Some(value) else Latest(d, other)
  {
    assert (d + [(key, value)])[..|d|] == d;
  }

  /** Without repeated keys the last binding is the only one, so it is what `Get` finds. */
  lemma {:induction false} LatestIsGet<V>(d: Dict<V>, key: string)
    requires DistinctKeys(d)
    ensures Latest(d, key) == Get(d, key)
  {
    if |d| > 0 {
      var init := d[..|d| - 1];
      assert DistinctKeys(init);
      LatestIsGet(init, key);
      GetAppend(init, d[|d| - 1], key);
      assert init + [d[|d| - 1]] == d;
      if d[|d| - 1].0 == key {
        assert forall i :: 0 <= i < |init| ==> init[i].0 != key by {
          forall i | 0 <= i < |init| ensures init[i].0 != key {
            assert d[i].0 != d[|d| - 1].0;
          }
        }
      }
    }
  }

  lemma {:induction false} GetAppend<V>(d: Dict<V>, last: (string, V), key: string)
    ensures Get(d + [last], key) == if Get(d, key).Some? then Get(d, key) else if last.0 == key then Some(last.1) else None
  {
    if |d| > 0 {
      assert (d + [last])[1..] == d[1..] + [last];
      GetAppend(d[1..], last, key);
    }
  }

  /** `ExportsTarget`: a string, `null`, a condition object or a fallback array. */
  datatype ExportsTarget =
    | Str(s: string)
    | Null
    | Obj(entries: Dict<ExportsTarget>)
    | Arr(items: seq<ExportsTarget>)

  /** JavaScript truthiness of an exports value: the empty string and `null` are falsy. */
  predicate Truthy(t: ExportsTarget)
  {
    match t
    case Str(s) => s != ""
    case Null => false
    case _ => true
  }

  /** `browser`: a replacement main path, or a map of file replacements. */
  datatype BrowserField = BrowserPath(path: string) | BrowserMap(replacements: Dict<string>)

  /**
   * `PackageConfig`. `None` is an absent field; an absent dependency
   * object is empty.
   */
  datatype PackageConfig = PackageConfig(
    name: Option<string>,
    version: Option<string>,
    main: Option<string>,
    browser: Option<BrowserField>,
    exports: Option<ExportsTarget>,
    dependencies: Dict<string>,
    peerDependencies: Dict<string>,
    optionalDependencies: Dict<string>,
    devDependencies: Dict<string>)
}
