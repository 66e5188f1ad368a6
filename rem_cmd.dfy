/**
 * The package.json edit of `jspm rem` (src/cmd/rem.ts): for every name
 * given, a truthy entry under that name is deleted from `dependencies`,
 * `devDependencies`, `optionalDependencies` and `peerDependencies`.
 * Reading and writing the file (`updatePjson`) is not part of this model.
 */
module RemCmd {
  import opened Wrappers
  import opened Manifest

  /** JavaScript truthiness of a dependency value: only the empty string is falsy. */
  predicate TruthyValue(v: string)
  {
    v != ""
  }

  /** `d` without every entry whose name is listed and whose value is truthy. */
  function Removed(d: Dict<string>, names: seq<string>): (r: Dict<string>)
    ensures forall i :: 0 <= i < |r| ==> r[i] in d && !(r[i].0 in names && TruthyValue(r[i].1))
    ensures forall i :: 0 <= i < |d| && !(d[i].0 in names && TruthyValue(d[i].1)) ==> d[i] in r
    ensures |r| <= |d|
  {
    if |d| == 0 then []
    else
      var rest := Removed(d[1..], names);
      assert forall x :: x in d[1..] ==> x in d;
      (if d[0].0 in names && TruthyValue(d[0].1) then [] else [d[0]]) + rest
  }

  /** `delete d[name]`: every entry under `name` dropped. */
  function Delete(d: Dict<string>, name: string): (r: Dict<string>)
    ensures forall i :: 0 <= i < |r| ==> r[i] in d && r[i].0 != name
  {
    if |d| == 0 then []
    else
      assert forall x :: x in d[1..] ==> x in d;
      (if d[0].0 == name then [] else [d[0]]) + Delete(d[1..], name)
  }

  /** `if (d?.[name]) delete d[name]`. */
  function DeleteIfTruthy(field: Option<Dict<string>>, name: string): (r: Option<Dict<string>>)
    ensures r.Some? <==> field.Some?
    ensures r.Some? ==> forall i :: 0 <= i < |r.value| ==> r.value[i] in field.value
    ensures field.Some? && Get(field.value, name).Some? && TruthyValue(Get(field.value, name).value) ==> Unbound(r.value, name)
    ensures !(field.Some? && Get(field.value, name).Some? && TruthyValue(Get(field.value, name).value)) ==> r == field
  {
    match field
    case None => None
    case Some(d) =>
      var v := Get(d, name);
      if v.Some? && TruthyValue(v.value) then Some(Delete(d, name)) else field
  }

  /** What the removal leaves of an optional dependency field. */
  function RemovedField(field: Option<Dict<string>>, names: seq<string>): Option<Dict<string>>
  {
    match field
    case None => None
    case Some(d) => Some(Removed(d, names))
  }

  /** A key no entry of `d` has. */
  predicate Unbound(d: Dict<string>, name: string)
  {
    forall i :: 0 <= i < |d| ==> d[i].0 != name
  }

  lemma GetCons(e: (string, string), rest: Dict<string>, key: string)
    ensures Get([e] + rest, key) == if e.0 == key then Some(e.1) else Get(rest, key)
  {
    assert ([e] + rest)[1..] == rest;
  }

  /** Removal and deletion look at the head, then go on with the tail. */
  lemma RemovedCons(e: (string, string), rest: Dict<string>, names: seq<string>)
    ensures Removed([e] + rest, names) == (if e.0 in names && TruthyValue(e.1) then [] else [e]) + Removed(rest, names)
    ensures Delete([e] + rest, e.0) == Delete(rest, e.0)
  {
    assert ([e] + rest)[1..] == rest;
  }

  /** Listing no names removes nothing. */
  lemma {:induction false} RemovedNothing(d: Dict<string>)
    ensures Removed(d, []) == d
  {
    if |d| > 0 {
      RemovedNothing(d[1..]);
      assert d == [d[0]] + d[1..];
    }
  }

  /** Listing a name that `d` does not bind changes nothing. */
  lemma {:induction false} RemovedUnbound(d: Dict<string>, names: seq<string>, name: string)
    requires Unbound(d, name)
    ensures Removed(d, names + [name]) == Removed(d, names)
  {
    if |d| > 0 {
      RemovedUnbound(d[1..], names, name);
    }
  }

  lemma {:induction false} DeleteUnbound(d: Dict<string>, name: string)
    requires Unbound(d, name)
    ensures Delete(d, name) == d
  {
    if |d| > 0 {
      DeleteUnbound(d[1..], name);
    }
  }

  lemma {:induction false} RemovedGet(d: Dict<string>, names: seq<string>, name: string)
    requires Unbound(d, name)
    ensures Get(Removed(d, names), name).None?
  {
    if |d| > 0 {
      RemovedGet(d[1..], names, name);
      var rest := Removed(d[1..], names);
      if !(d[0].0 in names && TruthyValue(d[0].1)) {
        GetCons(d[0], rest, name);
      } else {
        assert [] + rest == rest;
      }
    }
  }

  /**
   * Handling one more name is the source's loop body: removing the listed
   * names and then deleting `name` when it is still bound truthily is
   * removing the longer list.
   */
  lemma {:induction false} RemoveStep(d: Dict<string>, names: seq<string>, name: string)
    requires DistinctKeys(d)
    ensures DeleteIfTruthy(Some(Removed(d, names)), name) == Some(Removed(d, names + [name]))
  {
    if |d| > 0 {
      var e, t := d[0], d[1..];
      assert DistinctKeys(t);
      assert Unbound(t, e.0) by {
        forall i | 0 <= i < |t| ensures t[i].0 != e.0 { assert d[i + 1] == t[i]; }
      }
      var rest := Removed(t, names);
      if e.0 == name {
        RemovedUnbound(t, names, name);
        RemovedGet(t, names, name);
        assert e.0 in names + [name];
        assert [] + rest == rest;
        assert d == [e] + t;
        if !(e.0 in names && TruthyValue(e.1)) {
          GetCons(e, rest, name);
          if TruthyValue(e.1) {
            RemovedUnboundDelete(t, names, name);
            RemovedCons(e, rest, names);
          }
        }
      } else {
        RemoveStep(t, names, name);
        assert d == [e] + t;
        assert (e.0 in names + [name]) == (e.0 in names);
        var rest' := Removed(t, names + [name]);
        assert [] + rest == rest && [] + rest' == rest';
        if !(e.0 in names && TruthyValue(e.1)) {
          GetCons(e, rest, name);
          assert ([e] + rest)[1..] == rest;
          assert ([e] + Delete(rest, name))[1..] == Delete(rest, name);
        }
      }
    }
  }

  lemma RemovedUnboundDelete(t: Dict<string>, names: seq<string>, name: string)
    requires Unbound(t, name)
    ensures Delete(Removed(t, names), name) == Removed(t, names)
  {
    var r := Removed(t, names);
    assert Unbound(r, name) by {
      forall i | 0 <= i < |r| ensures r[i].0 != name {
        assert r[i] in t;
      }
    }
    DeleteUnbound(r, name);
  }

  /** After the removal no listed name is bound to a truthy value. */
  lemma RemovedGone(d: Dict<string>, names: seq<string>, name: string)
    requires name in names
    ensures var v := Get(Removed(d, names), name); v.None? || !TruthyValue(v.value)
  {
    var r := Removed(d, names);
    GetFinds(r, name);
  }

  /**
   * Every name that is not listed, and every listed name whose value is
   * falsy, reads as before.
   */
  lemma {:induction false} RemovedKeeps(d: Dict<string>, names: seq<string>, name: string)
    requires DistinctKeys(d)
    requires name !in names || (Get(d, name).Some? && !TruthyValue(Get(d, name).value))
    ensures Get(Removed(d, names), name) == Get(d, name)
  {
    if |d| > 0 {
      assert DistinctKeys(d[1..]);
      var rest := Removed(d[1..], names);
      if d[0].0 == name {
        assert Get(d, name) == Some(d[0].1);
        GetCons(d[0], rest, name);
      } else {
        RemovedKeeps(d[1..], names, name);
        if !(d[0].0 in names && TruthyValue(d[0].1)) {
          GetCons(d[0], rest, name);
        } else {
          assert [] + rest == rest;
        }
      }
    }
  }

  /** Removing the same names twice is removing them once. */
  lemma {:induction false} RemovedIdempotent(d: Dict<string>, names: seq<string>)
    ensures Removed(Removed(d, names), names) == Removed(d, names)
  {
    if |d| > 0 {
      RemovedIdempotent(d[1..], names);
      var rest := Removed(d[1..], names);
      if !(d[0].0 in names && TruthyValue(d[0].1)) {
        RemovedCons(d[0], rest, names);
      } else {
        assert [] + rest == rest;
      }
    }
  }

  /** The dependency fields of a package.json, edited in place; any other field is out of reach. */
  class PackageJson {
    var dependencies: Option<Dict<string>>
    var devDependencies: Option<Dict<string>>
    var optionalDependencies: Option<Dict<string>>
    var peerDependencies: Option<Dict<string>>

    /** JSON objects have distinct keys. */
    ghost predicate Valid()
      reads this
    {
      && (dependencies.Some? ==> DistinctKeys(dependencies.value))
      && (devDependencies.Some? ==> DistinctKeys(devDependencies.value))
      && (optionalDependencies.Some? ==> DistinctKeys(optionalDependencies.value))
      && (peerDependencies.Some? ==> DistinctKeys(peerDependencies.value))
    }

    constructor (dependencies: Option<Dict<string>>, devDependencies: Option<Dict<string>>,
                 optionalDependencies: Option<Dict<string>>, peerDependencies: Option<Dict<string>>)
      requires dependencies.Some? ==> DistinctKeys(dependencies.value)
      requires devDependencies.Some? ==> DistinctKeys(devDependencies.value)
      requires optionalDependencies.Some? ==> DistinctKeys(optionalDependencies.value)
      requires peerDependencies.Some? ==> DistinctKeys(peerDependencies.value)
      ensures Valid()
      ensures this.dependencies == dependencies && this.devDependencies == devDependencies
      ensures this.optionalDependencies == optionalDependencies && this.peerDependencies == peerDependencies
    {
      this.dependencies := dependencies;
      this.devDependencies := devDependencies;
      this.optionalDependencies := optionalDependencies;
      this.peerDependencies := peerDependencies;
    }

    /**
     * The callback `rem(names)` passes to `updatePjson`: each of the four
     * fields loses exactly the truthy entries of the listed names.
     */
    method RemoveNames(names: seq<string>)
      requires Valid()
      modifies this
      ensures Valid()
      ensures dependencies == RemovedField(old(dependencies), names)
      ensures devDependencies == RemovedField(old(devDependencies), names)
      ensures optionalDependencies == RemovedField(old(optionalDependencies), names)
      ensures peerDependencies == RemovedField(old(peerDependencies), names)
    {
      ghost var deps, dev, optional, peer := dependencies, devDependencies, optionalDependencies, peerDependencies;
      FieldNothing(deps);
      FieldNothing(dev);
      FieldNothing(optional);
      FieldNothing(peer);
      assert names[..0] == [];
      for i := 0 to |names|
        invariant dependencies == RemovedField(deps, names[..i])
        invariant devDependencies == RemovedField(dev, names[..i])
        invariant optionalDependencies == RemovedField(optional, names[..i])
        invariant peerDependencies == RemovedField(peer, names[..i])
      {
        var name := names[i];
        assert names[..i + 1] == names[..i] + [name];
        FieldStep(deps, names[..i], name);
        FieldStep(dev, names[..i], name);
        FieldStep(optional, names[..i], name);
        FieldStep(peer, names[..i], name);
        dependencies := DeleteIfTruthy(dependencies, name);
        devDependencies := DeleteIfTruthy(devDependencies, name);
        optionalDependencies := DeleteIfTruthy(optionalDependencies, name);
        peerDependencies := DeleteIfTruthy(peerDependencies, name);
      }
      assert names[..|names|] == names;
      RemovedDistinct(old(dependencies), names);
      RemovedDistinct(old(devDependencies), names);
      RemovedDistinct(old(optionalDependencies), names);
      RemovedDistinct(old(peerDependencies), names);
    }
  }

  /** The argument of `rem`: one name, or a list of names. */
  datatype Names = One(name: string) | Many(names: seq<string>)

  /** `typeof names === 'string'` wraps the single name into a list. */
  function NameList(names: Names): (r: seq<string>)
    ensures names.One? ==> r == [names.name]
    ensures names.Many? ==> r == names.names
  {
    match names
    case One(name) => [name]
    case Many(list) => list
  }

  /** `rem(names)` on the package.json: one name is removed as a one-element list. */
  method Rem(pjson: PackageJson, names: Names)
    requires pjson.Valid()
    modifies pjson
    ensures pjson.Valid()
    ensures pjson.dependencies == RemovedField(old(pjson.dependencies), NameList(names))
    ensures pjson.devDependencies == RemovedField(old(pjson.devDependencies), NameList(names))
    ensures pjson.optionalDependencies == RemovedField(old(pjson.optionalDependencies), NameList(names))
    ensures pjson.peerDependencies == RemovedField(old(pjson.peerDependencies), NameList(names))
  {
    pjson.RemoveNames(NameList(names));
  }

  /** Listing no names leaves a field as it was. */
  lemma FieldNothing(field: Option<Dict<string>>)
    ensures RemovedField(field, []) == field
  {
    if field.Some? {
      RemovedNothing(field.value);
    }
  }

  /** One more name: the field loses its truthy entry under that name. */
  lemma FieldStep(field: Option<Dict<string>>, names: seq<string>, name: string)
    requires field.Some? ==> DistinctKeys(field.value)
    ensures DeleteIfTruthy(RemovedField(field, names), name) == RemovedField(field, names + [name])
  {
    if field.Some? {
      RemoveStep(field.value, names, name);
    }
  }

  /** Removal keeps the keys distinct. */
  lemma RemovedDistinct(field: Option<Dict<string>>, names: seq<string>)
    requires field.Some? ==> DistinctKeys(field.value)
    ensures var r := RemovedField(field, names); r.Some? ==> DistinctKeys(r.value)
  {
    if field.Some? {
      RemovedSubsequence(field.value, names);
    }
  }

  lemma {:induction false} RemovedSubsequence(d: Dict<string>, names: seq<string>)
    requires DistinctKeys(d)
    ensures DistinctKeys(Removed(d, names))
  {
    if |d| > 0 {
      assert DistinctKeys(d[1..]);
      RemovedSubsequence(d[1..], names);
      var rest := Removed(d[1..], names);
      forall i | 0 <= i < |rest| ensures rest[i].0 != d[0].0 {
        assert rest[i] in d[1..];
        var j :| 0 <= j < |d[1..]| && d[1..][j] == rest[i];
        assert d[j + 1] == rest[i];
      }
    }
  }
}
