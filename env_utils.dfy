/**
 * The environment-list and flag helpers of src/utils.ts: `removeEnvs` and
 * `addEnvs` edit an environment list in place and sort it, `getEnv`
 * combines them for the `--env` flag, `removeNonStaticEnvKeys` drops the
 * per-import conditions, `attachEnv`/`detachEnv` set and clear a map's
 * `env`, `parsePackageSpec` cuts the version off a package target and
 * `getResolutions` reads `--resolution` pairs.
 */
module EnvUtils {
  import opened Wrappers
  import opened Strings
  import opened Sorting
  import opened Manifest

  // ------------------------------------------------------------- list basics

  /** No value occurs twice. */
  predicate NoDup(s: seq<string>)
  {
    forall i, j :: 0 <= i < j < |s| ==> s[i] != s[j]
  }

  lemma NoDupTail(s: seq<string>)
    requires NoDup(s) && |s| > 0
    ensures NoDup(s[1..]) && s[0] !in s[1..]
  {
    var t := s[1..];
    forall i, j | 0 <= i < j < |t| ensures t[i] != t[j] { assert s[i + 1] == t[i] && s[j + 1] == t[j]; }
    forall k | 0 <= k < |t| ensures t[k] != s[0] { assert s[k + 1] == t[k]; }
  }

  /** Putting a new value in front of a list without repeats keeps it without repeats. */
  lemma ConsNoDup(h: string, t: seq<string>)
    requires NoDup(t) && h !in t
    ensures NoDup([h] + t)
  {
    var r := [h] + t;
    forall i, j | 0 <= i < j < |r| ensures r[i] != r[j] {
      if i == 0 { assert r[j] == t[j - 1]; } else { assert r[i] == t[i - 1] && r[j] == t[j - 1]; }
    }
  }

  /** `s.splice(s.indexOf(x), 1)` when `s.includes(x)`: the first `x` taken out. */
  function RemoveFirst(s: seq<string>, x: string): seq<string>
  {
    if |s| == 0 then []
    else if s[0] == x then s[1..]
    else [s[0]] + RemoveFirst(s[1..], x)
  }

  /** Exactly one occurrence of `x` goes, if there is one. */
  lemma {:induction false} RemoveFirstPermutes(s: seq<string>, x: string)
    ensures multiset(RemoveFirst(s, x)) == multiset(s) - multiset{x}
  {
    if |s| > 0 {
      assert s == [s[0]] + s[1..];
      if s[0] != x {
        RemoveFirstPermutes(s[1..], x);
      }
    }
  }

  /** Every other value stays or stays away. */
  lemma {:induction false} RemoveFirstKeeps(s: seq<string>, x: string, y: string)
    requires y != x
    ensures y in RemoveFirst(s, x) <==> y in s
  {
    if |s| > 0 {
      assert s == [s[0]] + s[1..];
      if s[0] != x {
        RemoveFirstKeeps(s[1..], x, y);
      }
    }
  }

  /** In a list without repeats, removing the first `x` removes every `x`. */
  lemma {:induction false} RemoveFirstNoDup(s: seq<string>, x: string)
    requires NoDup(s)
    ensures NoDup(RemoveFirst(s, x))
    ensures forall y :: y in RemoveFirst(s, x) <==> y in s && y != x
  {
    if |s| > 0 {
      var t := s[1..];
      NoDupTail(s);
      assert forall y :: y in s <==> y == s[0] || y in t by { assert s == [s[0]] + t; }
      if s[0] != x {
        RemoveFirstNoDup(t, x);
        ConsNoDup(s[0], RemoveFirst(t, x));
      }
    }
  }

  /** `(a - {x}) - b` is `a - ({x} + b)`, counting occurrences. */
  lemma MultisetMinusStep(a: multiset<string>, x: string, b: multiset<string>)
    ensures a - multiset{x} - b == a - (b + multiset{x})
  {
    forall y ensures (a - multiset{x} - b)[y] == (a - (b + multiset{x}))[y] {
    }
  }

  /** `removeEnvs`' loop: the first occurrence of each listed env taken out, in list order. */
  function RemoveEach(env: seq<string>, remove: seq<string>): seq<string>
  {
    if |remove| == 0 then env
    else RemoveFirst(RemoveEach(env, remove[..|remove| - 1]), remove[|remove| - 1])
  }

  /** One occurrence of every listed env is removed, as far as there are occurrences. */
  lemma {:induction false} RemoveEachPermutes(env: seq<string>, remove: seq<string>)
    ensures multiset(RemoveEach(env, remove)) == multiset(env) - multiset(remove)
  {
    if |remove| > 0 {
      var init := remove[..|remove| - 1];
      var last := remove[|remove| - 1];
      assert remove == init + [last];
      RemoveEachPermutes(env, init);
      RemoveFirstPermutes(RemoveEach(env, init), last);
      MultisetMinusStep(multiset(env), last, multiset(init));
    }
  }

  /** For an env without repeats, an entry stays exactly when it is not listed. */
  lemma {:induction false} RemoveEachNoDup(env: seq<string>, remove: seq<string>)
    requires NoDup(env)
    ensures NoDup(RemoveEach(env, remove))
    ensures forall y :: y in RemoveEach(env, remove) <==> y in env && y !in remove
  {
    if |remove| > 0 {
      var last := remove[|remove| - 1];
      var init := remove[..|remove| - 1];
      assert remove == init + [last];
      RemoveEachNoDup(env, init);
      RemoveFirstNoDup(RemoveEach(env, init), last);
    }
  }

  /**
   * `removeEnvs(env, remove)`: one occurrence of every listed env that is
   * present is spliced out, then the list is sorted.
   */
  method RemoveEnvs(env: seq<string>, remove: seq<string>) returns (r: seq<string>)
    ensures r == SortStrings(RemoveEach(env, remove))
    ensures multiset(r) == multiset(env) - multiset(remove)
    ensures StringsSorted(r)
  {
    var e := env;
    for i := 0 to |remove|
      invariant e == RemoveEach(env, remove[..i])
    {
      assert remove[..i + 1][..i] == remove[..i];
      if remove[i] in e {
        e := RemoveFirst(e, remove[i]);
      } else {
        NotInRemoveFirst(e, remove[i]);
      }
    }
    assert remove[..|remove|] == remove;
    r := SortStrings(e);
    RemoveEachPermutes(env, remove);
    SortStringsPermutes(e);
    SortStringsSorted(e);
  }

  lemma {:induction false} NotInRemoveFirst(s: seq<string>, x: string)
    requires x !in s
    ensures RemoveFirst(s, x) == s
  {
    if |s| > 0 {
      NotInRemoveFirst(s[1..], x);
      assert s == [s[0]] + s[1..];
    }
  }

  // ----------------------------------------------------------------- addEnvs

  /** `excludeDefinitions[name]`: the envs a requested env rules out. */
  function Excludes(name: string): seq<string>
  {
    if name == "production" then ["development"]
    else if name == "development" then ["production"]
    else if name == "node" then ["browser", "deno"]
    else if name == "deno" then ["node", "browser"]
    else if name == "browser" then ["node", "deno"]
    else []
  }

  /** The `excludeEnvs` list `addEnvs` collects: every requested env's exclusions, in order. */
  function ExcludesOf(newEnvs: seq<string>): seq<string>
  {
    if |newEnvs| == 0 then []
    else ExcludesOf(newEnvs[..|newEnvs| - 1]) + Excludes(newEnvs[|newEnvs| - 1])
  }

  /** `addEnvs`' first loop: every requested env not yet present pushed at the end. */
  function Pushed(env: seq<string>, newEnvs: seq<string>): seq<string>
  {
    if |newEnvs| == 0 then env
    else if newEnvs[|newEnvs| - 1] in Pushed(env, newEnvs[..|newEnvs| - 1]) then Pushed(env, newEnvs[..|newEnvs| - 1])
    else Pushed(env, newEnvs[..|newEnvs| - 1]) + [newEnvs[|newEnvs| - 1]]
  }

  /** After pushing, an env is present exactly when it was present or requested; no repeats are introduced. */
  lemma {:induction false} PushedMembers(env: seq<string>, newEnvs: seq<string>)
    ensures forall y :: y in Pushed(env, newEnvs) <==> y in env || y in newEnvs
    ensures NoDup(env) ==> NoDup(Pushed(env, newEnvs))
  {
    if |newEnvs| > 0 {
      var x := newEnvs[|newEnvs| - 1];
      var init := newEnvs[..|newEnvs| - 1];
      assert newEnvs == init + [x];
      PushedMembers(env, init);
      var p := Pushed(env, init);
      if x !in p && NoDup(env) {
        var r := p + [x];
        forall i, j | 0 <= i < j < |r| ensures r[i] != r[j] {
          if j == |p| { assert r[i] == p[i]; } else { assert r[i] == p[i] && r[j] == p[j]; }
        }
      }
    }
  }

  /** `addEnvs`' second loop: each exclusion present and not itself requested spliced out. */
  function Pruned(env: seq<string>, excludes: seq<string>, newEnvs: seq<string>): seq<string>
  {
    if |excludes| == 0 then env
    else if excludes[|excludes| - 1] in Pruned(env, excludes[..|excludes| - 1], newEnvs) && excludes[|excludes| - 1] !in newEnvs then
      RemoveFirst(Pruned(env, excludes[..|excludes| - 1], newEnvs), excludes[|excludes| - 1])
    else Pruned(env, excludes[..|excludes| - 1], newEnvs)
  }

  /** A requested env is never pruned. */
  lemma {:induction false} PrunedKeepsRequested(env: seq<string>, excludes: seq<string>, newEnvs: seq<string>, y: string)
    requires y in newEnvs
    ensures y in Pruned(env, excludes, newEnvs) <==> y in env
  {
    if |excludes| > 0 {
      var x := excludes[|excludes| - 1];
      PrunedKeepsRequested(env, excludes[..|excludes| - 1], newEnvs, y);
      if x in Pruned(env, excludes[..|excludes| - 1], newEnvs) && x !in newEnvs {
        RemoveFirstKeeps(Pruned(env, excludes[..|excludes| - 1], newEnvs), x, y);
      }
    }
  }

  /** In a list without repeats, pruning keeps an env exactly when it was requested or is not excluded. */
  lemma {:induction false} PrunedNoDup(env: seq<string>, excludes: seq<string>, newEnvs: seq<string>)
    requires NoDup(env)
    ensures NoDup(Pruned(env, excludes, newEnvs))
    ensures forall y :: y in Pruned(env, excludes, newEnvs) <==> y in env && (y in newEnvs || y !in excludes)
  {
    if |excludes| > 0 {
      var x := excludes[|excludes| - 1];
      var init := excludes[..|excludes| - 1];
      assert excludes == init + [x];
      PrunedNoDup(env, init, newEnvs);
      var p := Pruned(env, init, newEnvs);
      if x in p && x !in newEnvs {
        RemoveFirstNoDup(p, x);
      }
    }
  }

  /** The env list `addEnvs(env, newEnvs)` returns. */
  function AddEnvsResult(env: seq<string>, newEnvs: seq<string>): seq<string>
  {
    SortStrings(Pruned(Pushed(env, newEnvs), ExcludesOf(newEnvs), newEnvs))
  }

  /**
   * `addEnvs(env, newEnvs)`: the requested envs pushed when absent, then
   * the envs they exclude spliced out unless requested, then sorted. Every
   * requested env is in the result.
   */
  method AddEnvs(env: seq<string>, newEnvs: seq<string>) returns (r: seq<string>)
    ensures r == AddEnvsResult(env, newEnvs)
    ensures forall x :: x in newEnvs ==> x in r
    ensures StringsSorted(r)
  {
    var e := env;
    var excludeEnvs: seq<string> := [];
    for i := 0 to |newEnvs|
      invariant e == Pushed(env, newEnvs[..i])
      invariant excludeEnvs == ExcludesOf(newEnvs[..i])
    {
      assert newEnvs[..i + 1][..i] == newEnvs[..i];
      if newEnvs[i] !in e {
        e := e + [newEnvs[i]];
      }
      excludeEnvs := excludeEnvs + Excludes(newEnvs[i]);
    }
    assert newEnvs[..|newEnvs|] == newEnvs;
    var pushed := e;
    for k := 0 to |excludeEnvs|
      invariant e == Pruned(pushed, excludeEnvs[..k], newEnvs)
    {
      assert excludeEnvs[..k + 1][..k] == excludeEnvs[..k];
      var exclude := excludeEnvs[k];
      if exclude in e && exclude !in newEnvs {
        e := RemoveFirst(e, exclude);
      }
    }
    assert excludeEnvs[..|excludeEnvs|] == excludeEnvs;
    r := SortStrings(e);
    SortStringsSorted(e);
    PushedMembers(env, newEnvs);
    forall x | x in newEnvs ensures x in r {
      PrunedKeepsRequested(pushed, excludeEnvs, newEnvs, x);
      SortStringsMembers(e, x);
    }
  }

  /** Sorting a list without repeats gives one without repeats. */
  lemma {:induction false} SortStringsNoDup(s: seq<string>)
    requires NoDup(s)
    ensures NoDup(SortStrings(s))
  {
    if |s| > 0 {
      NoDupTail(s);
      SortStringsNoDup(s[1..]);
      SortStringsMembers(s[1..], s[0]);
      InsertStringNoDup(s[0], SortStrings(s[1..]));
    }
  }

  lemma {:induction false} InsertStringNoDup(x: string, s: seq<string>)
    requires NoDup(s) && x !in s
    ensures NoDup(InsertString(x, s))
  {
    if |s| > 0 {
      if StrLe(x, s[0]) {
        ConsNoDup(x, s);
      } else {
        NoDupTail(s);
        assert x !in s[1..] by { assert s == [s[0]] + s[1..]; }
        InsertStringNoDup(x, s[1..]);
        InsertStringMembers(x, s[1..], s[0]);
        ConsNoDup(s[0], InsertString(x, s[1..]));
      }
    } else {
      ConsNoDup(x, s);
    }
  }

  /**
   * For an env list without repeats, an env is in `addEnvs`' result exactly
   * when it was requested, or was present and is excluded by no requested
   * env; the result has no repeats either.
   */
  lemma AddEnvsMembers(env: seq<string>, newEnvs: seq<string>)
    requires NoDup(env)
    ensures NoDup(AddEnvsResult(env, newEnvs))
    ensures forall y :: y in AddEnvsResult(env, newEnvs) <==>
      y in newEnvs || (y in env && y !in ExcludesOf(newEnvs))
  {
    var p := Pushed(env, newEnvs);
    PushedMembers(env, newEnvs);
    var q := Pruned(p, ExcludesOf(newEnvs), newEnvs);
    PrunedNoDup(p, ExcludesOf(newEnvs), newEnvs);
    SortStringsNoDup(q);
    forall y ensures y in SortStrings(q) <==> y in q {
      SortStringsMembers(q, y);
    }
  }

  /**
   * The install test's case: a map env of deno, module and production with
   * `--env deno,browser` keeps both deno and browser, because an exclusion
   * that is itself requested is not applied.
   */
  lemma AddEnvsDenoBrowser()
    ensures AddEnvsResult(["deno", "module", "production"], ["deno", "browser"])
      == ["browser", "deno", "module", "production"]
  {
    var p := ["deno", "module", "production", "browser"];
    DenoBrowserPushed();
    DenoBrowserPruned(p);
    assert SortStrings(p) == ["browser", "deno", "module", "production"] by {
      assert SortStrings(["browser"]) == ["browser"];
      assert SortStrings(["production", "browser"]) == ["browser", "production"];
      assert SortStrings(["module", "production", "browser"]) == ["browser", "module", "production"];
    }
  }

  /** `deno` is there already; `browser` is pushed. */
  lemma DenoBrowserPushed()
    ensures Pushed(["deno", "module", "production"], ["deno", "browser"]) == ["deno", "module", "production", "browser"]
  {
    var env, newEnvs := ["deno", "module", "production"], ["deno", "browser"];
    assert newEnvs[..1] == ["deno"] && newEnvs[..1][..0] == [];
    assert Pushed(env, ["deno"]) == env;
  }

  /** `deno` excludes `node` and `browser`, `browser` excludes `node` and `deno`, but both are requested and `node` is absent. */
  lemma DenoBrowserPruned(p: seq<string>)
    requires p == ["deno", "module", "production", "browser"]
    ensures Pruned(p, ExcludesOf(["deno", "browser"]), ["deno", "browser"]) == p
  {
    var newEnvs := ["deno", "browser"];
    var ex := ["node", "browser", "node", "deno"];
    assert ExcludesOf(newEnvs) == ex by {
      assert newEnvs[..1] == ["deno"] && newEnvs[..1][..0] == [];
      assert ExcludesOf(["deno"]) == ["node", "browser"];
    }
    assert ex[..1][..0] == [] && ex[..2][..1] == ex[..1] && ex[..3][..2] == ex[..2] && ex[..3] == ex[..|ex| - 1];
    assert Pruned(p, ex[..1], newEnvs) == p;
    assert Pruned(p, ex[..2], newEnvs) == p;
    assert Pruned(p, ex[..3], newEnvs) == p;
  }


  // ------------------------------------------------------ removeNonStaticEnvKeys

  /** The per-import conditions that are not static environment names. */
  predicate IsNonStaticKey(e: string)
  {
    e == "import" || e == "require" || e == "default"
  }

  /** `removeNonStaticEnvKeys(env)`: `import`, `require` and `default` filtered out. */
  function RemoveNonStaticEnvKeys(env: seq<string>): seq<string>
  {
    if |env| == 0 then []
    else (if IsNonStaticKey(env[0]) then [] else [env[0]]) + RemoveNonStaticEnvKeys(env[1..])
  }

  /** An env survives the filter exactly when it is not one of the three conditions. */
  lemma {:induction false} RemoveNonStaticMember(env: seq<string>, y: string)
    ensures y in RemoveNonStaticEnvKeys(env) <==> y in env && !IsNonStaticKey(y)
  {
    if |env| > 0 {
      RemoveNonStaticMember(env[1..], y);
      assert env == [env[0]] + env[1..];
    }
  }

  /** The filter keeps the order of what it keeps: it distributes over concatenation. */
  lemma {:induction false} RemoveNonStaticConcat(a: seq<string>, b: seq<string>)
    ensures RemoveNonStaticEnvKeys(a + b) == RemoveNonStaticEnvKeys(a) + RemoveNonStaticEnvKeys(b)
  {
    if |a| > 0 {
      RemoveNonStaticConcat(a[1..], b);
      assert (a + b)[1..] == a[1..] + b;
    } else {
      assert a + b == b;
    }
  }

  /** A list without those conditions passes unchanged. */
  lemma {:induction false} RemoveNonStaticNone(env: seq<string>)
    requires forall k :: 0 <= k < |env| ==> !IsNonStaticKey(env[k])
    ensures RemoveNonStaticEnvKeys(env) == env
  {
    if |env| > 0 {
      RemoveNonStaticNone(env[1..]);
      assert env == [env[0]] + env[1..];
    }
  }

  // ----------------------------------------------------- attachEnv / detachEnv

  /** An import map file: its `env` field (absent as `undefined`) and everything else. */
  datatype MapFile<M> = MapFile(env: Option<seq<string>>, body: M)

  /** `attachEnv(map, env)`: `map.env` set to the static envs of `env` (the default `[]` is passed explicitly). */
  function AttachEnv<M>(m: MapFile<M>, env: seq<string>): (r: MapFile<M>)
    ensures r.body == m.body && r.env.Some?
    ensures forall y :: y in r.env.value <==> y in env && !IsNonStaticKey(y)
  {
    forall y ensures y in RemoveNonStaticEnvKeys(env) <==> y in env && !IsNonStaticKey(y) {
      RemoveNonStaticMember(env, y);
    }
    m.(env := Some(RemoveNonStaticEnvKeys(env)))
  }

  /** `detachEnv(map)`: a copy of the map with `env` undefined. */
  function DetachEnv<M>(m: MapFile<M>): (r: MapFile<M>)
    ensures r.env.None? && r.body == m.body
  {
    m.(env := None)
  }

  /**
   * Detaching undoes attaching, attaching overrides a detach, and attaching
   * the env a map already carries leaves it as it is.
   */
  lemma AttachDetach<M>(m: MapFile<M>, env: seq<string>)
    ensures DetachEnv(AttachEnv(m, env)) == DetachEnv(m)
    ensures AttachEnv(DetachEnv(m), env) == AttachEnv(m, env)
    ensures AttachEnv(AttachEnv(m, env), AttachEnv(m, env).env.value) == AttachEnv(m, env)
  {
    var once := RemoveNonStaticEnvKeys(env);
    forall k | 0 <= k < |once| ensures !IsNonStaticKey(once[k]) {
      RemoveNonStaticMember(env, once[k]);
    }
    RemoveNonStaticNone(once);
  }

  // ------------------------------------------------------------------ getEnv

  /** The `env` flag: absent, a comma-separated string, or an array of names. */
  datatype EnvFlags = NoEnv | EnvText(text: string) | EnvArray(items: seq<string>)

  /** `.map(e => e.trim())`. */
  function TrimAll(s: seq<string>): (r: seq<string>)
    ensures |r| == |s| && forall k :: 0 <= k < |s| ==> r[k] == Trim(s[k])
  {
    if |s| == 0 then [] else [Trim(s[0])] + TrimAll(s[1..])
  }

  /** `.filter(Boolean)` on strings: the empty ones dropped. */
  function NonEmpty(s: seq<string>): seq<string>
  {
    if |s| == 0 then [] else (if s[0] == "" then [] else [s[0]]) + NonEmpty(s[1..])
  }

  /** `envFlags`: an array as given, otherwise the trimmed non-empty comma-separated names. */
  function EnvFlagList(flags: EnvFlags): seq<string>
  {
    match flags
    case EnvArray(items) => items
    case EnvText(text) => NonEmpty(TrimAll(Split(text, ',')))
    case NoEnv => []
  }

  /** The names starting `no-` (`negated`) or the others, in order. */
  function Negated(s: seq<string>, negated: bool): seq<string>
  {
    if |s| == 0 then [] else (if StartsWith(s[0], "no-") == negated then [s[0]] else []) + Negated(s[1..], negated)
  }

  lemma {:induction false} NegatedMember(s: seq<string>, negated: bool, y: string)
    ensures y in Negated(s, negated) <==> y in s && StartsWith(y, "no-") == negated
  {
    if |s| > 0 {
      NegatedMember(s[1..], negated, y);
      assert s == [s[0]] + s[1..];
    }
  }

  /** The env a map starts with: its own `env`, or development, browser and module. */
  function StartEnv(inputEnv: Option<seq<string>>): seq<string>
  {
    inputEnv.UnwrapOr(["development", "browser", "module"])
  }

  /**
   * `getEnv(flags)` as written: the `no-` names themselves, prefix
   * included, are handed to `removeEnvs`, so a `no-browser` flag looks for
   * an env literally named `no-browser`.
   */
  function GetEnvAsWritten(inputEnv: Option<seq<string>>, names: seq<string>): seq<string>
  {
    RemoveNonStaticEnvKeys(AddEnvsResult(
      SortStrings(RemoveEach(StartEnv(inputEnv), Negated(names, true))),
      Negated(names, false)))
  }

  /** `getEnv(flags)`, the same steps through the list-editing methods. */
  method GetEnv(inputEnv: Option<seq<string>>, flags: EnvFlags) returns (r: seq<string>)
    ensures r == GetEnvAsWritten(inputEnv, EnvFlagList(flags))
  {
    var names := EnvFlagList(flags);
    var env := RemoveEnvs(StartEnv(inputEnv), Negated(names, true));
    env := AddEnvs(env, Negated(names, false));
    r := RemoveNonStaticEnvKeys(env);
  }

  /**
   * As written, the `no-` flags never remove an env whose name does not
   * itself start with `no-`.
   */
  lemma {:induction false} NegatedRemovesNothing(env: seq<string>, names: seq<string>)
    requires forall k :: 0 <= k < |env| ==> !StartsWith(env[k], "no-")
    ensures RemoveEach(env, Negated(names, true)) == env
  {
    var neg := Negated(names, true);
    forall y | y in neg ensures StartsWith(y, "no-") { NegatedMember(names, true, y); }
    NegatedNotIn(env, neg);
  }

  lemma {:induction false} NegatedNotIn(env: seq<string>, neg: seq<string>)
    requires forall k :: 0 <= k < |env| ==> !StartsWith(env[k], "no-")
    requires forall y :: y in neg ==> StartsWith(y, "no-")
    ensures RemoveEach(env, neg) == env
  {
    if |neg| > 0 {
      var init := neg[..|neg| - 1];
      assert forall y :: y in init ==> y in neg;
      NegatedNotIn(env, init);
      assert neg[|neg| - 1] in neg;
      NotInRemoveFirst(env, neg[|neg| - 1]);
    }
  }

  /** The `--env no-browser` flag names just `no-browser`. */
  lemma NoBrowserFlag()
    ensures EnvFlagList(EnvText("no-browser")) == ["no-browser"]
  {
    var flag := "no-browser";
    assert ',' !in flag;
    assert flag[0] == 'n' && flag[|flag| - 1] == 'r';
    SingleFlag(flag);
  }

  /** A text without commas and without white space at either end names just itself. */
  lemma SingleFlag(flag: string)
    requires ',' !in flag && |flag| > 0 && !IsJsSpace(flag[0]) && !IsJsSpace(flag[|flag| - 1])
    ensures EnvFlagList(EnvText(flag)) == [flag]
  {
    var parts := Split(flag, ',');
    assert parts == [flag] by {
      SplitWithout(flag, ',');
    }
    var trimmed := TrimAll(parts);
    assert trimmed == [flag] by {
      TrimUnspaced(flag);
      assert trimmed[0] == Trim(flag);
    }
    assert NonEmpty(trimmed) == [flag] by {
      assert trimmed[0] != "";
      assert trimmed[1..] == [];
    }
  }

  /** `--env no-browser` on a map without an env keeps `browser`. */
  lemma GetEnvNoBrowserAsWritten()
    ensures GetEnvAsWritten(None, ["no-browser"]) == ["browser", "development", "module"]
  {
    NoBrowserSplit();
    assert RemoveEach(["development", "browser", "module"], ["no-browser"]) == ["development", "browser", "module"];
    SortStartEnv();
    assert SortStrings(["browser", "development", "module"]) == ["browser", "development", "module"] by {
      assert StrLe("browser", "development") && StrLe("development", "module");
      assert SortStrings(["development", "module"]) == ["development", "module"];
    }
    StaticSteps(["browser", "development", "module"]);
  }

  /** The flag `no-browser` is negated, and nothing else is asked for. */
  lemma NoBrowserSplit()
    ensures Negated(["no-browser"], true) == ["no-browser"] && Negated(["no-browser"], false) == []
  {
    assert StartsWith("no-browser", "no-");
  }

  /** The default env list, sorted. */
  lemma SortStartEnv()
    ensures SortStrings(["development", "browser", "module"]) == ["browser", "development", "module"]
  {
    var s := ["development", "browser", "module"];
    assert s[1..] == ["browser", "module"] && s[1..][1..] == ["module"];
    assert SortStrings(["module"]) == ["module"];
    assert StrLe("browser", "module");
    assert SortStrings(["browser", "module"]) == ["browser", "module"];
    assert !StrLe("development", "browser") && StrLe("development", "module");
  }

  /** A sorted list of static envs goes through an empty `addEnvs` and the static filter unchanged. */
  lemma StaticSteps(env: seq<string>)
    requires SortStrings(env) == env
    requires forall k :: 0 <= k < |env| ==> !IsNonStaticKey(env[k])
    ensures RemoveNonStaticEnvKeys(AddEnvsResult(env, [])) == env
  {
    assert Pruned(Pushed(env, []), ExcludesOf([]), []) == env;
    RemoveNonStaticNone(env);
  }

  /** The names a negated flag asks to remove, with the `no-` prefix cut off. */
  function StripNo(names: seq<string>): (r: seq<string>)
    requires forall y :: y in names ==> StartsWith(y, "no-")
    ensures |r| == |names| && forall k :: 0 <= k < |names| ==> names[k] == "no-" + r[k]
  {
    if |names| == 0 then []
    else
      assert names[0] in names && StartsWith(names[0], "no-");
      assert names[0] == names[0][..3] + names[0][3..] && names[0][..3] == "no-";
      assert forall y :: y in names[1..] ==> y in names;
      [names[0][3..]] + StripNo(names[1..])
  }

  /** The names of the `no-` flags, prefix cut off. */
  function NegatedNames(names: seq<string>): seq<string>
  {
    forall y | y in Negated(names, true) ensures StartsWith(y, "no-") { NegatedMember(names, true, y); }
    StripNo(Negated(names, true))
  }

  /** `getEnv(flags)` with the `no-` prefix cut off before the names are removed. */
  function GetEnvCorrected(inputEnv: Option<seq<string>>, names: seq<string>): seq<string>
  {
    RemoveNonStaticEnvKeys(AddEnvsResult(
      SortStrings(RemoveEach(StartEnv(inputEnv), NegatedNames(names))),
      Negated(names, false)))
  }

  /**
   * Corrected, a `no-x` flag removes `x` from an env list without repeats
   * unless a positive flag asks for `x` again.
   */
  lemma GetEnvCorrectedRemoves(inputEnv: Option<seq<string>>, names: seq<string>, x: string)
    requires NoDup(StartEnv(inputEnv))
    requires "no-" + x in names && x !in names
    ensures x !in GetEnvCorrected(inputEnv, names)
  {
    var negs := Negated(names, true);
    var neg := NegatedNames(names);
    assert StartsWith("no-" + x, "no-");
    NegatedMember(names, true, "no-" + x);
    var k :| 0 <= k < |negs| && negs[k] == "no-" + x;
    assert neg[k] == x by {
      assert negs[k] == "no-" + neg[k];
      assert ("no-" + neg[k])[3..] == neg[k] && ("no-" + x)[3..] == x;
    }
    var start := StartEnv(inputEnv);
    RemoveEachNoDup(start, neg);
    var removed := RemoveEach(start, neg);
    SortStringsMembers(removed, x);
    SortStringsNoDup(removed);
    var sorted := SortStrings(removed);
    NegatedMember(names, false, x);
    AddEnvsMembers(sorted, Negated(names, false));
    RemoveNonStaticMember(AddEnvsResult(sorted, Negated(names, false)), x);
  }

  /** Corrected, `--env no-browser` on a map without an env drops `browser`. */
  lemma GetEnvNoBrowserCorrected()
    ensures GetEnvCorrected(None, ["no-browser"]) == ["development", "module"]
  {
    NoBrowserSplit();
    assert NegatedNames(["no-browser"]) == ["browser"];
    assert RemoveEach(["development", "browser", "module"], ["browser"]) == ["development", "module"];
    assert SortStrings(["development", "module"]) == ["development", "module"] by {
      assert StrLe("development", "module");
    }
    StaticSteps(["development", "module"]);
  }

  // -------------------------------------------------------- parsePackageSpec

  /**
   * `parsePackageSpec(target)`: the text before the first `@` that is not
   * the leading scope marker.
   */
  function ParsePackageSpec(target: string): string
  {
    if StartsWith(target, "@") then "@" + Split(target[1..], '@')[0]
    else Split(target, '@')[0]
  }

  /**
   * The name is a prefix of the target holding no `@` but the scope
   * marker, which it keeps.
   */
  lemma ParsePackageSpecShape(target: string)
    ensures StartsWith(target, ParsePackageSpec(target))
    ensures |ParsePackageSpec(target)| >= 1 ==> '@' !in ParsePackageSpec(target)[1..]
    ensures |target| > 0 && target[0] == '@' ==> |ParsePackageSpec(target)| >= 1 && ParsePackageSpec(target)[0] == '@'
  {
    if StartsWith(target, "@") {
      var name := Split(target[1..], '@')[0];
      SplitFirstPrefix(target[1..], '@');
      assert target == "@" + target[1..];
      assert ("@" + name)[1..] == name;
    } else {
      var name := Split(target, '@')[0];
      SplitFirstPrefix(target, '@');
      if |name| >= 1 {
        assert '@' !in name;
        assert forall k :: 0 <= k < |name[1..]| ==> name[1..][k] == name[k + 1];
      }
    }
  }

  /** A text holding `c` splits into at least two pieces, the first of them with `c` after it a prefix of the text. */
  lemma SplitFirst(s: string, c: char)
    requires c in s
    ensures |Split(s, c)| >= 2 && Split(s, c)[0] + [c] <= s
  {
    var i := IndexOf(s, c);
    var a, b := s[..i], s[i + 1..];
    assert s == a + [c] + b;
    SplitAt(a, b, c);
  }

  /** The first piece of a split is a prefix of the text. */
  lemma SplitFirstPrefix(s: string, c: char)
    ensures Split(s, c)[0] <= s
  {
    var i := IndexOf(s, c);
    if i >= 0 {
      assert Split(s, c)[0] == s[..i];
    }
  }

  /** A package name: at least one character, and no `@` but a leading scope marker. */
  predicate PackageName(name: string)
  {
    |name| >= 1 && '@' !in name[1..]
  }

  /** The name comes back from `name@range`, and from a bare name. */
  lemma ParsePackageSpecName(name: string, range: string)
    requires PackageName(name)
    ensures ParsePackageSpec(name + "@" + range) == name
    ensures ParsePackageSpec(name) == name
  {
    var rest := name[1..];
    assert name == [name[0]] + rest;
    if name[0] == '@' {
      ScopedSpecName(rest, range);
    } else {
      assert '@' !in name;
      PlainSpecName(name, range);
    }
  }

  /** `@rest@range` and `@rest` both give `@rest`. */
  lemma ScopedSpecName(rest: string, range: string)
    requires '@' !in rest
    ensures ParsePackageSpec("@" + rest + "@" + range) == "@" + rest
    ensures ParsePackageSpec("@" + rest) == "@" + rest
  {
    var s := "@" + rest + "@" + range;
    assert StartsWith(s, "@") && s[1..] == rest + ['@'] + range;
    SplitAt(rest, range, '@');
    var t := "@" + rest;
    assert StartsWith(t, "@") && t[1..] == rest;
    SplitWithout(rest, '@');
  }

  /** `name@range` and `name` both give `name` for a name without `@`. */
  lemma PlainSpecName(name: string, range: string)
    requires '@' !in name && |name| >= 1
    ensures ParsePackageSpec(name + "@" + range) == name
    ensures ParsePackageSpec(name) == name
  {
    var s := name + "@" + range;
    assert s[0] == name[0] && !StartsWith(s, "@");
    assert s == name + ['@'] + range;
    SplitAt(name, range, '@');
    assert !StartsWith(name, "@");
    SplitWithout(name, '@');
  }

  // ---------------------------------------------------------- getResolutions

  /** `Object.fromEntries(pairs)`: each pair set in turn, a repeated key overwriting the earlier value in place. */
  function FromEntries(pairs: seq<(string, string)>): Dict<string>
  {
    if |pairs| == 0 then []
    else Put(FromEntries(pairs[..|pairs| - 1]), pairs[|pairs| - 1].0, pairs[|pairs| - 1].1)
  }

  /** An object has each key once. */
  lemma {:induction false} FromEntriesDistinct(pairs: seq<(string, string)>)
    ensures DistinctKeys(FromEntries(pairs))
  {
    if |pairs| > 0 {
      FromEntriesDistinct(pairs[..|pairs| - 1]);
      PutDistinct(FromEntries(pairs[..|pairs| - 1]), pairs[|pairs| - 1].0, pairs[|pairs| - 1].1);
    }
  }

  /** Every key reads the value of its last pair. */
  lemma {:induction false} FromEntriesGet(pairs: seq<(string, string)>, key: string)
    ensures Get(FromEntries(pairs), key) == Latest(pairs, key)
  {
    if |pairs| > 0 {
      var init := pairs[..|pairs| - 1];
      var last := pairs[|pairs| - 1];
      FromEntriesGet(init, key);
      GetPut(FromEntries(init), last.0, last.1, key);
      assert Latest(pairs, key) == if last.0 == key then Some(last.1) else Latest(init, key);
    }
  }

  /** `resolution.split('=')` read as an entry: the text before the first `=` and the text between it and the next. */
  function Mapping(resolution: string): (p: (string, string))
    requires '=' in resolution
    ensures p.0 + "=" <= resolution
    ensures '=' !in p.0 && '=' !in p.1
  {
    SplitFirst(resolution, '=');
    (Split(resolution, '=')[0], Split(resolution, '=')[1])
  }

  /** Every entry contains `=`. */
  predicate AllMappings(entries: seq<string>)
  {
    forall k :: 0 <= k < |entries| ==> '=' in entries[k]
  }

  function Mappings(entries: seq<string>): (r: seq<(string, string)>)
    requires AllMappings(entries)
    ensures |r| == |entries| && forall k :: 0 <= k < |entries| ==> r[k] == Mapping(entries[k])
  {
    if |entries| == 0 then [] else [Mapping(entries[0])] + Mappings(entries[1..])
  }

  /** The error src/utils.ts raises for an entry without `=` (its bold styling left out). */
  const ResolutionsMessage := "Resolutions must be mappings from aliases to targets, for example of the form --resolution pkg=x.y.z"

  /** `Object.fromEntries` of the entries' mappings, or the given error when one lacks `=`. */
  function ResolutionMap(entries: seq<string>, message: string): (r: Result<Dict<string>>)
    ensures r.Err? <==> !AllMappings(entries)
    ensures r.Err? ==> r.error == JspmError(message, "")
    ensures r.Ok? ==> DistinctKeys(r.value)
  {
    if AllMappings(entries) then
      FromEntriesDistinct(Mappings(entries));
      Ok(FromEntries(Mappings(entries)))
    else Err(JspmError(message, ""))
  }

  /**
   * `getResolutions(flags)` of src/utils.ts: nothing without a (non-empty)
   * flag; otherwise the trimmed comma-separated entries as alias mappings.
   */
  function GetResolutions(resolution: Option<string>): (r: Result<Option<Dict<string>>>)
    ensures resolution.None? || resolution.value == "" <==> r == Ok(None)
    ensures r.Err? <==> resolution.Some? && resolution.value != "" && !AllMappings(TrimAll(Split(resolution.value, ',')))
    ensures r.Err? ==> r.error == JspmError(ResolutionsMessage, "")
  {
    if resolution.None? || resolution.value == "" then Ok(None)
    else
      match ResolutionMap(TrimAll(Split(resolution.value, ',')), ResolutionsMessage)
      case Ok(d) => Ok(Some(d))
      case Err(e) => Err(e)
  }

  /** Each alias reads the target of its last entry. */
  lemma GetResolutionsGet(text: string, alias: string)
    requires text != "" && AllMappings(TrimAll(Split(text, ',')))
    ensures GetResolutions(Some(text)).Ok? && GetResolutions(Some(text)).value.Some?
    ensures Get(GetResolutions(Some(text)).value.value, alias) == Latest(Mappings(TrimAll(Split(text, ','))), alias)
  {
    FromEntriesGet(Mappings(TrimAll(Split(text, ','))), alias);
  }
}
