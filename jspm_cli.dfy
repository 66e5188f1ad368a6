/**
 * The flag readers of the Deno command line (src/jspm.js): `getEnv`
 * edits a fixed starting environment list name by name, splicing with
 * `indexOf`, and `getResolutions` reads `--resolution` pairs.
 */
module JspmCli {
  import opened Wrappers
  import opened Strings
  import opened Manifest
  import EnvUtils

  // ------------------------------------------------------------------ splice

  /** `s.indexOf(x)` on an array: the first position holding `x`, or -1. */
  function IndexIn(s: seq<string>, x: string): (r: int)
    ensures -1 <= r < |s|
    ensures r >= 0 ==> s[r] == x && x !in s[..r]
    ensures r == -1 <==> x !in s
  {
    if |s| == 0 then -1
    else if s[0] == x then 0
    else
      assert s == [s[0]] + s[1..];
      assert forall k :: 0 <= k < |s| - 1 ==> s[1..][k] == s[k + 1];
      if IndexIn(s[1..], x) == -1 then -1 else IndexIn(s[1..], x) + 1
  }

  /**
   * `s.splice(start, 1)`: a negative start counts from the end (and is
   * clamped at 0); the element at the resulting position, if any, is cut.
   */
  function SpliceOne(s: seq<string>, start: int): (r: seq<string>)
    ensures |s| > 0 && -1 <= start < |s| ==> |r| == |s| - 1
    ensures |s| == 0 ==> r == []
    ensures forall y :: y in r ==> y in s
  {
    if start < 0 && |s| + start >= 0 then s[..|s| + start] + s[|s| + start + 1..]
    else if start < 0 then (if |s| == 0 then s else s[1..])
    else if start < |s| then s[..start] + s[start + 1..]
    else s
  }

  /** `s.splice(s.indexOf(x), 1)`, with no check that `x` is there. */
  function SpliceOut(s: seq<string>, x: string): seq<string>
  {
    SpliceOne(s, IndexIn(s, x))
  }

  /** Cutting the first occurrence of `x`, at position `k`, is what `RemoveFirst` does. */
  lemma {:induction false} RemoveFirstAt(s: seq<string>, x: string, k: nat)
    requires k < |s| && s[k] == x && x !in s[..k]
    ensures EnvUtils.RemoveFirst(s, x) == s[..k] + s[k + 1..]
  {
    if k > 0 {
      assert s[0] != x by { assert s[..k][0] == s[0]; }
      assert s[..k] == [s[0]] + s[1..][..k - 1];
      RemoveFirstAt(s[1..], x, k - 1);
      assert s[k + 1..] == s[1..][k..];
    }
  }

  /** When `x` is present, the splice removes its first occurrence. */
  lemma SpliceOutPresent(s: seq<string>, x: string)
    requires x in s
    ensures SpliceOut(s, x) == EnvUtils.RemoveFirst(s, x)
  {
    var k := IndexIn(s, x);
    RemoveFirstAt(s, x, k);
  }

  /** When `x` is absent, `indexOf` gives -1 and the splice cuts the last element. */
  lemma SpliceOutAbsent(s: seq<string>, x: string)
    requires x !in s && |s| > 0
    ensures SpliceOut(s, x) == s[..|s| - 1]
  {
  }

  // ------------------------------------------------------------------ getEnv

  /** The env `getEnv` starts from. */
  const InitialEnv: seq<string> := ["development", "deno", "node"]

  /** `envFlags`: an array as given, otherwise the trimmed comma-separated pieces of the flag; an absent flag reads as `''`, whose one piece is empty. */
  function EnvFlagNames(flags: EnvUtils.EnvFlags): seq<string>
  {
    match flags
    case EnvArray(items) => items
    case EnvText(text) => EnvUtils.TrimAll(Split(text, ','))
    case NoEnv => [""]
  }

  /**
   * The flag names after the implied ones are pushed: `browser` when the
   * command targets the browser and neither `browser` nor `no-browser` is
   * given, then `module` when `browser` is there and `no-module` is not.
   */
  function WithImplied(names: seq<string>, browser: bool): (r: seq<string>)
    ensures names <= r && |r| <= |names| + 2
  {
    var withBrowser := if browser && "browser" !in names && "no-browser" !in names then names + ["browser"] else names;
    if "browser" in withBrowser && "no-module" !in withBrowser then withBrowser + ["module"] else withBrowser
  }

  /** The names the switch does something special with; any other name is appended. */
  predicate Recognised(name: string)
  {
    name in ["no-deno", "no-module", "no-node", "no-browser", "browser", "production", "node", "deno", "development", "module"]
  }

  /** The four names of the `no-` case of the switch. */
  predicate Negating(name: string)
  {
    name == "no-deno" || name == "no-module" || name == "no-node" || name == "no-browser"
  }

  /**
   * One pass of the loop's `switch` as written. The `no-` case looks up
   * `name.slice(2)`, which keeps the dash (`-deno` for `no-deno`).
   */
  function Step(env: seq<string>, name: string): (r: seq<string>)
    ensures |r| <= |env| + 1
    ensures forall y :: y in r ==> y in env || y in ["browser", "production"] || (y == name && !Recognised(name))
  {
    if Negating(name) then SpliceOut(env, name[2..])
    else if name == "browser" then SpliceOut(SpliceOut(env, "deno"), "node") + ["browser"]
    else if name == "production" then SpliceOut(env, "development") + ["production"]
    else if name == "node" then SpliceOut(env, "deno")
    else if name == "deno" || name == "development" || name == "module" then env
    else env + [name]
  }

  /**
   * The env after the loop over `names`: no longer than the start and the
   * names together, and holding only the starting envs, `browser`,
   * `production` and the unrecognised flag names.
   */
  function EnvAfter(env: seq<string>, names: seq<string>): (r: seq<string>)
    ensures |r| <= |env| + |names|
    ensures forall y :: y in r ==> y in env || y in ["browser", "production"] || (y in names && !Recognised(y))
  {
    if |names| == 0 then env else Step(EnvAfter(env, names[..|names| - 1]), names[|names| - 1])
  }

  /** `getEnv(flags, browser)`. */
  method GetEnv(flags: EnvUtils.EnvFlags, browser: bool) returns (env: seq<string>)
    ensures env == EnvAfter(InitialEnv, WithImplied(EnvFlagNames(flags), browser))
  {
    env := InitialEnv;
    var envFlags := EnvFlagNames(flags);
    envFlags := PushImplied(envFlags, browser);
    for i := 0 to |envFlags|
      invariant env == EnvAfter(InitialEnv, envFlags[..i])
    {
      EnvAfterSnoc(InitialEnv, envFlags, i);
      env := ApplyName(env, envFlags[i]);
    }
    assert envFlags[..|envFlags|] == envFlags;
  }

  /** The two pushes before the loop. */
  method PushImplied(names: seq<string>, browser: bool) returns (r: seq<string>)
    ensures r == WithImplied(names, browser)
  {
    r := names;
    if browser && "browser" !in r && "no-browser" !in r {
      r := r + ["browser"];
    }
    if "browser" in r && "no-module" !in r {
      r := r + ["module"];
    }
  }

  lemma EnvAfterSnoc(env: seq<string>, names: seq<string>, i: nat)
    requires i < |names|
    ensures EnvAfter(env, names[..i + 1]) == Step(EnvAfter(env, names[..i]), names[i])
  {
    assert names[..i + 1][..i] == names[..i];
  }

  /** The loop body: the `switch` on one flag name. */
  method ApplyName(env: seq<string>, name: string) returns (r: seq<string>)
    ensures r == Step(env, name)
  {
    r := env;
    if Negating(name) {
      r := SpliceOne(r, IndexIn(r, name[2..]));
    } else if name == "browser" {
      r := SpliceOne(r, IndexIn(r, "deno"));
      r := SpliceOne(r, IndexIn(r, "node"));
      r := r + ["browser"];
    } else if name == "production" {
      r := SpliceOne(r, IndexIn(r, "development"));
      r := r + ["production"];
    } else if name == "node" {
      r := SpliceOne(r, IndexIn(r, "deno"));
    } else if name == "deno" || name == "development" || name == "module" {
    } else {
      r := r + [name];
    }
  }

  /** A browser command gets `browser` unless told `no-browser`, and then `module` unless told `no-module`. */
  lemma ImpliedBrowser(names: seq<string>)
    requires "no-browser" !in names
    ensures "browser" in WithImplied(names, true)
    ensures "no-module" !in names ==> "module" in WithImplied(names, true)
    ensures "no-browser" !in WithImplied(names, true)
  {
  }

  /** `module`, `deno` and `development` never change the env, wherever they appear. */
  lemma {:induction false} NoOpNames(env: seq<string>, names: seq<string>)
    requires forall k :: 0 <= k < |names| ==> names[k] in ["module", "deno", "development"]
    ensures EnvAfter(env, names) == env
  {
    if |names| > 0 {
      var last := names[|names| - 1];
      NoOpNames(env, names[..|names| - 1]);
      assert last in ["module", "deno", "development"];
      assert Step(env, last) == env;
    }
  }

  /** Names the switch does not know are appended in the order given. */
  lemma {:induction false} UnrecognisedAppended(env: seq<string>, names: seq<string>)
    requires forall k :: 0 <= k < |names| ==> !Recognised(names[k])
    ensures EnvAfter(env, names) == env + names
  {
    if |names| > 0 {
      var init := names[..|names| - 1];
      UnrecognisedAppended(env, init);
      assert names == init + [names[|names| - 1]];
    }
  }

  /** Without flags and outside the browser, the env is the starting list. */
  lemma GetEnvPlain()
    ensures EnvAfter(InitialEnv, WithImplied(EnvFlagNames(EnvUtils.EnvArray([])), false)) == ["development", "deno", "node"]
  {
  }

  /**
   * Without an env flag the pieces of `''` are one empty name, which is
   * appended: the env ends in an empty string.
   */
  lemma GetEnvNoFlag()
    ensures EnvFlagNames(EnvUtils.NoEnv) == EnvFlagNames(EnvUtils.EnvText("")) == [""]
    ensures EnvAfter(InitialEnv, WithImplied(EnvFlagNames(EnvUtils.NoEnv), false)) == ["development", "deno", "node", ""]
  {
    SplitWithout("", ',');
    assert Trim("") == "";
    assert EnvUtils.TrimAll([""]) == [""];
    assert !Recognised("");
    assert [""][..0] == [];
  }

  /** `production` takes out `development` and appends `production`. */
  lemma ProductionStep(env: seq<string>)
    requires "development" in env
    ensures Step(env, "production") == EnvUtils.RemoveFirst(env, "development") + ["production"]
  {
    SpliceOutPresent(env, "development");
  }

  /** `browser` takes out `deno` and `node` and appends `browser`. */
  lemma BrowserStep(env: seq<string>)
    requires "deno" in env && "node" in env && "deno" != "node"
    ensures Step(env, "browser") == EnvUtils.RemoveFirst(EnvUtils.RemoveFirst(env, "deno"), "node") + ["browser"]
  {
    SpliceOutPresent(env, "deno");
    EnvUtils.RemoveFirstKeeps(env, "deno", "node");
    SpliceOutPresent(EnvUtils.RemoveFirst(env, "deno"), "node");
  }

  /**
   * A browser command without env flags: `browser` and `module` are
   * implied, `browser` leaves development and browser, and `module`
   * changes nothing.
   */
  lemma GetEnvBrowser()
    ensures WithImplied([], true) == ["browser", "module"]
    ensures EnvAfter(InitialEnv, ["browser", "module"]) == ["development", "browser"]
  {
    assert ["browser", "module"][..1] == ["browser"];
    BrowserOnly();
    assert Step(["development", "browser"], "module") == ["development", "browser"];
  }

  lemma BrowserOnly()
    ensures EnvAfter(InitialEnv, ["browser"]) == ["development", "browser"]
  {
    assert ["browser"][..0] == [];
    BrowserFromInitial();
  }

  lemma BrowserNoNode()
    ensures EnvAfter(InitialEnv, ["browser", "no-node"]) == ["development"]
  {
    assert ["browser", "no-node"][..1] == ["browser"];
    BrowserOnly();
    NoNodeAfterBrowser();
  }

  /** From the starting env, `browser` leaves `development` and `browser`. */
  lemma BrowserFromInitial()
    ensures Step(InitialEnv, "browser") == ["development", "browser"]
  {
    assert SpliceOut(InitialEnv, "deno") == ["development", "node"];
  }

  /** `no-node` after `browser`: `-node` is not in the env, so the splice cuts `browser`. */
  lemma NoNodeAfterBrowser()
    ensures Step(["development", "browser"], "no-node") == ["development"]
  {
    assert "no-node"[2..] == "-node";
    SpliceOutAbsent(["development", "browser"], "-node");
  }

  /**
   * A `no-` name takes out the first `-x` when the env holds one (only an
   * unrecognised `-x` flag can have put it there), and otherwise cuts the
   * last env, whatever it is.
   */
  lemma NegatingStep(env: seq<string>, name: string)
    requires Negating(name)
    ensures name[2..] == "-" + name[3..]
    ensures name[2..] in env ==> Step(env, name) == EnvUtils.RemoveFirst(env, name[2..])
    ensures name[2..] !in env && |env| > 0 ==> Step(env, name) == env[..|env| - 1]
    ensures name[2..] !in env && |env| == 0 ==> Step(env, name) == []
  {
    if name[2..] in env {
      SpliceOutPresent(env, name[2..]);
    } else if |env| > 0 {
      SpliceOutAbsent(env, name[2..]);
    }
  }

  /**
   * As written, when no flag names `-x`, a `no-` name always cuts the last
   * env: `--env no-deno` keeps `deno` and takes out `node`.
   */
  lemma NoDenoAsWritten()
    ensures WithImplied(["no-deno"], false) == ["no-deno"]
    ensures EnvAfter(InitialEnv, ["no-deno"]) == ["development", "deno"]
  {
    assert ["no-deno"][..0] == [];
    NegatingStep(InitialEnv, "no-deno");
  }

  /**
   * As written, a `no-` name cuts the last env of a non-empty env when no
   * earlier flag was the unrecognised name `-x`.
   */
  lemma NegatingCutsLast(names: seq<string>, name: string)
    requires Negating(name) && name[2..] !in names
    requires |EnvAfter(InitialEnv, names)| > 0
    ensures EnvAfter(InitialEnv, names + [name]) == EnvAfter(InitialEnv, names)[..|EnvAfter(InitialEnv, names)| - 1]
  {
    var env := EnvAfter(InitialEnv, names);
    assert EnvAfter(InitialEnv, names + [name]) == Step(env, name) by {
      EnvAfterAppend(InitialEnv, names, name);
    }
    assert Step(env, name) == env[..|env| - 1] by {
      NegatingDash(name);
      DashedAbsent(names, name[2..]);
      CutsLast(env, name);
    }
  }

  /** A `no-x` name whose `-x` is absent cuts the last env. */
  lemma CutsLast(env: seq<string>, name: string)
    requires Negating(name) && name[2..] !in env && |env| > 0
    ensures Step(env, name) == env[..|env| - 1]
  {
    SpliceOutAbsent(env, name[2..]);
  }

  /** The loop over one more name is one more step. */
  lemma EnvAfterAppend(env: seq<string>, names: seq<string>, name: string)
    ensures EnvAfter(env, names + [name]) == Step(EnvAfter(env, names), name)
  {
    assert (names + [name])[..|names|] == names;
  }

  /** What a `no-` name looks up starts with a dash. */
  lemma NegatingDash(name: string)
    requires Negating(name)
    ensures |name[2..]| > 0 && name[2..][0] == '-'
  {
    if name == "no-deno" {
      assert name[2..] == "-deno";
    } else if name == "no-module" {
      assert name[2..] == "-module";
    } else if name == "no-node" {
      assert name[2..] == "-node";
    } else {
      assert name[2..] == "-browser";
    }
  }

  /** A name starting with `-` that no flag gave is never in the env. */
  lemma DashedAbsent(names: seq<string>, x: string)
    requires |x| > 0 && x[0] == '-' && x !in names
    ensures x !in EnvAfter(InitialEnv, names)
  {
  }


  /**
   * As written, `no-node` looks up `-node`, which is not in the env, so it
   * splices at -1 and cuts the last element: `browser,no-node` takes out
   * `browser` itself.
   */
  lemma BrowserNoNodeAsWritten()
    ensures WithImplied(["browser", "no-node"], false) == ["browser", "no-node", "module"]
    ensures EnvAfter(InitialEnv, ["browser", "no-node", "module"]) == ["development"]
  {
    assert ["browser", "no-node", "module"][..2] == ["browser", "no-node"];
    BrowserNoNode();
    assert Step(["development"], "module") == ["development"];
  }

  // -------------------------------------------------------- corrected getEnv

  /** `s.splice(s.indexOf(x), 1)` only when `x` is present. */
  function SpliceOutIfPresent(s: seq<string>, x: string): seq<string>
  {
    if x in s then SpliceOut(s, x) else s
  }

  /** The envs a name asks to take out. */
  function Removes(name: string): seq<string>
  {
    if name == "no-deno" || name == "no-module" || name == "no-node" || name == "no-browser" then [name[3..]]
    else if name == "browser" then ["deno", "node"]
    else if name == "production" then ["development"]
    else if name == "node" then ["deno"]
    else []
  }

  /** One pass of the switch with every splice guarded by `includes`. */
  function StepCorrected(env: seq<string>, name: string): seq<string>
  {
    if name == "no-deno" || name == "no-module" || name == "no-node" || name == "no-browser" then SpliceOutIfPresent(env, name[3..])
    else if name == "browser" then SpliceOutIfPresent(SpliceOutIfPresent(env, "deno"), "node") + ["browser"]
    else if name == "production" then SpliceOutIfPresent(env, "development") + ["production"]
    else if name == "node" then SpliceOutIfPresent(env, "deno")
    else if name == "deno" || name == "development" || name == "module" then env
    else env + [name]
  }

  function EnvAfterCorrected(env: seq<string>, names: seq<string>): seq<string>
  {
    if |names| == 0 then env else StepCorrected(EnvAfterCorrected(env, names[..|names| - 1]), names[|names| - 1])
  }

  /** A guarded splice keeps every other env. */
  lemma SpliceOutIfPresentKeeps(s: seq<string>, x: string, y: string)
    requires y in s && y != x
    ensures y in SpliceOutIfPresent(s, x)
  {
    if x in s {
      SpliceOutPresent(s, x);
      EnvUtils.RemoveFirstKeeps(s, x, y);
    }
  }

  /** Corrected, a step only takes out the envs its name asks to take out. */
  lemma StepCorrectedKeeps(env: seq<string>, name: string, y: string)
    requires y in env && y !in Removes(name)
    ensures y in StepCorrected(env, name)
  {
    if name == "no-deno" || name == "no-module" || name == "no-node" || name == "no-browser" {
      SpliceOutIfPresentKeeps(env, name[3..], y);
    } else if name == "browser" {
      SpliceOutIfPresentKeeps(env, "deno", y);
      SpliceOutIfPresentKeeps(SpliceOutIfPresent(env, "deno"), "node", y);
    } else if name == "production" {
      SpliceOutIfPresentKeeps(env, "development", y);
    } else if name == "node" {
      SpliceOutIfPresentKeeps(env, "deno", y);
    }
  }

  /** Corrected, an env stays unless some name asks to take it out. */
  lemma {:induction false} EnvAfterCorrectedKeeps(env: seq<string>, names: seq<string>, y: string)
    requires y in env && forall k :: 0 <= k < |names| ==> y !in Removes(names[k])
    ensures y in EnvAfterCorrected(env, names)
  {
    if |names| > 0 {
      var init := names[..|names| - 1];
      EnvAfterCorrectedKeeps(env, init, y);
      StepCorrectedKeeps(EnvAfterCorrected(env, init), names[|names| - 1], y);
    }
  }

  lemma BrowserFromInitialCorrected()
    ensures StepCorrected(InitialEnv, "browser") == ["development", "browser"]
  {
    assert SpliceOutIfPresent(InitialEnv, "deno") == ["development", "node"];
  }

  lemma NoNodeAfterBrowserCorrected()
    ensures StepCorrected(["development", "browser"], "no-node") == ["development", "browser"]
  {
    assert "no-node"[3..] == "node";
    assert "node" !in ["development", "browser"];
  }

  lemma BrowserOnlyCorrected()
    ensures EnvAfterCorrected(InitialEnv, ["browser"]) == ["development", "browser"]
  {
    assert ["browser"][..0] == [];
    BrowserFromInitialCorrected();
  }

  lemma BrowserNoNodeKept()
    ensures EnvAfterCorrected(InitialEnv, ["browser", "no-node"]) == ["development", "browser"]
  {
    assert ["browser", "no-node"][..1] == ["browser"];
    BrowserOnlyCorrected();
    NoNodeAfterBrowserCorrected();
  }

  /** Corrected, `browser,no-node` keeps `browser`. */
  lemma BrowserNoNodeCorrected()
    ensures EnvAfterCorrected(InitialEnv, ["browser", "no-node", "module"]) == ["development", "browser"]
  {
    assert ["browser", "no-node", "module"][..2] == ["browser", "no-node"];
    BrowserNoNodeKept();
    assert StepCorrected(["development", "browser"], "module") == ["development", "browser"];
  }

  /** Corrected, `--env no-deno` takes out `deno` and keeps `node`. */
  lemma NoDenoCorrected()
    ensures EnvAfterCorrected(InitialEnv, ["no-deno"]) == ["development", "node"]
  {
    assert ["no-deno"][..0] == [];
    assert "no-deno"[3..] == "deno";
    assert SpliceOut(InitialEnv, "deno") == ["development", "node"];
  }

  // ---------------------------------------------------------- getResolutions

  /** The `resolution` flag: absent, one string, or an array of strings. */
  datatype ResolutionFlag = NoResolution | ResolutionText(text: string) | ResolutionArray(items: seq<string>)

  const ResolutionsMessage := "Resolutions must be mappings from aliases to targets, for example of the form \"--resolution pkg=x.y.z\""

  /**
   * `getResolutions(flags)`: nothing for an absent or empty flag; otherwise
   * each given string (untrimmed, not split at commas) must contain `=`,
   * and the map sends each alias to the target of its last entry.
   */
  function GetResolutions(flag: ResolutionFlag): (r: Result<Option<Dict<string>>>)
    ensures flag.NoResolution? || flag == ResolutionText("") <==> r == Ok(None)
    ensures r.Err? ==> r.error == JspmError(ResolutionsMessage, "")
    ensures flag.ResolutionArray? ==> (r.Err? <==> !EnvUtils.AllMappings(flag.items))
    ensures flag.ResolutionText? && flag.text != "" ==> (r.Err? <==> '=' !in flag.text)
    ensures r.Ok? && r.value.Some? ==> DistinctKeys(r.value.value)
  {
    match flag
    case NoResolution => Ok(None)
    case ResolutionText(text) =>
      if text == "" then Ok(None)
      else
        assert [text][0] == text;
        assert EnvUtils.AllMappings([text]) <==> '=' in text;
        Present(EnvUtils.ResolutionMap([text], ResolutionsMessage))
    case ResolutionArray(items) => Present(EnvUtils.ResolutionMap(items, ResolutionsMessage))
  }

  /** A map read from the flag, or the error reading it. */
  function Present(m: Result<Dict<string>>): (r: Result<Option<Dict<string>>>)
    ensures r.Err? <==> m.Err?
    ensures m.Err? ==> r.error == m.error
    ensures m.Ok? ==> r == Ok(Some(m.value))
  {
    match m
    case Ok(d) => Ok(Some(d))
    case Err(e) => Err(e)
  }

  /** A single `alias=target` flag maps the alias to the target. */
  lemma GetResolutionsSingle(alias: string, target: string)
    requires '=' !in alias && '=' !in target
    ensures GetResolutions(ResolutionText(alias + "=" + target)) == Ok(Some([(alias, target)]))
  {
    var s := alias + "=" + target;
    assert s == alias + ['='] + target;
    assert s[|alias|] == '=';
    SplitAt(alias, target, '=');
    SplitWithout(target, '=');
    assert EnvUtils.Mappings([s]) == [(alias, target)];
    assert EnvUtils.FromEntries([(alias, target)]) == Put([], alias, target);
  }
}
