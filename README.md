# jspm core, modelled in Dafny

This project models the core of jspm, the import-map package manager. The model covers:

- how a package target (`npm:react@^17`) is parsed;
- how a version range is resolved against a CDN provider (jspm.io, nest.land, deno.land);
- how the resolutions lockfile is kept, loaded and saved;
- how the installer decides what to install;
- how module graphs are traced into an import map (`src/tracemap/tracemap.ts`);
- how the older `TraceMap` class edits, flattens and traces a map (`src/tracemap.ts`);
- the small utilities around them: the HTML `<script>` lexer, JSON style detection, environment lists, the `list` and `rem` commands, and text framing.

Each source file of the core is one Dafny module, in a file of its own:

| module | file | source |
|---|---|---|
| `Wrappers` | wrappers.dfy | `Option`/`Result` and the error kinds of `src/common/err.ts` |
| `Strings`, `Sorting` | strings.dfy, sorting.dfy | the JavaScript string and array built-ins the core uses (`indexOf`, `split`, `join`, `startsWith`, `trim`, `Array.prototype.sort`) |
| `Urls`, `Fetch` | urls.dfy, fetch.dfy | the URL parser, `fetch` and the semver library, as oracles passed in as parameters |
| `Package` | package.dfy | src/install/package.ts |
| `JspmIo`, `NestLand`, `DenoLand`, `RangeLookup` | jspm_io.dfy, nest_land.dfy, deno_land.dfy, range_lookup.dfy | src/providers/*.ts, and the per-kind lookup memo shared by jspm.io and the resolver |
| `Lock` | lock.dfy | src/install/lock.ts |
| `Exports`, `ExportsMap`, `ExportsFilter`, `Analysis`, `Resolver` | exports.dfy, analysis.dfy, resolver.dfy | src/install/resolver.ts |
| `Installer` | installer.dfy | src/install/installer.ts |
| `Tracer`, `TraceResolve` | tracer.dfy, trace_resolve.dfy | src/tracemap/tracemap.ts |
| `ImportMaps`, `ImportMapTrace` | import_map.dfy, import_map_trace.dfy | src/tracemap.ts |
| `ScriptLexer` | script_lexer.dfy | src/inject/script-lexer.ts |
| `JsonStyle` | json_style.dfy | src/common/json.ts |
| `EnvUtils` | env_utils.dfy | src/utils.ts |
| `JspmCli` | jspm_cli.dfy | src/jspm.js |
| `ListCmd`, `RemCmd`, `Manifest` | list_cmd.dfy, rem_cmd.dfy, manifest.dfy | src/cmd/list.ts, src/cmd/rem.ts and the package.json fields they touch |
| `Format` | format.dfy | src/cli/format.ts |

The model keeps the source's form:

- Code that only computes is written as functions over datatypes, such as the exports tree, package targets and the script lexer's scanning functions.
- Objects whose fields change are classes, with `modifies` clauses on their methods:
  - the resolver's caches;
  - the installer;
  - the lock table;
  - both `TraceMap` classes;
  - the jspm.io resolve cache.
- Loops are methods with loop invariants, each proved against a function that specifies it.

Where the source reaches out, the model takes a parameter instead:

- the network (`fetch`, as a function from URL to response);
- the file system;
- the semver library (`Semver`: `isValid`, `bestMatch`, `has`, `less`);
- the WHATWG URL parser (`UrlOps`);
- `JSON.parse` and `JSON.stringify`;
- `es-module-lexer`;
- the module analysis of a URL.

## Model

| member | source | states |
|---|---|---|
| Package.ParsePkg | src/install/package.ts:167-177 | there is no result exactly when the specifier starts with `@` and holds no `/` (a lone `@scope`) |
| Package.ParsePkgRoundTrip | src/install/package.ts:167-177 | the package name followed by the subpath without its leading `.` gives back the specifier; the subpath is `.` or starts with `./` |
| Package.ParsePkgUnscoped | src/install/package.ts:168-176 | an unscoped specifier always parses, and its package name holds no `/` (it is the text before the first `/`) |
| Package.ParsePkgScoped | src/install/package.ts:169-176 | a scoped specifier with a `/` parses to a name that holds exactly one `/` (it runs to the second `/` or to the end) |
| Package.PkgToUrl | src/install/package.ts:159-165 | the URL is the CDN prefix, then `pkgToStr(pkg)`, then one `/`, and nothing else |
| Package.RangesOf | src/install/package.ts:138-146 | a version text always yields at least one range |
| Package.NewPackageTarget | src/install/package.ts:125-157 | apart from `file:` targets the result is a package target or a `JspmError` |
| Package.NewPackageTargetFile | src/install/package.ts:128-132 | a `file:` target is the URL of its path resolved against the parent package URL, or an error when that does not parse |
| Package.NewPackageTargetRegistry | src/install/package.ts:128-150 | the registry is the text before a `:` at index 1 or later; with no `:` it is `github` for an unscoped name holding a `/` and `npm` otherwise |
| Package.NewPackageTargetName | src/install/package.ts:134-156 | the target is refused exactly when the chosen name has more than two segments or is a lone scope, and otherwise carries that name |
| Package.NewPackageTargetWildcard | src/install/package.ts:144-146 | with no `@version` after the registry and no dependency name, the only range is `*` |
| Package.ValidTargetNameBySlashes | src/install/package.ts:152-154 | a name is accepted exactly when it holds at most one `/` and is not a scope without a slash |
| Package.ToPackageTarget | src/install/package.ts:95-123 | an `@` before the registry `:` is refused as an unsupported alias; a successful result has the subpath `parsePkg` gave, and an alias with no `@` after its first character |
| Package.AliasHasNoVersion | src/install/package.ts:111-116 | the alias cut from a package name stops before its `@version` |
| Package.IsPackageTarget | src/install/package.ts:67-82 | a relative path is never a package target, and a known registry prefix always is; a `.ts`/`.js`/`.mjs` name without `@` is not; a true result needs a registry prefix or a name that `parsePkg` accepts |
| Package.FirstPrefix | src/install/package.ts:181-183 | the chosen CDN prefix is one of the list that the URL starts with, and there is none exactly when the URL starts with no prefix |
| Package.FirstPrefixIsFirst | src/install/package.ts:181-183 | the chosen prefix is the first one in list order that the URL starts with |
| Package.PkgUrlToNiceString | src/install/package.ts:84-93 | under a CDN prefix the result is the percent-decoded rest, and a failing decode is an error; otherwise a `file:` URL is shown nicely and any other URL is returned unchanged |
| Package.NameRunEnd | src/install/package.ts:179 | the end of the longest run of name characters (`[^/\\%@]`) starting at the given index |
| Package.LowerRunEnd | src/install/package.ts:179 | the end of the longest run of lower-case letters starting at the given index |
| Package.ParseCdnPkg | src/install/package.ts:180-187 | the result is absent exactly when the URL starts with no CDN prefix; otherwise the first such prefix is used, and the package is what the package-URL expression matches after it |
| Package.NameRunEndIs | src/install/package.ts:179 | a run of name characters ending at `k`, where a non-name character or the end follows, ends at `k` |
| Package.LowerRunEndIs | src/install/package.ts:179 | a run of lower-case letters ending at `k`, where a non-letter or the end follows, ends at `k` |
| Package.VersionTailRoundTrip | src/install/package.ts:179 | the version group reads back a non-empty `/`-free version that is followed by `/` |
| Package.MatchNameVersionFrom | src/install/package.ts:179 | the name group ends at the first `@` after the start of the name, where the version group takes over |
| Package.MatchNameVersionIs | src/install/package.ts:179 | the name and version groups split the text at the end of the name run |
| Package.NameVersionRoundTrip | src/install/package.ts:179 | `name@version/` matches back to that name and version, for a valid name and a `/`-free version |
| Package.ExactPkgRoundTrip | src/install/package.ts:163-179 | the package-URL expression reads back the registry, name and version that `pkgToStr` wrote |
| JspmIo.PkgUrl | src/providers/jspm.io.ts:13-15 | a package URL starts with `https://ga.jspm.io/` and ends with `/` |
| JspmIo.ParseUrlPkg | src/providers/jspm.io.ts:18-23 | nothing for URLs outside the CDN; on it, the package-URL expression's captures of the rest |
| JspmIo.UrlPkgRoundTrip | src/providers/jspm.io.ts:13-23 | `parseUrlPkg(pkgToUrl(p))` gives back `p` when the registry is lower-case letters, the name is a valid package name and the version is non-empty and `/`-free |
| JspmIo.LookupUrl | src/providers/jspm.io.ts:106-108 | the lookup URL starts with the CDN, `registry:` and the name |
| JspmIo.EdgeOnlyForLatest | src/providers/jspm.io.ts:107 | the `edge` flag changes the lookup URL exactly when the version is empty (the latest lookup) |
| JspmIo.LookupVersion | src/providers/jspm.io.ts:77-78 | corrected, a slot sends its text as the version. As written, a major slot of `0` sends no version, because the number 0 is falsy; every other slot sends its text |
| JspmIo.LookupOutcome | src/providers/jspm.io.ts:106-118 | a slot's lookup (`Lookup`) is `null` exactly when its lookup URL answers 404, and a version it finds is of the looked-up registry and name |
| JspmIo.MajorZeroAsWritten | src/providers/jspm.io.ts:77-78 | as written, the lookup for major `0` fetches the same URL as the latest-version lookup and gives the same outcome |
| JspmIo.MajorLookupCorrected | src/providers/jspm.io.ts:77-78 | corrected, a major slot fetches `…registry:name@major`, which is never the latest-version URL |
| JspmIo.Provider.constructor | src/providers/jspm.io.ts:25-30 | the module-level resolve cache starts empty |
| JspmIo.Provider.ClearResolveCache | src/providers/jspm.io.ts:32-34 | the resolve cache is empty afterwards |
| JspmIo.Provider.ResolveLatestTarget | src/providers/jspm.io.ts:36-120 | a single exact, untagged range resolves with no lookup and no cache change. Otherwise only the `registry:name` memo changes, and the result and the new memo are those of the shared memoised range resolution over this provider's `Lookup`: one lookup per kind and key, and `null` when no range resolves. `fixed` selects the corrected major-0 lookup |
| NestLand.PkgUrl | src/providers/nest.land.ts:8-10 | the URL is `https://x.nest.land/` followed by `name/version/` |
| NestLand.ParseUrlPkg | src/providers/nest.land.ts:12-17 | nothing for URLs outside the CDN; otherwise the registry is always `nest` and the name is a `/`-free segment |
| NestLand.UrlPkgRoundTrip | src/providers/nest.land.ts:8-17 | `parseUrlPkg(pkgToUrl(p))` restores the name and version when neither holds a `/`, with the `nest` registry |
| NestLand.UploadVersion | src/providers/nest.land.ts:27 | the version of an upload name is the text after its first `@`, or the whole name when it has none |
| NestLand.UploadVersions | src/providers/nest.land.ts:27 | the versions list has the uploads' versions, one per upload name, in order |
| NestLand.BestMatch | src/providers/nest.land.ts:28-33 | the result is absent exactly when no range has a best match; otherwise it is one range's best match, and no range's best match is greater |
| NestLand.ResolveLatestTarget | src/providers/nest.land.ts:19-42 | a registry other than `nest` gives `null` with no fetch, 404 gives `null`, and other failing statuses throw `JspmError`. A result is the greatest best match over the uploads' versions under the record's normalised name, and `null` comes exactly when no range matches |
| DenoLand.GetPackageBase | src/providers/deno.land.ts:3-5 | the result starts with the CDN URL and ends with `/`, and holds no `/` between them |
| DenoLand.PackageBaseOfPath | src/providers/deno.land.ts:4 | for `cdnUrl + seg + '/' + rest`, with `seg` free of `/`, the result is `cdnUrl + seg + '/'` |
| DenoLand.PackageBaseIdempotent | src/providers/deno.land.ts:4 | applying it to its own result changes nothing |
| Format.Prefixed | src/cli/format.ts:2 | every line gets the prefix, and there are as many lines as before |
| Format.JoinPrefixed | src/cli/format.ts:2 | joining prefixed lines puts the prefix at the front and after every separator |
| Format.Indent | src/cli/format.ts:1-3 | `indent(s, p)` is the lines of `s` joined by a newline followed by `p`, so the first line is left unprefixed |
| Format.PrefixTail | src/cli/format.ts:2 | the first line is kept unchanged and every later line gets `p` in front |
| Format.IndentLines | src/cli/format.ts:1-3 | for a prefix without newlines, `indent` keeps the number of lines: the first line unchanged and every later one with `p` in front |
| Format.IndentEmpty | src/cli/format.ts:1-3 | `indent(s, '')` is `s` |
| Format.Digits | src/cli/format.ts:8-9 | `n.toString()` is at least one character long and made of decimal digits |
| Format.DigitsMonotone | src/cli/format.ts:8 | a number never has more digits than a larger one, so the gutter of the largest number is the widest |
| Format.PadStart | src/cli/format.ts:9 | `padStart` pads with spaces on the left to exactly the width and keeps the text at the end; a longer text is unchanged |
| Format.Numbered | src/cli/format.ts:9 | there is one numbered line per window line |
| Format.SliceLines | src/cli/format.ts:7 | `slice(start, end)` with in-range indices is the sub-sequence between them |
| Format.GutterAligned | src/cli/format.ts:8-9 | the gutter of line `n` of a `count`-line frame is as wide as `count` has digits: the digits of `n`, right-aligned behind spaces, with no newline |
| Format.FrameLines | src/cli/format.ts:8-9 | the printed frame splits back into exactly the numbered lines: window line `k` printed behind the gutter of `k + 1` and `\|  ` |
| Format.NumberedLine | src/cli/format.ts:9 | a numbered line holds no newline when its source line holds none |
| Format.DefaultFramesAll | src/cli/format.ts:5-7 | with the default `before` and `after` every line of the source is printed, both as written and corrected |
| Format.WindowAsWrittenWrong | src/cli/format.ts:7 | as written, line 1 of `a\nb\nc` with one line before and none after prints only `c`, and line 2 with no context prints all three lines; the corrected window prints `a` for the first and `b` for the second |
| Format.WindowAroundLine | src/cli/format.ts:5-7 | the corrected window of an existing line is the run of lines from `before` lines above it to `after` lines below it, cut at the ends of the source. It holds the requested line and at most `before + after + 1` lines |
| Format.WindowAsWritten | src/cli/format.ts:7 | as written, the window is always a run of lines that reaches the end of the source, whatever `line`, `before` and `after` are |
| Format.PrintFrameAsWritten | src/cli/format.ts:5-10 | as written, a non-empty window prints as one numbered line per window line, split at the newlines |
| Format.Window | src/cli/format.ts:7 | corrected, the window holds only lines of the source, all of them when `before` and `after` are infinite, and at most `before + after + 1` lines for finite non-negative counts around an existing line number |
| Format.PrintFrame | src/cli/format.ts:5-10 | corrected, a non-empty window prints as one numbered line per window line, split at the newlines |
| Lock.ResolutionAfterSet | src/install/lock.ts:25-30 | after a set, that binding reads back the new value and every other `(name, scope)` binding reads as before |
| Lock.SetExistingIsIdentity | src/install/lock.ts:25-30 | setting a binding to the value it already holds leaves the table as it was |
| Lock.LockTable.constructor | src/install/lock.ts:14-16 | the table holds the given resolutions |
| Lock.LockTable.GetResolution | src/install/lock.ts:18-23 | a scope URL not ending in `/` is an internal error and changes nothing. Otherwise the result is the binding in the old table, and the only change is an empty entry for a missing scope |
| Lock.LockTable.SetResolution | src/install/lock.ts:25-30 | a scope URL not ending in `/` is an internal error and changes nothing. Otherwise the table becomes the old one with exactly that binding set, and the scope is created if it is missing |
| Lock.PruneResolutions | src/install/lock.ts:32-40 | the input is not modified. It fails exactly when a listed scope is missing from the table (the lookup of `undefined[name]` throws). Otherwise the new table has exactly the listed scopes, and every binding in it is a listed pair with the value copied; every listed pair that was resolved keeps its value |
| Lock.LockUrlText | src/install/lock.ts:50 | a `/` is appended unless the URL already ends in `/` or holds a `\|` |
| Lock.ParseResolutionUrl | src/install/lock.ts:48-55 | the result is the href of the text resolved against the lockfile URL. It fails exactly when that does not parse, with `ERR_INVALID_LOCKFILE` and the message `InvalidUrlMessage` builds from the URL, the entry name and the lockfile path |
| Lock.InvalidUrlMessageCases | src/install/lock.ts:53 | the message names the URL and the lockfile path, and adds `for <name> ` only when the name is non-empty (a package URL passes none) |
| Lock.ParseResolutions | src/install/lock.ts:57-68 | it succeeds exactly when every string entry resolves, and its only error is `ERR_INVALID_LOCKFILE`. The scope's bindings are exactly the string entries, each bound to its resolved URL, and non-string entries are skipped. Every target has a scope entry, existing scopes are unchanged, and added scopes are empty |
| Lock.ParseFacts | src/install/lock.ts:57-68 | the loop of `parseResolutions` as a whole has the properties `ParseResolutions` promises |
| Lock.ParsesFromStep | src/install/lock.ts:59-63 | every string entry from `i` on resolves exactly when entry `i`, if it is a string, resolves and every one after it does |
| Lock.ParseOk | src/install/lock.ts:59-66 | the loop succeeds exactly when every remaining string entry resolves |
| Lock.ParseErr | src/install/lock.ts:53-63 | the loop's only error is an invalid-lockfile `JspmError` |
| Lock.ParseKeys | src/install/lock.ts:59-65 | the names bound afterwards are those bound before and those of the remaining string entries |
| Lock.ParseKeeps | src/install/lock.ts:64 | scopes already present in the table are never changed |
| Lock.ParseValues | src/install/lock.ts:63-65 | each remaining string entry's name is bound to its resolved URL, and that URL has a scope entry |
| Lock.ParseUntouched | src/install/lock.ts:59-66 | a name that no remaining entry carries keeps its binding |
| Lock.ParseNew | src/install/lock.ts:64 | every scope the loop adds is empty and is the resolved URL of a remaining string entry |
| Lock.ParseStops | src/install/lock.ts:82-88 | a package whose URL or entries do not resolve makes loading the whole array fail |
| Lock.LoadPackages | src/install/lock.ts:82-88 | loading succeeds exactly when every package's URL and string targets resolve, and its only error is `ERR_INVALID_LOCKFILE`. Each package's scope and every target end up in the table, every scope comes from a package URL or target, and every binding comes from some package's string entry. The table is also complete: a scope that a package sets last holds exactly that package's string entries, each bound to its resolved URL, and a scope last reset by a `/` URL without a table is empty |
| Lock.CompleteStep | src/install/lock.ts:83-87 | handling one more package keeps the table complete: scopes it does not set are unchanged, and a scope it sets holds what that package gives it |
| Lock.LoadPackage | src/install/lock.ts:83-87 | one package keeps the loading invariant, soundness and completeness both; when it fails, the whole array fails |
| Lock.LoadVersionLock | src/install/lock.ts:42-91 | a missing file gives `exists = false` and an empty table, and a TOML syntax error is passed on. Without a `package` array the table is empty with `exists = true`. Otherwise the result is that of loading the packages, sound and complete as `LoadPackages` states |
| Lock.SavedEntries | src/install/lock.ts:98-105 | the entries write exactly the scope's bindings, each target relative to the lockfile's folder without a trailing `/` |
| Lock.SortedDepsSave | src/install/lock.ts:103-106 | sorting the written dependencies by name keeps what they write |
| Lock.SavedDeps | src/install/lock.ts:98-106 | the written dependencies are the scope's bindings in saved form, sorted by name |
| Lock.SavedPackageOf | src/install/lock.ts:97-107 | a non-empty scope is written as its URL relative to the lockfile's folder, without the final `/`, with its sorted dependencies |
| Lock.SavedScopes | src/install/lock.ts:96-108 | every package written comes from a non-empty scope, and every non-empty scope is written; empty scopes are left out |
| Lock.CoverStep | src/install/lock.ts:96-108 | writing a scope, or skipping it when it is empty, takes it off the scopes still to write |
| Lock.SortedPackagesWritten | src/install/lock.ts:109 | sorting the packages by URL keeps each one a written scope |
| Lock.SortedPackagesCover | src/install/lock.ts:109 | sorting the packages by URL keeps every non-empty scope written |
| Lock.SavedPackages | src/install/lock.ts:95-109 | the package list is sorted by URL, and each package is the written form of a non-empty scope with its dependencies sorted by name. Every non-empty scope is written |
| Lock.TrimEach | src/install/lock.ts:114 | every line has its leading whitespace trimmed, and the number of lines is kept |
| Lock.SaveVersionLock | src/install/lock.ts:93-120 | the packages are in their saved form, and the output is the header followed by the TOML text with each line's leading whitespace trimmed. The file is written, and `true` returned, exactly when the output differs from the current file |
| Exports.GetExportsTarget | src/install/resolver.ts:347-367 | a string target is returned unchanged and `null` gives `null`. A condition object gives `null` or a truthy string. Any result is one of the strings written inside the target |
| Exports.FirstCondition | src/install/resolver.ts:351-366 | the object's keys are tried in declaration order, and only `default` or a condition of the environment is entered. The result is `null` exactly when no such condition gives a truthy target; otherwise it is the first one that does |
| Exports.FallbacksIgnored | src/install/resolver.ts:360-364 | only an array's first element is consulted: its result is returned, even when it is `null`, whatever the fallbacks after it are |
| Exports.IneligibleIgnored | src/install/resolver.ts:352-353 | conditions the environment does not have never affect the result: dropping them leaves it unchanged |
| Exports.EligibleOnly | src/install/resolver.ts:353 | the eligible entries are a selection of the object's entries, each with an eligible condition |
| Exports.ShiftCondition | src/install/resolver.ts:352 | scanning the keys from the second one is scanning the object without its first entry |
| Exports.ShiftFrom | src/install/resolver.ts:352 | scanning from key `i` is scanning the object without its first entry from key `i - 1` |
| Exports.StarsReplaced | src/install/resolver.ts:274 | replacing every `*` by a star-free replacement leaves no `*` |
| Exports.ReplaceTargets | src/install/resolver.ts:263-277 | arrays, objects and `null` keep their shape, keys and lengths, and only strings change. A target with no `*` is unchanged, and with a star-free replacement no `*` remains |
| ExportsMap.AsTarget | src/install/resolver.ts:214-218 | a resolved target is stored as a string, or as `null` exactly when nothing resolved |
| ExportsMap.ConditionalExports | src/install/resolver.ts:202-221 | a string `exports` gives exactly `{'.': s}`. A value with a key not starting with `.` is the condition tree of `'.'`, and an empty array gives no entries. An object of `.` keys maps each key, in order, to the resolved target of its value |
| ExportsMap.DotSlash | src/install/resolver.ts:224-227 | the path starts with `./`, and the original path ends it; a path already starting with `./` is unchanged |
| ExportsMap.MainEntry | src/install/resolver.ts:223-228 | the main entry, when there is one, starts with `./`; with neither a string `browser` nor a string `main` there is none |
| ExportsMap.RemapUnrelated | src/install/resolver.ts:232-233 | browser replacements whose keys differ from the main entry leave it as it was |
| ExportsMap.SubpathReplacements | src/install/resolver.ts:231 | only the browser replacements whose key starts with `./` are copied |
| ExportsMap.OrDefault | src/install/resolver.ts:241-244 | a truthy string is kept, and a missing or empty one is replaced by the default |
| ExportsMap.LegacyExports | src/install/resolver.ts:222-245 | without `exports`, `'.'` holds the main entry after the browser replacements, or `.` when that is empty or missing. Every `./` subpath holds its latest browser replacement, and `'./'` defaults to `./`. No other key is present |
| ExportsMap.InitialState | src/install/resolver.ts:223-228 | the map holding only the main entry satisfies the loop invariant before any browser replacement |
| ExportsMap.CopyReplacements | src/install/resolver.ts:229-240 | every `./` replacement is copied under its key, and a replacement whose key equals the current main entry replaces it |
| ExportsMap.Defaults | src/install/resolver.ts:241-244 | filling in the `./` and `.` defaults gives the final legacy exports map |
| ExportsMap.PutDefault | src/install/resolver.ts:241-244 | setting a key to its default unless it already holds a truthy string changes only that key |
| ExportsMap.BrowserStep | src/install/resolver.ts:231-235 | copying one `./` replacement keeps the loop invariant |
| ExportsFilter.Writes | src/install/resolver.ts:250-262 | one entry only writes `.` and `./…` subpaths: an exact match is moved under `.` plus the rest of its key, and a matching `*` pattern writes `.` and `./*` |
| ExportsFilter.AllWrites | src/install/resolver.ts:250-262 | all the entries' writes, in key order, only touch `.` and `./…` subpaths |
| ExportsFilter.FilterExports | src/install/resolver.ts:247-281 | with no filter, or an empty one, the map is returned unchanged. Otherwise each key holds the last value written to it, in key order, and only `.` and `./…` subpaths occur |
| ExportsFilter.ApplyEntry | src/install/resolver.ts:251-261 | one iteration of the filtering loop makes the entry's writes in order |
| ExportsFilter.PutLatest | src/install/resolver.ts:252-259 | one assignment to the filtered map adds one entry to its write history |
| ExportsFilter.FilterReroots | src/install/resolver.ts:250-253 | without `*` patterns, filtering re-roots the map at the filter: `.` plus a rest that is empty or starts with `/` receives exactly what the key `filter + rest` held |
| RangeLookup.ExactShortcut | src/install/resolver.ts:113-115 | a package is given with no lookup exactly when there is a single range and it is an exact, untagged version; it is that version of the target's registry and name |
| RangeLookup.LookupRange | src/install/resolver.ts:180-187 | 200 and 304 give the trimmed body as the version, and 404 gives `null`. Every other status throws a `JspmError` |
| RangeLookup.Reverse | src/install/resolver.ts:124 | `ranges.reverse()` holds the same ranges in the opposite order |
| RangeLookup.Slots | src/install/resolver.ts:125-175 | every range that uses a cache slot has its slot among the target's slots |
| RangeLookup.ResolveRanges | src/install/resolver.ts:117-176 | cached outcomes are reused and never replaced. Each slot is looked up at most once, and only when it was not cached; a new slot holds a fresh lookup of that slot and belongs to one of the ranges. When every slot is already cached nothing is fetched. The result is the outcome of the first range, last range first, whose slot is not `null`, or `null` when there is none |
| RangeLookup.NullExtends | src/install/resolver.ts:130-169 | a range whose slot holds `null` lets the loop go on to the next range |
| RangeLookup.LookupStep | src/install/resolver.ts:126-165 | looking up an uncached slot records it once and keeps the earlier `null` slots |
| RangeLookup.ResolutionRepeats | src/install/resolver.ts:117-176 | resolving the same ranges again, against the memo the first resolution left, gives the same outcome |
| Resolver.PkgToLookupUrl | src/install/resolver.ts:9-11 | the URL starts with the CDN, `registry:` and the name, and always ends in `@` followed by the version, even an empty one |
| Resolver.ResolverLookupIsEdge | src/install/resolver.ts:9-11 | the resolver always asks for the URL that the jspm.io provider uses for an `edge` lookup |
| Resolver.ConfigOutcome | src/install/resolver.ts:52-74 | the load fails, with a `JspmError`, exactly for a failing status other than 404 and 406. A configuration is stored exactly for a success with a readable body whose response either has no headers object or has a JSON content type. Every other case stores `null` |
| Resolver.Exists | src/install/resolver.ts:97-108 | `exists(url)` is true exactly for 200/304 and false exactly for 404/406, and any other status throws a `JspmError` |
| Resolver.FirstIndex | src/install/resolver.ts:83 | the first index of an element: it is there, and not before it |
| Resolver.Dedup | src/install/resolver.ts:83-88 | `[...new Set(s)]` holds the same elements, each once, in the order of their first occurrence |
| Resolver.FirstIndexExtends | src/install/resolver.ts:83 | appending an element does not move the first occurrences before it |
| Resolver.FirstIndexPrefix | src/install/resolver.ts:83 | an element's first occurrence in a prefix is its first occurrence in the whole |
| Resolver.DepList | src/install/resolver.ts:83-88 | the names are those of `dependencies`, of `devDependencies` (only with `dev`), of `peerDependencies` and of `optionalDependencies`, each once |
| Resolver.KeysGet | src/install/resolver.ts:84-87 | `Object.keys` lists exactly the keys the object has |
| Resolver.Resolver.constructor | src/install/resolver.ts:14-26 | all three caches start empty |
| Resolver.Resolver.GetPackageConfig | src/install/resolver.ts:46-77 | a URL not ending in `/` throws and changes nothing. The configuration is fetched exactly when no promise exists for the URL yet, and the caches then record the outcome. Otherwise the caches are unchanged. The answer is what the caches hold, so a later call gets it again without a fetch |
| Resolver.Resolver.GetDepList | src/install/resolver.ts:79-89 | a failed configuration load propagates, and an absent configuration has no dependencies; otherwise the result is the deduplicated dependency list |
| Resolver.Resolver.ResolveLatestTarget | src/install/resolver.ts:110-178 | the exact-version shortcut needs no lookup and changes no cache. Otherwise only the `registry:name` memo changes, as the shared memoised range resolution gives, and the result is its package. A lookup that throws rethrows, and no resolution at all throws a `JspmError` |
| Resolver.Resolver.ResolveExports | src/install/resolver.ts:189-282 | a failed configuration load propagates. On success the unfiltered map is the exports of the stored configuration for the env: a string or a non-subpath value under `.`, a subpath array or object element by element, the legacy `.` and `./` when there is no `exports`. Without a subpath filter that map is the result; with one, every key reads as the last write of the filter's loop over it |
| Resolver.Settle | src/install/resolver.ts:134-177 | a package found is returned, a thrown lookup is rethrown, and no resolution throws a `JspmError` |
| Resolver.ExportsOf | src/install/resolver.ts:201-245 | a string `exports` gives `{'.': s}`, and a condition tree is resolved for `'.'`. Without `exports` (or with `null`), `'.'` and `'./'` hold the main entry and the `./` default |
| Analysis.EsmDeps | src/install/resolver.ts:382-386 | the static dependencies are exactly the specifier texts of the import records with `d === -1` |
| Analysis.DynamicSpecifier | src/install/resolver.ts:388-397 | only a dynamic import record (`d >= 0`) whose expression starts with a quote gives a specifier |
| Analysis.EsmDynamics | src/install/resolver.ts:387-398 | the dynamic dependencies are exactly the specifiers of the records whose quoted expression `JSON.parse` accepts; other expressions are skipped |
| Analysis.SystemDynamicsMembers | src/install/resolver.ts:411-429 | the scan reports exactly the parsable quoted arguments at the occurrences of `contextId.import(`: each reported specifier comes from one, and each one is reported |
| Analysis.SystemDynamicsSound | src/install/resolver.ts:414-423 | each reported specifier comes from an occurrence of the call text at or after the start |
| Analysis.SystemDynamicsComplete | src/install/resolver.ts:414-423 | each occurrence with a parsable quoted argument at or after the start is reported |
| Analysis.ReportedFrom | src/install/resolver.ts:414 | what the first occurrence gives, or what is reported after it, is reported from the start |
| Analysis.FirstOccurrence | src/install/resolver.ts:414 | an occurrence at `j` means the first occurrence from the start is at or before `j` |
| Strings.Utf16Length | src/install/resolver.ts:400 | `source.length` counts at least one and at most two units per character, and more units than characters when the first is above U+FFFF |
| Strings.Utf16LengthCounts | src/install/resolver.ts:430 | the `length` equals the number of characters exactly when no character is above U+FFFF |
| Analysis.AnalysisShape | src/install/resolver.ts:377-432 | without a `System.register` wrapper both entry points agree. The size is always the source's JavaScript `length`, counted in UTF-16 code units (`Strings.Utf16Length`), and an ES module analysis means there is no wrapper or there are imports |
| Analysis.CreateEsmAnalysis | src/install/resolver.ts:377-402 | a module with no imports that has the wrapper is analysed as a System module. Otherwise the deps and dynamic deps are those above, with `system` false |
| Analysis.CreateSystemAnalysis | src/install/resolver.ts:405-432 | without a wrapper match, the result is the ES module analysis. Otherwise it is the System analysis of the match |
| Analysis.SystemAnalysisOf | src/install/resolver.ts:409-431 | the deps are the JSON-parsed dependency array, and the dynamic deps are the scan's, present only with a context identifier |
| Analysis.ScanDynamicImports | src/install/resolver.ts:412-429 | the `indexOf` loop reports exactly the specifiers of the scan, in order of occurrence |
| Analysis.ScanMatches | src/install/resolver.ts:414-428 | scanning on from a position appends exactly the specifiers found from that position on |
| Analysis.ReadModule | src/install/resolver.ts:295-303 | the text is read exactly for 200/304; any other status, 404 included, is a `JspmError` |
| Analysis.Analyze | src/install/resolver.ts:294-344 | only a lexer parse error makes the fetch be retried, and a second parse error becomes a `JspmError` naming the position, so no raw parse error escapes. A failing first status is a `JspmError` |
| Analysis.AttemptOnce | src/install/resolver.ts:295-306 | one fetch-and-analyse attempt: read the module, lex it, and analyse it as a System or ES module |
| Installer.Truthy | src/install/installer.ts:266-267 | a dependency value counts exactly when it is present and not the empty string |
| Installer.DeclaredTarget | src/install/installer.ts:266-267 | the declared target is looked up in `dependencies`, then `peerDependencies`, then `optionalDependencies`, then `devDependencies`, and the first truthy entry wins. There is none exactly when no field holds a truthy entry |
| Installer.WithSlash | src/install/installer.ts:221 | a URL target's href with exactly one trailing `/`: one is added only when missing |
| Installer.TargetUrl | src/install/installer.ts:219-251 | a URL target is recorded without any registry lookup, as its href with a trailing `/` |
| Installer.BuiltinResolution | src/install/installer.ts:275 | the builtin's resolution ends in `\|nodelibs/<name>`, after the stdlib package URL minus its final `/` |
| Installer.BuiltinPlanned | src/install/installer.ts:272-278 | an undeclared builtin name is resolved as the stdlib install URL minus its final `/`, plus `\|nodelibs/<name>` |
| Installer.RewriteScope | src/install/installer.ts:189-194 | every value equal to the target URL becomes the replacement, the others are kept, and the names are unchanged |
| Installer.TouchedInStep | src/install/installer.ts:188-200 | processing one more scope sets `replaced` exactly when that scope is the target's or binds a name to the target URL |
| Installer.ReplacedRemovesTarget | src/install/installer.ts:187-201 | after replacing with a different URL, the target URL occurs nowhere in the lock, as a scope or as a value |
| Installer.ReplacedIdempotent | src/install/installer.ts:187-201 | a second identical replacement changes nothing |
| Installer.InstallPkgUrl | src/install/installer.ts:157 | an install URL without `\|` is its own package URL |
| Installer.Rewritten | src/install/installer.ts:189-194 | rewriting the values of the scopes processed so far keeps the lock's scope keys |
| Installer.RewriteTwice | src/install/installer.ts:189-194 | rewriting a scope a second time changes nothing once the URL is really replaced |
| Installer.ReplaceStep | src/install/installer.ts:188-200 | processing one more scope of the key snapshot takes the partial replacement one step further |
| Installer.ReplaceStepBefore | src/install/installer.ts:188-200 | the step while the target scope has not been processed |
| Installer.ReplaceStepSame | src/install/installer.ts:195-199 | the step after the target scope was moved onto itself, and so deleted |
| Installer.ReplaceStepMoved | src/install/installer.ts:195-199 | the step after the target scope was moved to the replacement |
| Installer.ReplaceDone | src/install/installer.ts:188-200 | once every scope is processed, the partial replacement is the full one |
| Installer.ExpandedAfterSet | src/install/installer.ts:152-161 | locking another pair leaves an expanded pair expanded, once the new pair is covered |
| Installer.SetTwice | src/install/installer.ts:275-276 | setting the same binding twice keeps only the second value, so a builtin's lock entry is its `\|nodelibs/` resolution |
| Installer.VisitStep | src/install/installer.ts:152-161 | visiting a new pair keeps the traversal invariant once its resolution is locked and its package's dependencies and locked names are queued |
| Installer.PruneKeepsClosure | src/install/installer.ts:163-169 | pruning to the visited pairs keeps a closed traversal closed, and leaves only visited pairs in the lock |
| Installer.Recorded | src/install/installer.ts:222 | recording succeeds exactly when the URL was found and the scope URL ends in `/`, and the result is then the URL |
| Installer.Installer.constructor | src/install/installer.ts:66-85 | the installer holds the options, the base URL, the loaded lock and whether it existed, and the stdlib target. It starts outside any install, with nothing added |
| Installer.Installer.StartInstall | src/install/installer.ts:87-93 | a new install starts exactly when none is running. It clears `newInstalls` and `added` and keeps the lock; otherwise nothing changes |
| Installer.Installer.InstallTarget | src/install/installer.ts:204-252 | a frozen lock throws `ERR_NOT_INSTALLED` before any change. Otherwise `newInstalls` is set and the scope's resolution of the name becomes the target's package URL, and nothing else in the lock changes. The target is remembered for package.json only when persisting into the base `file:` package |
| Installer.Installer.Install | src/install/installer.ts:254-284 | outside an install it is an internal error. A locked resolution is returned unchanged unless resetting. Otherwise the planned URL is locked: a declared target, a builtin's stdlib entry, or the latest version. Whatever succeeds leaves the scope resolving the name to the result, and nothing else changes. So the lock keeps every binding it had, and without `reset` every locked resolution (`Keeps`) |
| Installer.Installer.InstallNew | src/install/installer.ts:263-283 | past the lock, the result is the planned URL for the scope's configuration; a frozen lock or a scope without a trailing `/` fails |
| Installer.Installer.GetBestMatch | src/install/installer.ts:295-311 | the result is `null` exactly when no installed scope is a package in range of the target: same registry and name, and some range holds the version. Otherwise it is one such package, and no other candidate's version is higher |
| Installer.Installer.RewriteNames | src/install/installer.ts:189-194 | the inner loop rewrites the scope's values and reports whether any value matched |
| Installer.Installer.ReplaceUrl | src/install/installer.ts:187-201 | the lock becomes the replaced lock, and the result is true exactly when the target URL was a scope or a value |
| Installer.Installer.Replace | src/install/installer.ts:172-202 | a URL target is replaced directly. A package target replaces its best installed match. Without a match the result is `false` if the replacement is already a scope, and an error otherwise |
| Installer.KeepsTrans | src/install/installer.ts:152-161 | keeping the bindings and locked resolutions of an earlier lock carries over a sequence of installs |
| Installer.SetKeeps | src/install/lock.ts:25-30 | setting a binding keeps every binding, and keeps every locked resolution unless it overwrites one without `reset` |
| Installer.Installer.Visit | src/install/installer.ts:152-161 | one visit installs the pair and loads its package's dependency list. Every visited pair, the new one included, stays expanded over the pairs still to visit, and what the lock kept of an earlier lock it still keeps |
| Installer.Installer.PruneTo | src/install/installer.ts:163-169 | the lock is cut down to the visited pairs, which keep their resolutions and stay closed |
| Installer.VisitOrderStep | src/install/installer.ts:153-155 | adding a pair that was not yet visited keeps the visit record listing each visited pair exactly once |
| Installer.Installer.LockInstall | src/install/installer.ts:150-170 | every root pair is visited, and each pair at most once: `order`, the `visited` set in insertion order, lists every visited pair exactly once (`VisitOrder`). The visited pairs are closed: each is resolved, and its package's dependencies and locked names are visited. With `prune`, the lock contains exactly visited pairs. Without `prune` no binding of the old lock is removed, and without `reset` every resolution locked before keeps its value. Without `reset`, a visited pair that was locked before keeps its resolution even with `prune` |
| Installer.Installer.FinishInstall | src/install/installer.ts:95-145 | a failed install only ends the transaction. A successful one re-traces and prunes the lock from the base package's dependencies and locked builtins, when pruning is asked or package.json changed, and otherwise leaves the lock alone. It returns whether package.json or the lock file changed |
| Tracer.MergeDeps | src/tracemap/tracemap.ts:323-330 | the static dependencies come first, followed by each dynamic dependency not already listed, in order. The result has no repeats beyond those of `deps` and contains exactly the union |
| Tracer.AllDeps | src/tracemap/tracemap.ts:323-330 | the dependencies traced are the static ones, plus the dynamic ones only when tracing is not static |
| Tracer.RecordedStep | src/tracemap/tracemap.ts:332-338 | recording one more dependency extends what the entry records by exactly that dependency |
| Tracer.RecordedAll | src/tracemap/tracemap.ts:332-338 | once every dependency to trace is recorded, the entry's `deps` are exactly the analysis's static dependencies and its `dynamicDeps` the dynamic ones traced |
| Tracer.WithDep | src/tracemap/tracemap.ts:334-337 | the resolved URL is stored under `deps` exactly when the analysis lists the specifier as static, and under `dynamicDeps` as a one-element list exactly when it lists it as dynamic |
| Tracer.WithDepClosed | src/tracemap/tracemap.ts:334-337 | recording a dependency on a traced module keeps every recorded dependency pointing into the graph |
| Tracer.PutTracedModule | src/tracemap/tracemap.ts:119-123 | recording the resolved URL of an entry trace keeps every module of the pass a traced URL reached from a recorded entry |
| Tracer.PlainMappings | src/tracemap/tracemap.ts:136-139 | one `addMapping` per plain specifier of a dependency record, in order, and none for relative ones |
| Tracer.FirstTargets | src/tracemap/tracemap.ts:130-135 | each dynamic dependency contributes its first resolved URL, and an empty list contributes nothing |
| Tracer.AddNew | src/tracemap/tracemap.ts:134 | adding to a set kept in insertion order keeps it without repeats and adds exactly the new elements, at the end |
| Tracer.PkgMappingsOntoIs | src/tracemap/tracemap.ts:218-226 | the loop's accumulated mappings are the mappings computed for the exports, appended after what came before |
| Tracer.InstallBase | src/tracemap/tracemap.ts:216-217 | the package URL is the install before any `\|`, with exactly one trailing `/` |
| Tracer.InstallFilter | src/tracemap/tracemap.ts:216 | the subpath filter is what follows the first `\|`, and there is none without one |
| Tracer.PkgMappingsSound | src/tracemap/tracemap.ts:218-226 | every mapping added is `name` plus a mapped subpath without its leading `.`, to the target resolved against the package URL, in the given scope. Subpaths ending in `!cjs` or `*`, and empty targets, are skipped |
| Tracer.PkgMappingsComplete | src/tracemap/tracemap.ts:218-226 | without an error, every mapped subpath is added |
| Tracer.PkgMappingsError | src/tracemap/tracemap.ts:225 | an error is reported exactly when some mapped subpath's target fails to resolve as a URL |
| Tracer.Reported | src/tracemap/tracemap.ts:155-205 | the corrected result of the finish callback is true exactly when the installer or the package.json update reported a change |
| Tracer.PjsonChangeUnreported | src/tracemap/tracemap.ts:205 | as written, a package.json change the installer did not report is lost, while the corrected result reports it |
| Tracer.MapInstalls | src/tracemap/tracemap.ts:199 | mapping over the lock install's result throws exactly when that result is `undefined` |
| Tracer.FullMapInstallFails | src/tracemap/tracemap.ts:188-201 | as written, a full install that also builds a full map always throws at `installs.map` |
| Tracer.TraceMap.constructor | src/tracemap/tracemap.ts:62-83 | a tracer over the given map, options and environment, with an empty graph, no entry traces, nothing added and no mappings |
| Tracer.TraceMap.ResolveSpecifier | src/tracemap/tracemap.ts:245-303 | the layered resolution of `trace`: a package subscope, then the user's scope, then the installer's lock, then the map's imports. Without `install` it only reads the lock and changes nothing in the installer |
| Tracer.TraceMap.Trace | src/tracemap/tracemap.ts:229-304 | a parent without a package base is an internal error and changes nothing. Otherwise the entry trace is recorded, and a success returns a resolution the layered lookup allows, to a module now in the graph. The graph only grows and stays closed |
| Tracer.TraceMap.TraceUrl | src/tracemap/tracemap.ts:306-339 | an already traced URL is a no-op. An untraced URL ending in `/` is refused and the graph is unchanged. Any other URL is entered into the graph, and on success its entry records what analysis reported |
| Tracer.TraceMap.TraceNew | src/tracemap/tracemap.ts:310-338 | a new module is entered into the graph, and on success its entry records the analysis. The graph stays closed |
| Tracer.TraceMap.TraceDeps | src/tracemap/tracemap.ts:332-338 | on success the module's entry records exactly the dependencies analysis listed, and each value is a URL that resolving that dependency from the module gives |
| Tracer.TraceMap.TraceDep | src/tracemap/tracemap.ts:333-337 | one dependency is traced and its URL recorded under `deps` or `dynamicDeps` exactly as the analysis lists it. Nothing else in the entry changes |
| Tracer.TraceMap.WithDepResolved | src/tracemap/tracemap.ts:333-337 | recording the URL a dependency's trace returned keeps every recorded URL one that its dependency resolves to |
| Tracer.TraceMap.RecordDep | src/tracemap/tracemap.ts:334-337 | the module's entry becomes the entry with the dependency recorded under `deps` and `dynamicDeps` as the analysis lists it, and the graph stays closed |
| Tracer.TraceMap.StaticTargets | src/tracemap/tracemap.ts:92-93 | a traced module's static targets are its recorded `deps` values, in order, and an untraced URL has none |
| Tracer.TraceMap.Visit | src/tracemap/tracemap.ts:85-96 | a seen URL is skipped, and an untraced one is only marked seen. Otherwise the modules are visited in post-order, ending at `url`, each at most once and none already seen. Every traced URL newly seen is visited, and the static targets of a visited module are seen |
| Tracer.TraceMap.DynamicTargetsTraced | src/tracemap/tracemap.ts:130-135 | in a closed graph, every dynamic target is a traced module |
| Tracer.TraceMap.StaticTargetsTraced | src/tracemap/tracemap.ts:136-139 | in a closed graph, every static target is a traced module |
| Tracer.TraceMap.Emit | src/tracemap/tracemap.ts:128-140 | the log gains exactly the dependency mappings of the visited modules, and the discovered dynamics exactly their dynamic targets, without repeats |
| Tracer.TraceMap.CollectModules | src/tracemap/tracemap.ts:142-146 | each entry point with a plain specifier gets a top-level mapping, and each traced entry point is reached. Everything reached is traced, closed under static imports, logged, and has its dynamic targets found. Every mapping logged is explained |
| Tracer.TraceMap.CollectModule | src/tracemap/tracemap.ts:143-145 | one entry point takes the first half of the finishing pass one step further |
| Tracer.TraceMap.TopStep | src/tracemap/tracemap.ts:143-144 | logging an entry point's top-level mapping keeps the log explained and the reached modules gathered |
| Tracer.TraceMap.TopsLoggedStep | src/tracemap/tracemap.ts:143-144 | once the next entry point's top-level mapping is logged, the mappings of one more entry point are in the log |
| Tracer.TraceMap.EntriesReachedStep | src/tracemap/tracemap.ts:145 | after the visit from the next entry point, one more entry point is reached |
| Tracer.TraceMap.LogExplainedStep | src/tracemap/tracemap.ts:145 | the mappings a visit adds keep the log explained |
| Tracer.TraceMap.VisitFrom | src/tracemap/tracemap.ts:145-150 | one visit of the finishing pass keeps the modules reached gathered and explains every mapping it logs. Every traced URL it marks seen is reached |
| Tracer.TraceMap.CollectDynamics | src/tracemap/tracemap.ts:148-151 | visiting the discovered dynamic imports, including those found along the way, leaves the reached modules closed under static and dynamic imports, all traced and logged. Every mapping logged is explained |
| Tracer.TraceMap.VisitFound | src/tracemap/tracemap.ts:149-150 | visiting the next discovered import takes the second half one step further |
| Tracer.TraceMap.TracePass | src/tracemap/tracemap.ts:119-123 | re-tracing every entry trace recorded when the pass began grows the graph and keeps it closed. On success, each module of the pass is a traced URL reached from a recorded entry |
| Tracer.TraceMap.Converge | src/tracemap/tracemap.ts:116-124 | passes repeat until one installs nothing new: on success `newInstalls` is false and the modules are traced. The graph only grows |
| Tracer.TraceMap.Collect | src/tracemap/tracemap.ts:126-151 | the finishing pass maps every plain entry point at the top level. It reaches every traced entry point and everything it imports, statically or dynamically. It logs their dependency mappings and nothing that is not explained by them |
| Tracer.TraceMap.Add | src/tracemap/tracemap.ts:209-213 | a frozen lock fails. On success the target is recorded as added, and the map's own scope resolves the name to a package URL that is the answer plus `/`. The graph is untouched |
| Tracer.TraceMap.AddAllPkgMappings | src/tracemap/tracemap.ts:215-227 | the map gains exactly the package's mappings, in export order, and fails exactly when one of their targets does not resolve |
| Tracer.TraceMap.ScopeFor | src/tracemap/tracemap.ts:200 | the map's own package maps at the top level, and any other scope maps under itself |
| Tracer.TraceMap.MapLockedPackages | src/tracemap/tracemap.ts:199-201 | corrected: on success every pair the lock install visited has its package's mappings in the map. Existing mappings are kept |
| Tracer.TraceMap.MappedInGrows | src/tracemap/tracemap.ts:199-201 | a pair that is mapped stays mapped as the map grows |
| Tracer.TraceMap.FullInstall | src/tracemap/tracemap.ts:184-203 | without `fullMap`, a complete successful run visits every dependency of the package and every existing locked builtin, leaves the lock closed, and prunes it to the visited pairs. As written, `fullMap` fails; corrected, every visited pair is mapped |
| Tracer.TraceMap.Finish | src/tracemap/tracemap.ts:108-206 | a failed trace closes the install, changes no mapping and returns false. As written, a successful finish returns what the installer reported, and `fullInstall` with `fullMap` fails; corrected, a package.json change it saved is reported too. The graph stays closed and mappings only grow |
| TraceResolve.MapMatch | src/tracemap/tracemap.ts:254-295 | a match is a key of the dictionary that is a prefix of the specifier, as the matcher reports it. Any other answer counts as no match |
| TraceResolve.Href | src/tracemap/tracemap.ts:256-296 | the target plus the rest of the specifier, resolved against the base. A URL that does not parse is an error |
| TraceResolve.NonPlain | src/tracemap/tracemap.ts:236-243 | a URL-like specifier resolves against the parent. Only `file:`, `https:`, `http:`, `node:` and `data:` are accepted, and any other protocol is an error |
| TraceResolve.InScope | src/tracemap/tracemap.ts:254-256 | a scope binds the specifier exactly when its matcher finds a key, and the result is that key's target followed by the rest of the specifier |
| TraceResolve.FirstScope | src/tracemap/tracemap.ts:253-261 | the first subscope that binds the specifier decides. There is none exactly when no subscope binds it |
| TraceResolve.Subscopes | src/tracemap/tracemap.ts:251 | the subscopes are exactly the scope matches whose URL starts with the parent's package URL, in order |
| TraceResolve.OwnScope | src/tracemap/tracemap.ts:265 | the own scope is the first scope match whose URL is the parent's package URL |
| TraceResolve.SplitInstall | src/tracemap/tracemap.ts:279-281 | an install URL split at its first `\|`. A `/` is added to the package URL only when a subpath filter follows |
| TraceResolve.InstalledLayer | src/tracemap/tracemap.ts:278-291 | an installed package resolves the subpath through its exports, or fails with "No '<subpath>' exports subpath defined" when they do not define it |
| TraceResolve.ImportsLayer | src/tracemap/tracemap.ts:294-303 | the top-level imports layer resolves a binding, and without one fails with "No resolution in map" |
| TraceResolve.ScopesBeforeInstaller | src/tracemap/tracemap.ts:249-277 | when a scope layer binds a bare specifier, the installer's answer does not matter |
| TraceResolve.InstallerBeforeImports | src/tracemap/tracemap.ts:277-301 | an installed package shadows the top-level imports: its answer decides whatever the imports say |
| TraceResolve.NoResolution | src/tracemap/tracemap.ts:303 | a bare specifier that no layer binds fails with "No resolution in map" |
| ImportMaps.GetAssign | src/tracemap.ts:86-97 | after `Object.assign`, a key of the source reads its last value there, and every other key reads as before |
| ImportMaps.GetDelete | src/tracemap.ts:208 | after `delete`, the key is unbound and every other key reads as before |
| ImportMaps.GetAlphabetize | src/tracemap.ts:209 | sorting a dictionary with distinct keys changes no lookup |
| ImportMaps.GetMergeScopes | src/tracemap.ts:92-93 | after the per-scope merge, a scope named in the source holds its old bindings overwritten by the incoming ones. Every other scope is unchanged |
| ImportMaps.ExtendedLookups | src/tracemap.ts:85-99 | incoming imports, integrity and depcache entries win over existing ones. With `overrideScopes` an incoming scope replaces the scope of that name. Without it the two are merged, binding by binding |
| ImportMaps.Shown | src/tracemap.ts:141-146 | only the non-empty sections are serialised |
| ImportMaps.FilledShown | src/tracemap.ts:141-146 | `set` applied to what `toString` shows gives the map back: only empty sections are dropped |
| ImportMaps.SharedSlash | src/tracemap.ts:111-116 | the position of the last `/` in the common prefix of the two paths, or -1 when there is none |
| ImportMaps.RelativeCases | src/tracemap.ts:104-108 | under the base URL the result is the rest of the href, and from another origin it is the whole href |
| ImportMaps.UpsAsWritten | src/tracemap.ts:117 | as written, the number of `../` is one more than the number of directories to climb |
| ImportMaps.RelativeRoundTrip | src/tracemap.ts:109-117 | corrected, the relative path climbs from the base directory exactly to the shared prefix, so resolving it gives the URL's path back |
| ImportMaps.RelativeAsWritten | src/tracemap.ts:117 | as written, `/a/c.js` from the base `/a/b/` becomes `../../c.js`, which names `/c.js` |
| ImportMaps.RelativeCorrected | src/tracemap.ts:117 | corrected, the same pair gives `../c.js`, which names `/a/c.js` |
| ImportMaps.Agrees | src/tracemap.ts:202-206 | a binding may be hoisted exactly when the hoisting scope has no truthy binding of that name, or one naming the same URL |
| ImportMaps.HoistName | src/tracemap.ts:202-213 | one binding: a `null` target is skipped, and an unparsable target throws. An agreeing binding is hoisted under its rebased URL and removed from the scope. A conflicting one stays and clears `flattenedAll` |
| ImportMaps.HoistAllStep | src/tracemap.ts:201-214 | the loop over the bindings takes one more turn per binding |
| ImportMaps.HoistAllStops | src/tracemap.ts:201-214 | once a turn threw, the later turns change nothing |
| ImportMaps.FlattenScope | src/tracemap.ts:188-216 | a `file:` scope, or one without a hoisting scope, is skipped. Otherwise its bindings are hoisted, and the scope is deleted when every one of them was |
| ImportMaps.FlattenScopesStep | src/tracemap.ts:188-217 | the loop over the scope keys takes one more scope per key |
| ImportMaps.FlattenScopesStops | src/tracemap.ts:188-217 | once a scope threw, the later scopes are not visited |
| ImportMaps.DropEmpty | src/tracemap.ts:218-221 | the depcache keeps exactly its non-empty lists, unchanged |
| ImportMaps.KeptSkip | src/tracemap.ts:204-213 | a turn that skips a `null` binding or meets a conflict keeps every binding in place |
| ImportMaps.KeptHoist | src/tracemap.ts:206-210 | a turn that hoists keeps every binding, either in the scope or hoisted under its rebased URL |
| ImportMaps.KeptStep | src/tracemap.ts:201-214 | every turn keeps every binding in the scope or in the hoisting scope |
| ImportMaps.HoistAllKept | src/tracemap.ts:201-214 | a loop over the bindings that threw nowhere keeps every binding in the scope or in the hoisting scope |
| ImportMaps.FlattenScopeKeeps | src/tracemap.ts:188-216 | flattening a scope loses none of its non-null bindings: each is still in the scope, or is in the hoisting scope under its rebased URL. When the scope is deleted, all of them are hoisted |
| ImportMaps.SetAndDelete | src/tracemap.ts:207-208 | when `scopeBase` and `scopeImports` are one object, setting a binding and deleting it again leaves the other names as they were and the name unbound |
| ImportMaps.HoistSelfStep | src/tracemap.ts:201-214 | hoisting one binding of a scope that is its own hoisting scope removes that name and keeps the rest |
| ImportMaps.SelfName | src/tracemap.ts:202-203 | in a scope that is its own hoisting scope, each binding reads the value the scope had, so it always agrees |
| ImportMaps.HoistAllSelf | src/tracemap.ts:201-214 | the loop over such a scope removes every non-null binding and never clears `flattenedAll` |
| ImportMaps.FlattenSelfAsWritten | src/tracemap.ts:192-216 | as written, a scope that is its own hoisting scope, such as `/` for a base URL of the same origin, is deleted together with all its bindings |
| ImportMaps.FlattenSelfCorrected | src/tracemap.ts:192-216 | corrected, such a scope is left as it is |
| ImportMaps.MapMatch | src/tracemap.ts:432-439 | a match is a key of the dictionary that is a prefix of the specifier, as the matcher reports it. Any other answer counts as no match |
| ImportMaps.Bound | src/tracemap.ts:434-443 | a `null` target resolves to `null`. Any other target is followed by the rest of the specifier and resolved against the base URL |
| ImportMaps.ScopeLookup | src/tracemap.ts:431-438 | the first matching scope that binds the specifier decides. There is no answer exactly when none binds it |
| ImportMaps.Resolved | src/tracemap.ts:428-446 | a URL-like specifier resolves against the parent. A bare one is looked up in the matching scopes, then the imports, and otherwise fails with MODULE_NOT_FOUND |
| ImportMaps.ScopeLookupFirst | src/tracemap.ts:431-438 | scopes are consulted in the matcher's order, and the first scope that binds the specifier decides whatever later scopes say |
| ImportMaps.ScopeLookupNone | src/tracemap.ts:431-438 | no scope binds the specifier exactly when the lookup over them gives nothing |
| ImportMaps.ResolvedNotFound | src/tracemap.ts:439-445 | MODULE_NOT_FOUND is thrown exactly for a bare specifier that no matching scope and no top-level import binds |
| ImportMaps.ResolvedScopeFirst | src/tracemap.ts:431-438 | a binding in a matching scope shadows the top-level imports |
| ImportMaps.ResolvedNull | src/tracemap.ts:435-442 | a `null` target reached first resolves to `null` |
| ImportMaps.ResolveInMap | src/tracemap.ts:428-446 | the loop over the matching scopes computes exactly the resolution |
| ImportMaps.RemoveTopLevelStops | src/tracemap.ts:399-414 | once a package was refused, the later ones are not looked at |
| ImportMaps.Removal | src/tracemap.ts:398-409 | an empty package list is an error before any deletion |
| ImportMaps.RemoveTopLevelSpec | src/tracemap.ts:399-414 | the loop succeeds exactly when every package is a truthy top-level import and none is named twice. It then leaves every package unbound and every other import as it was. A refused package is named in the error |
| ImportMaps.InitialBase | src/tracemap.ts:69-72 | a non-empty string base is resolved as a directory, with exactly one trailing `/`, against the environment's base URL. As written, a `URL` instance leaves the default base |
| ImportMaps.InitialBaseAsWritten | src/tracemap.ts:70 | as written, a base URL given as a `URL` instance has no effect |
| ImportMaps.InitialBaseCorrected | src/tracemap.ts:70 | corrected, such a base URL becomes the map's base URL |
| ImportMaps.TraceMap.constructor | src/tracemap.ts:62-75 | an initial map is extended into an empty one with scopes overridden. A map given as text prints in a new object holding its detected style; any other map prints in the shared default style object itself. The conditions default to `browser` and `development` |
| ImportMaps.TraceMap.Set | src/tracemap.ts:77-83 | each section is replaced by the given one, or by an empty one where it is missing |
| ImportMaps.TraceMap.MergeEach | src/tracemap.ts:92-93 | the loop over the incoming scopes merges each one's bindings into the scope of that name, creating it if missing, in order |
| ImportMaps.TraceMap.Extend | src/tracemap.ts:85-99 | the map becomes the extended map: each given section is assigned over the existing one, and without `overrideScopes` the scopes are merged one by one |
| ImportMaps.TraceMap.ToString | src/tracemap.ts:141-148 | the non-empty sections are printed in the map's style, minified on request. As written, minifying assigns into the map's style object, which may be the shared default; corrected, that object is unchanged |
| ImportMaps.MinifySharedAsWritten | src/tracemap.ts:147 | as written, once one map built without a text prints minified, the default style stays minified and another such map prints minified when not asked to |
| ImportMaps.MinifySharedCorrected | src/tracemap.ts:147 | corrected, minifying one map leaves the default style, and another map's normal output, unchanged |
| ImportMaps.TraceMap.BaseUrlRelative | src/tracemap.ts:101-118 | the loop over the common prefix finds the last shared `/`, and the result is the relative URL |
| ImportMaps.TraceMap.SharedBaseIndex | src/tracemap.ts:111-116 | the loop finds the last `/` of the common prefix of the two paths |
| ImportMaps.TraceMap.FlattenOne | src/tracemap.ts:188-216 | the loop over one scope's bindings computes that scope's flattening |
| ImportMaps.TraceMap.FlattenScopesIn | src/tracemap.ts:188-217 | the loop over the scope keys, taken before it starts, computes the flattening of every scope |
| ImportMaps.TraceMap.DropEmptyIn | src/tracemap.ts:218-221 | the loop over the depcache keeps exactly the non-empty lists |
| ImportMaps.TraceMap.Flatten | src/tracemap.ts:187-223 | the map becomes the flattened map. An error leaves the scopes as far as they got |
| ImportMaps.TraceMap.Resolve | src/tracemap.ts:423-425 | resolution against this map and its base URL |
| ImportMaps.TraceMap.RemoveImports | src/tracemap.ts:399-414 | only the imports change, and they change as the removal loop says |
| ImportMaps.TraceMap.Upgrade | src/tracemap.ts:392-404 | without a list every top-level import is removed; otherwise the named ones are checked and removed. Only the imports change |
| ImportMaps.TraceMap.Uninstall | src/tracemap.ts:407-414 | an empty list is an error. Otherwise the named top-level imports are checked and removed, and only the imports change |
| ImportMapTrace.DistinctCard | src/tracemap.ts:290 | a module list without repeats has as many elements as members |
| ImportMapTrace.AddDepcache | src/tracemap.ts:257-268 | afterwards the parent lists the specifier. An already listed specifier changes nothing; otherwise it is appended once to the parent's list, or becomes its only entry. Other parents are untouched |
| ImportMapTrace.Tracing.Backbone | src/tracemap.ts:258-267 | the tracer's depcache becomes the backbone update of the one it had |
| ImportMapTrace.InvRewrite | src/tracemap.ts:278-279 | updating a traced entry without changing its index keeps the trace invariant |
| ImportMapTrace.InvInsertStatic | src/tracemap.ts:269-276 | a new pending module in the static trace keeps the invariant, analysed and pending |
| ImportMapTrace.InvInsertDynamic | src/tracemap.ts:269-276 | a new pending module in the dynamic trace keeps the invariant, analysed and pending |
| ImportMapTrace.InvFinish | src/tracemap.ts:290 | numbering a pending module with `postOrder` keeps the invariant, with the counter one up |
| ImportMapTrace.InvMerge | src/tracemap.ts:302-305 | appending the dynamic trace to the static one keeps the invariant |
| ImportMapTrace.InvComplete | src/tracemap.ts:290-308 | with nothing pending, every traced module has an index below the number of modules, and no two share one |
| ImportMapTrace.AddMissing | src/tracemap.ts:302-305 | every module of the dynamic trace that the static trace lacks is copied in. A module both hold keeps its static entry |
| ImportMapTrace.DisjointUnion | src/tracemap.ts:302-305 | for traces sharing no module, the order of the union does not matter |
| ImportMapTrace.Tracing.constructor | src/tracemap.ts:247-294 | tracing starts with empty traces, an empty map, no deferred imports and `postOrder` 0 |
| ImportMapTrace.Tracing.Update | src/tracemap.ts:278-279 | one traced entry is rewritten and keeps its index. The other trace is untouched |
| ImportMapTrace.Tracing.Record | src/tracemap.ts:251 | the resolution is written under the specifier in the top-level map or in the parent entry's record. Traced modules keep their indices |
| ImportMapTrace.Tracing.Insert | src/tracemap.ts:269-276 | the new module enters the current trace, unnumbered, and becomes analysed and pending |
| ImportMapTrace.Tracing.Finish | src/tracemap.ts:290 | the module gets the current `postOrder`, which goes up by one, and stops being pending |
| ImportMapTrace.Tracing.DoTrace | src/tracemap.ts:249-291 | entries traced before keep their index. A normal return leaves nothing pending that was not pending before, and records a top-level specifier in the map. A dynamic trace leaves the static trace alone, and the depcache changes only with `doDepcache` |
| ImportMapTrace.Tracing.Visit | src/tracemap.ts:257-290 | a new module is traced: the depcache backbone, its entry, its analysis, its dependencies, and its index. On a normal return it is no longer pending |
| ImportMapTrace.Tracing.Descend | src/tracemap.ts:280-290 | a pending module's dependencies are traced, and then it is numbered and no longer pending |
| ImportMapTrace.Tracing.Analysed | src/tracemap.ts:277-279 | the module's entry takes the analysis's integrity and size, and nothing else changes |
| ImportMapTrace.Tracing.TraceAllDeps | src/tracemap.ts:280-288 | the static and then the dynamic dependencies are traced; the module stays pending and traced modules keep their indices |
| ImportMapTrace.Tracing.TraceDeps | src/tracemap.ts:281-282 | each static dependency is traced into the module's `deps`, keeping earlier indices |
| ImportMapTrace.Tracing.TraceDynamicDeps | src/tracemap.ts:284-289 | in a dynamic trace each dynamic import is traced into `dynamicDeps`. Otherwise each is deferred, in order, with the module as its parent, and the static trace is untouched |
| ImportMapTrace.Tracing.Merge | src/tracemap.ts:302-305 | the dynamic trace's modules join the static trace, and the dynamic trace is emptied |
| ImportMapTrace.MapResolvedPut | src/tracemap.ts:251 | writing a resolution into the map keeps every binding what its specifier resolves to |
| ImportMapTrace.EntryResolvedPut | src/tracemap.ts:251 | recording a resolution made from the module itself keeps its recorded dependencies resolved |
| ImportMapTrace.TraceResolvedWrite | src/tracemap.ts:269-279 | writing an entry whose dependencies are resolved keeps the whole trace resolved |
| ImportMapTrace.TraceResolvedUnion | src/tracemap.ts:302-305 | joining two resolved traces gives a resolved trace |
| ImportMapTrace.Tracing.Run | src/tracemap.ts:246-309 | on success nothing is pending, every module has an index below the number of modules and no two share one, and every specifier is in the map. Every binding of the map, and every dependency a module records, is what resolving its specifier gives |
| ImportMapTrace.Tracing.TraceSpecifiers | src/tracemap.ts:296-297 | every specifier is traced against the base URL into the static trace and recorded in the map |
| ImportMapTrace.Tracing.TraceDynamics | src/tracemap.ts:299-306 | each deferred dynamic import is traced into a trace of its own, and its new modules join the static trace. The invariant holds throughout |
| ImportMapTrace.Trace | src/tracemap.ts:246-309 | the depcache is written back into the map and nothing else in it changes; without `doDepcache` the map is unchanged. On success every module has a unique index below the number of modules, every specifier is bound in the result, and every binding and recorded dependency is what resolving its specifier against the map gives |
| ScriptLexer.IsWsCodes | src/inject/script-lexer.ts:120-122 | a white-space code is exactly one of 9 to 13 or 32 |
| ScriptLexer.ScanTo | src/inject/script-lexer.ts:25-43 | the search stops just past the first `c` at or after the cursor. Without one it returns at the end of the text, and only the as-written lexer can hang |
| ScriptLexer.TagScan | src/inject/script-lexer.ts:65-71 | a tag name is the text from the cursor up to a space, which is consumed, or a `>`, which is not. Only the as-written lexer can hang |
| ScriptLexer.SkipWs | src/inject/script-lexer.ts:75-76 | the cursor stops on the first non-space, or the scan returns at the end of the text |
| ScriptLexer.SkipWsPast | src/inject/script-lexer.ts:95-98 | the cursor stops just past the first non-space, or the scan returns at the end of the text |
| ScriptLexer.NameScan | src/inject/script-lexer.ts:81-86 | an attribute name ends at a space or `=`, which is consumed, or at a `>`, which is not |
| ScriptLexer.UnquotedScan | src/inject/script-lexer.ts:114-115 | an unquoted value ends before the next space or `>` |
| ScriptLexer.CommentScan | src/inject/script-lexer.ts:31-32 | a comment scan stops at the next `-->` |
| ScriptLexer.ValueScan | src/inject/script-lexer.ts:88-117 | the value after a name, quoted with `"` or `'` without its quotes, or unquoted. Any attribute found keeps the name's span and lies within the text |
| ScriptLexer.NamedScan | src/inject/script-lexer.ts:81-117 | an attribute read from a name start keeps that start, and its spans lie within the text |
| ScriptLexer.AttrScan | src/inject/script-lexer.ts:73-118 | `scanAttr` moves the cursor forward, and any attribute it returns has its spans within the text |
| ScriptLexer.AttrsScan | src/inject/script-lexer.ts:38-59 | the attribute loop only moves forward and returns attributes whose spans lie within the text |
| ScriptLexer.LtBefore | src/inject/script-lexer.ts:25-29 | a tag name read after a `<` occurs with that `<` right before it |
| ScriptLexer.Closing | src/inject/script-lexer.ts:46-50 | at `/script` the body ends: `innerEnd` comes before `end`, and when corrected it is the position of `</script` |
| ScriptLexer.BodyScan | src/inject/script-lexer.ts:41-52 | tags are read until `/script`. A closed body has `innerEnd` before `end`, at `</script` when corrected |
| ScriptLexer.ElementOk | src/inject/script-lexer.ts:35-53 | the script built from the opening tag, attributes and body is well formed: offsets in order, attributes within the text, and when corrected both offsets on their `<` |
| ScriptLexer.ScriptElement | src/inject/script-lexer.ts:35-53 | a `<script` element, once closed, is well formed and ends past its opening tag |
| ScriptLexer.Next | src/inject/script-lexer.ts:24-60 | one pass of the outer loop moves forward and finds at most one script, which is well formed |
| ScriptLexer.AfterTag | src/inject/script-lexer.ts:29-60 | after a tag name: a comment is skipped, a script element is read, and any other tag's attributes are skipped. At most one well-formed script is found |
| ScriptLexer.OuterScan | src/inject/script-lexer.ts:24-62 | only the as-written outer loop can hang |
| ScriptLexer.AppendWellFormed | src/inject/script-lexer.ts:53 | appending well-formed scripts to well-formed scripts keeps them all well formed |
| ScriptLexer.OuterWellFormed | src/inject/script-lexer.ts:24-62 | the outer loop adds only well-formed scripts |
| ScriptLexer.Parse | src/inject/script-lexer.ts:18-63 | corrected, `parseScripts` always returns |
| ScriptLexer.ParseWellFormed | src/inject/script-lexer.ts:18-63 | every script found has its offsets in order and its attributes within the text. Corrected, `start` and `innerEnd` sit on the `<` of the opening and closing tags |
| ScriptLexer.TagScanRun | src/inject/script-lexer.ts:68-69 | the tag-name loop passes over characters that are neither spaces nor `>` |
| ScriptLexer.TagNameAt | src/inject/script-lexer.ts:65-71 | a tag name followed by a space or `>` is read whole |
| ScriptLexer.ScanToRun | src/inject/script-lexer.ts:25-26 | the search for a character passes over every other character |
| ScriptLexer.NameScanRun | src/inject/script-lexer.ts:82-86 | the attribute-name loop passes over characters that are not spaces, `=` or `>` |
| ScriptLexer.CommentScanRun | src/inject/script-lexer.ts:31-32 | the comment loop passes over positions where `-->` does not start |
| ScriptLexer.TrailingLtHangs | src/inject/script-lexer.ts:65-71 | as written, the text `<` never returns, because `readTagName` steps past the end and its end test never holds. Corrected, it finds no script |
| ScriptLexer.OffsetsAsWritten | src/inject/script-lexer.ts:36-47 | as written, `<script>x</script >` gives `start` -1 and `innerEnd` 10 |
| ScriptLexer.OffsetsCorrected | src/inject/script-lexer.ts:36-47 | corrected, the same text gives `start` 0 and `innerEnd` 9, the positions of the two `<` |
| ScriptLexer.SimpleScript | src/inject/script-lexer.ts:138-157 | in the style of the file's own simple case, a script with a quoted `type` attribute at offset 0 is found with the name span `type`, the value span `module` without quotes, and the body `test` |
| ScriptLexer.CommentedScript | src/inject/script-lexer.ts:30-34 | a `<script` inside an HTML comment is not found |
| ScriptLexer.Lexer.constructor | src/inject/script-lexer.ts:1 | the lexer starts on an empty source at position 0 |
| ScriptLexer.Lexer.SkipPast | src/inject/script-lexer.ts:25-43 | the loop moves the cursor exactly as the scan says |
| ScriptLexer.Lexer.ReadTagName | src/inject/script-lexer.ts:65-71 | `readTagName` reads the tag name the scan describes and leaves the cursor after it |
| ScriptLexer.Lexer.SkipSpaces | src/inject/script-lexer.ts:75-92 | spaces are skipped without consuming the next character |
| ScriptLexer.Lexer.SkipSpacesPast | src/inject/script-lexer.ts:95-98 | spaces are skipped and the character after them is consumed |
| ScriptLexer.Lexer.ReadName | src/inject/script-lexer.ts:82-86 | the loop reads the attribute name as the scan describes |
| ScriptLexer.Lexer.ReadUnquoted | src/inject/script-lexer.ts:114-115 | the loop reads an unquoted value as the scan describes |
| ScriptLexer.Lexer.SkipComment | src/inject/script-lexer.ts:31-32 | the loop advances to the next `-->` |
| ScriptLexer.Lexer.ScanAttr | src/inject/script-lexer.ts:73-118 | `scanAttr` returns the attribute the scan describes and leaves the cursor after it |
| ScriptLexer.Lexer.ReadValue | src/inject/script-lexer.ts:88-117 | after a name ending in `=` the value is read. After a space, spaces are skipped up to an `=`, a `>` or another name |
| ScriptLexer.Lexer.ReadAssigned | src/inject/script-lexer.ts:95-117 | the value after `=` is read: quoted, unquoted, or none when the text ends |
| ScriptLexer.Lexer.ScanAttrs | src/inject/script-lexer.ts:38-59 | the attribute loop collects exactly the attributes the scan lists |
| ScriptLexer.Lexer.ReadBody | src/inject/script-lexer.ts:41-52 | the inner loop reads tags until `/script` and leaves the cursor at the end of the closing tag |
| ScriptLexer.Lexer.ReadScript | src/inject/script-lexer.ts:35-53 | a `<script` element is read as `ScriptElement` says, and the cursor ends at its `end` |
| ScriptLexer.Lexer.ReadNext | src/inject/script-lexer.ts:24-60 | one pass of the outer loop, exactly as `Next` says |
| ScriptLexer.Lexer.ParseScripts | src/inject/script-lexer.ts:18-63 | `parseScripts` returns exactly `Parse` of its text, so its scripts are well formed |
| JsonStyle.StyleObject.constructor | src/common/json.ts:12-18 | a new style object holds the given style; `defaultStyle` is one such object, shared by reference |
| JsonStyle.FirstWhere | src/common/json.ts:23-70 | the first position whose character satisfies the test, and every earlier one fails it. It is -1 exactly when none satisfies it |
| JsonStyle.NewlineMatch | src/common/json.ts:23 | at the first line terminator: `\r\n` when a `\r` is followed by `\n`, otherwise the single character. None exactly when the text has no terminator |
| JsonStyle.QuoteMatch | src/common/json.ts:70 | the first `"` or `'` of the text, if any |
| JsonStyle.LeadingSpace | src/common/json.ts:32-34 | the longest prefix of the line made of white space |
| JsonStyle.IndentAsWrittenFrom | src/common/json.ts:31-35 | the indent is found exactly when some line has content, and it is then the indentation of one of those lines |
| JsonStyle.MinIndentIsMinimum | src/common/json.ts:31-35 | corrected, the indent is no longer than the indentation of any line with content |
| JsonStyle.IndentAsWrittenDeeper | src/common/json.ts:33 | as written, `curIndent.length` is the match array's length, always 1, so `  [` then `    1]` gets the deeper indent of four spaces |
| JsonStyle.IndentCorrectedShallower | src/common/json.ts:33 | corrected, the same lines get the indent of the first, two spaces |
| JsonStyle.NewlineOf | src/common/json.ts:23-25 | the newline is the first line terminator of the text, or the platform's end of line when there is none. It is never empty |
| JsonStyle.TrailingOf | src/common/json.ts:74 | the trailing newline is the newline exactly when the text ends with it, and empty otherwise |
| JsonStyle.DetectedStyle | src/common/json.ts:20-77 | a text without any line with content throws the `TypeError` of line 38. Otherwise the style keeps the default tab and takes its newline, first quote and trailing newline from the text |
| JsonStyle.DetectStyle | src/common/json.ts:20-77 | the step-by-step update of a copy of the default style gives exactly the detected style |
| JsonStyle.NewlineDefault | src/common/json.ts:14-25 | a text without line breaks keeps the platform newline |
| JsonStyle.NewlineCrLf | src/common/json.ts:23-25 | a text whose first break is `\r\n` gets `\r\n` as its newline |
| JsonStyle.WithoutBom | src/common/json.ts:80-82 | a leading byte order mark is dropped, and any other text is kept as it is |
| JsonStyle.ParseMessage | src/common/json.ts:89 | "Error parsing JSON file", followed by a space and the file name when a non-empty one is given |
| JsonStyle.ParseStyled | src/common/json.ts:79-91 | the style is detected before parsing, so its error comes first. Unparsable text gives the parse error naming the file. Success returns the parsed value and the detected style of the text without its byte order mark |
| JsonStyle.ParseStyledBom | src/common/json.ts:80-82 | a leading byte order mark changes nothing |
| JsonStyle.ParseEmptyAsWritten | src/common/json.ts:36-38 | as written, an empty `package.json` throws a `TypeError` instead of the parse error naming the file |
| JsonStyle.DetectedStyleCorrected | src/common/json.ts:20-77 | corrected, the indent is the shortest indentation of a line with content, or the default when there is none, and detection never fails |
| JsonStyle.ParseStyledCorrected | src/common/json.ts:79-91 | corrected, parsing fails exactly when the text does not parse, with the error naming the file |
| JsonStyle.ParseEmptyCorrected | src/common/json.ts:79-91 | corrected, an unparsable empty `package.json` gives "Error parsing JSON file package.json" |
| JsonStyle.ReplaceEmptyStringsIdentity | src/common/json.ts:97 | with the double quote as the quote, the empty-string pass changes nothing |
| JsonStyle.ReplaceQuotesIdentity | src/common/json.ts:98 | with the double quote as the quote, the quote pass changes nothing |
| JsonStyle.ReplaceQuotesNewlines | src/common/json.ts:98 | the quote pass never adds or removes a line break |
| JsonStyle.StringifyStyled | src/common/json.ts:93-100 | the output starts with the style's indent and ends with its trailing newline |
| JsonStyle.StringifyPlain | src/common/json.ts:93-100 | in a double-quoted `\n` style with no base indent and no trailing newline, the output is exactly what `JSON.stringify` gives |
| JsonStyle.ReplaceAllSame | src/common/json.ts:99 | replacing a character by itself changes nothing |
| EnvUtils.ConsNoDup | src/utils.ts:202 | putting a new value in front of a list without repeats keeps it without repeats |
| EnvUtils.RemoveFirstPermutes | src/utils.ts:195 | `splice(indexOf(x), 1)` removes exactly one occurrence of `x` when there is one, and nothing otherwise |
| EnvUtils.RemoveFirstKeeps | src/utils.ts:195 | every other value stays, and a value that was absent stays absent |
| EnvUtils.RemoveFirstNoDup | src/utils.ts:195 | in a list without repeats, removing the first `x` leaves no `x` |
| EnvUtils.RemoveEachPermutes | src/utils.ts:194-196 | one occurrence of each listed env is removed, as long as occurrences remain |
| EnvUtils.RemoveEachNoDup | src/utils.ts:194-196 | for an env list without repeats, an entry stays exactly when it is not listed |
| EnvUtils.RemoveEnvs | src/utils.ts:193-198 | `removeEnvs` returns the env list minus one occurrence of each listed env, counted as a multiset, sorted |
| EnvUtils.NotInRemoveFirst | src/utils.ts:195 | removing an absent value changes nothing |
| EnvUtils.PushedMembers | src/utils.ts:201-205 | after pushing, an env is present exactly when it was present or requested, and no repeats are introduced |
| EnvUtils.PrunedKeepsRequested | src/utils.ts:206-209 | a requested env is never pruned |
| EnvUtils.PrunedNoDup | src/utils.ts:206-209 | in a list without repeats, pruning keeps an env exactly when it was requested or is not excluded |
| EnvUtils.AddEnvs | src/utils.ts:199-211 | `addEnvs` returns a sorted list holding every requested env |
| EnvUtils.SortStringsNoDup | src/utils.ts:197-210 | sorting a list without repeats gives one without repeats |
| EnvUtils.AddEnvsMembers | src/utils.ts:186-211 | for an env list without repeats, an env is in the result exactly when it was requested, or was present and no requested env excludes it. The result has no repeats |
| EnvUtils.AddEnvsDenoBrowser | src/utils.ts:186-211 | `deno, module, production` with `deno, browser` keeps both `deno` and `browser`: an exclusion that is itself requested is not applied |
| EnvUtils.RemoveNonStaticMember | src/utils.ts:238-242 | an env survives the filter exactly when it is not `import`, `require` or `default` |
| EnvUtils.RemoveNonStaticConcat | src/utils.ts:238-242 | the filter keeps the order of what it keeps |
| EnvUtils.RemoveNonStaticNone | src/utils.ts:238-242 | a list without those conditions passes unchanged |
| EnvUtils.AttachEnv | src/utils.ts:244-246 | only `env` changes, and it holds exactly the static envs given |
| EnvUtils.DetachEnv | src/utils.ts:248-250 | the copy has no `env`, and everything else is the same |
| EnvUtils.AttachDetach | src/utils.ts:244-250 | detaching undoes attaching, attaching overrides a detach, and re-attaching a map's own env changes nothing |
| EnvUtils.TrimAll | src/utils.ts:219-254 | each entry is trimmed, and the order and count are kept |
| EnvUtils.NegatedMember | src/utils.ts:224-228 | each of the two filters keeps exactly the flags that do, or do not, start with `no-` |
| EnvUtils.GetEnv | src/utils.ts:213-232 | `getEnv` computes the env as written: the map's env or the default, minus the `no-` flags, plus the other flags, without non-static keys |
| EnvUtils.NegatedRemovesNothing | src/utils.ts:222-225 | as written, the `no-` flags are passed with their prefix, so they never remove an env whose name does not itself start with `no-` |
| EnvUtils.NoBrowserFlag | src/utils.ts:215-220 | the text `no-browser` gives the single flag `no-browser` |
| EnvUtils.SingleFlag | src/utils.ts:215-220 | a text without commas and without space at either end gives just itself |
| EnvUtils.GetEnvNoBrowserAsWritten | src/utils.ts:213-232 | as written, `--env no-browser` on a map without an env keeps `browser` |
| EnvUtils.StaticSteps | src/utils.ts:199-242 | a sorted list of static envs passes unchanged through an empty `addEnvs` and the static filter |
| EnvUtils.StripNo | src/utils.ts:224 | each name is the flag with its `no-` prefix cut off |
| EnvUtils.GetEnvCorrectedRemoves | src/utils.ts:222-225 | corrected, a `no-x` flag removes `x` from an env list without repeats, unless a positive flag asks for `x` again |
| EnvUtils.GetEnvNoBrowserCorrected | src/utils.ts:213-232 | corrected, `--env no-browser` on a map without an env drops `browser` |
| EnvUtils.ParsePackageSpecShape | src/utils.ts:311-314 | the name is a prefix of the target. It has no `@` except a leading scope marker, which is kept |
| EnvUtils.SplitFirstPrefix | src/utils.ts:313 | the first piece of a split is a prefix of the text |
| EnvUtils.ParsePackageSpecName | src/utils.ts:311-314 | a package name comes back both from `name@range` and from the bare name |
| EnvUtils.ScopedSpecName | src/utils.ts:312 | `@scope/name@range` and `@scope/name` both give `@scope/name` |
| EnvUtils.PlainSpecName | src/utils.ts:313 | `name@range` and `name` both give `name` |
| EnvUtils.FromEntriesDistinct | src/utils.ts:255 | an object built from entries has each key once |
| EnvUtils.FromEntriesGet | src/utils.ts:255 | every key reads the value of its last entry |
| EnvUtils.Mapping | src/utils.ts:264 | the alias is the text before the first `=`, and the target the text between it and the next `=` |
| EnvUtils.Mappings | src/utils.ts:256-265 | each entry becomes its alias mapping, in order |
| EnvUtils.ResolutionMap | src/utils.ts:255-266 | an entry without `=` throws the resolutions error; otherwise the result has each alias once |
| EnvUtils.GetResolutions | src/utils.ts:252-267 | no value, or an empty flag, gives none. The error is thrown exactly when some trimmed comma-separated entry lacks `=` |
| EnvUtils.GetResolutionsGet | src/utils.ts:252-267 | each alias reads the target of its last entry |
| JspmCli.IndexIn | src/jspm.js:80-92 | `indexOf` gives the first position holding the value, or -1 exactly when it is absent |
| JspmCli.SpliceOne | src/jspm.js:80-92 | `splice(start, 1)` on a non-empty list removes exactly one element, counting a start of -1 from the end. An empty list stays empty |
| JspmCli.RemoveFirstAt | src/jspm.js:80-92 | cutting the first occurrence at its position is removing the first occurrence |
| JspmCli.SpliceOutPresent | src/jspm.js:80-92 | when the value is present, the splice removes its first occurrence |
| JspmCli.SpliceOutAbsent | src/jspm.js:80-92 | when the value is absent, `indexOf` gives -1 and the splice cuts the last element |
| JspmCli.WithImplied | src/jspm.js:69-73 | the flag names are kept, and at most `browser` and `module` are appended |
| JspmCli.GetEnv | src/jspm.js:67-104 | `getEnv` applies the `switch` to each flag name in turn, implied names included, starting from `development, deno, node`; a `no-x` name looks up `name.slice(2)`, that is `-x` with its dash |
| JspmCli.PushImplied | src/jspm.js:70-73 | the two pushes append exactly the implied names |
| JspmCli.EnvAfterSnoc | src/jspm.js:74-102 | handling one more flag name is one more `Step` of the `switch` as written |
| JspmCli.ApplyName | src/jspm.js:75-101 | the loop body computes exactly the `Step` for one flag name, including the `no-` case's splice at the index of `-x` |
| JspmCli.Step | src/jspm.js:75-101 | one pass of the `switch` adds at most one env, and only `browser`, `production` or an unrecognised name |
| JspmCli.EnvAfter | src/jspm.js:74-102 | after the loop the env holds only starting envs, `browser`, `production` and unrecognised flag names, and is no longer than the start and the names together |
| JspmCli.NegatingStep | src/jspm.js:76-81 | a `no-x` name looks up `-x`: it takes out the first `-x` when there is one, and otherwise cuts the last env, or leaves an empty env empty |
| JspmCli.NoDenoAsWritten | src/jspm.js:67-104 | as written, `--env no-deno` ends with `development, deno`: `node` is cut and `deno` kept |
| JspmCli.NegatingCutsLast | src/jspm.js:74-102 | as written, when no earlier flag was `-x`, a `no-x` flag cuts the last env of a non-empty env |
| JspmCli.ImpliedBrowser | src/jspm.js:70-73 | a browser command gets `browser` unless told `no-browser`, and then `module` unless told `no-module` |
| JspmCli.NoOpNames | src/jspm.js:94-97 | `module`, `deno` and `development` never change the env |
| JspmCli.UnrecognisedAppended | src/jspm.js:98-100 | names the `switch` does not know are appended in the order given |
| JspmCli.GetEnvPlain | src/jspm.js:67-104 | with an empty flag list and outside the browser, the env is `development, deno, node` |
| JspmCli.GetEnvNoFlag | src/jspm.js:69-100 | without an env flag, `''` splits into one empty name, which is appended to the env |
| JspmCli.ProductionStep | src/jspm.js:87-90 | `production` takes out `development` and appends `production` |
| JspmCli.BrowserStep | src/jspm.js:82-86 | `browser` takes out `deno` and `node` and appends `browser` |
| JspmCli.GetEnvBrowser | src/jspm.js:67-104 | a browser command without env flags gets `browser` and `module`, and ends with `development, browser` |
| JspmCli.BrowserOnly | src/jspm.js:82-86 | from the starting env, `browser` gives `development, browser` |
| JspmCli.BrowserNoNode | src/jspm.js:76-86 | as written, `browser` then `no-node` leaves only `development` |
| JspmCli.BrowserFromInitial | src/jspm.js:82-86 | from the starting env, `browser` leaves `development` and `browser` |
| JspmCli.NoNodeAfterBrowser | src/jspm.js:78-80 | `no-node` looks up `-node`, which is not in the env, so the splice at -1 cuts `browser` |
| JspmCli.BrowserNoNodeAsWritten | src/jspm.js:67-104 | as written, `--env browser,no-node` on a non-browser command ends with `development` alone: `browser` itself is cut |
| JspmCli.SpliceOutIfPresentKeeps | src/jspm.js:80-92 | a splice guarded by presence keeps every other env |
| JspmCli.StepCorrectedKeeps | src/jspm.js:75-101 | corrected, a step takes out only the envs its name asks to take out |
| JspmCli.EnvAfterCorrectedKeeps | src/jspm.js:74-102 | corrected, an env stays unless some name asks to take it out |
| JspmCli.BrowserFromInitialCorrected | src/jspm.js:82-86 | corrected, `browser` from the starting env still gives `development, browser` |
| JspmCli.NoNodeAfterBrowserCorrected | src/jspm.js:78-80 | corrected, `no-node` after `browser` changes nothing |
| JspmCli.BrowserOnlyCorrected | src/jspm.js:82-86 | corrected, `browser` alone gives `development, browser` |
| JspmCli.BrowserNoNodeKept | src/jspm.js:74-102 | corrected, `browser, no-node` keeps `browser` |
| JspmCli.BrowserNoNodeCorrected | src/jspm.js:67-104 | corrected, `--env browser,no-node` keeps `development, browser` |
| JspmCli.NoDenoCorrected | src/jspm.js:67-104 | corrected, `--env no-deno` takes out `deno` and keeps `development, node` |
| JspmCli.GetResolutions | src/jspm.js:57-65 | an absent or empty flag gives none. Each given string must contain `=`, otherwise the resolutions error is thrown; strings are neither trimmed nor split at commas. The result has each alias once |
| JspmCli.Present | src/jspm.js:60-64 | a map read from the flag is returned, or its error is passed on |
| JspmCli.GetResolutionsSingle | src/jspm.js:57-65 | a single `alias=target` flag maps the alias to the target |
| ListCmd.ExportsTable | src/cmd/list.ts:31-34 | a non-object, or an object none of whose keys starts with `.`, is wrapped as `{'.': exports}`. A subpath object is kept as it is |
| ListCmd.MatchingKeys | src/cmd/list.ts:36 | every kept key starts with the subpath and does not end in `!cjs`, and there are no more kept keys than entries |
| ListCmd.Copied | src/cmd/list.ts:40-43 | every copied entry is under one of the given keys, and there are no more entries than keys |
| ListCmd.MatchingKeysMember | src/cmd/list.ts:36 | exactly the keys that start with the subpath and do not end in `!cjs` are kept |
| ListCmd.MatchingEntriesKeys | src/cmd/list.ts:36-43 | the matching entries carry exactly the matching keys |
| ListCmd.MatchingEntriesFrom | src/cmd/list.ts:36-43 | an entry matches exactly when it is an entry of the object and its key passes the filter |
| ListCmd.CopiedAgree | src/cmd/list.ts:41-43 | copying reads the object only at the copied keys |
| ListCmd.GetBound | src/cmd/list.ts:42 | a bound key is found |
| ListCmd.CopiedMatching | src/cmd/list.ts:40-43 | with distinct keys, copying the matching keys one by one rebuilds exactly the matching entries, in order |
| ListCmd.CopyMatches | src/cmd/list.ts:40-43 | the loop copies each matched key with its value |
| ListCmd.NamedError | src/cmd/list.ts:26-38 | the error message embeds the package's display string, and a failing decode is passed on |
| ListCmd.DropLast | src/cmd/list.ts:45 | `slice(0, -1)` drops exactly the last character, and leaves an empty string empty |
| ListCmd.List | src/cmd/list.ts:24-45 | no configuration, falsy `exports`, or no key matching the subpath each throw their named error. Otherwise the result is the display name of the URL without its last `/`, with exactly the matching entries |
| ListCmd.ListedEntries | src/cmd/list.ts:31-43 | from a well-formed object, the listing holds exactly the entries whose keys start with the subpath and do not end in `!cjs`, with their values unchanged and in order |
| ListCmd.ListString | src/cmd/list.ts:31-38 | a string export is listed under `.`, matched by the subpath `.` and not by `./feature` |
| RemCmd.Removed | src/cmd/rem.ts:9-18 | the entries kept are exactly those whose name is not listed or whose value is falsy, in order |
| RemCmd.Delete | src/cmd/rem.ts:11-17 | `delete` keeps only entries under other names |
| RemCmd.DeleteIfTruthy | src/cmd/rem.ts:10-17 | a missing field stays missing. A name bound to a truthy value is deleted: the name becomes unbound and every remaining entry was there before. Otherwise the field is unchanged |
| RemCmd.RemovedCons | src/cmd/rem.ts:9-18 | removal and deletion look at the first entry, then go on with the rest |
| RemCmd.RemovedNothing | src/cmd/rem.ts:9-18 | listing no names removes nothing |
| RemCmd.RemovedUnbound | src/cmd/rem.ts:10-17 | listing a name the field does not bind changes nothing |
| RemCmd.DeleteUnbound | src/cmd/rem.ts:11 | deleting an unbound name changes nothing |
| RemCmd.RemovedGet | src/cmd/rem.ts:9-18 | a name that was unbound stays unbound |
| RemCmd.RemoveStep | src/cmd/rem.ts:9-18 | the loop body for one more name takes the removal one name further |
| RemCmd.RemovedGone | src/cmd/rem.ts:9-18 | afterwards, no listed name is bound to a truthy value |
| RemCmd.RemovedKeeps | src/cmd/rem.ts:9-18 | a name that is not listed, or is listed with a falsy value, reads as before |
| RemCmd.RemovedIdempotent | src/cmd/rem.ts:9-18 | removing the same names twice is the same as removing them once |
| RemCmd.PackageJson.constructor | src/cmd/rem.ts:8 | the package.json view holds the four dependency fields as given, and with distinct keys in each field it is well formed |
| RemCmd.PackageJson.RemoveNames | src/cmd/rem.ts:8-19 | each of the four fields loses exactly the truthy entries of the listed names, and a missing field stays missing |
| RemCmd.Rem | src/cmd/rem.ts:4-19 | a single name is handled as a one-name list, and each of the four fields loses the truthy entries of the listed names; the view stays well formed |
| RemCmd.FieldNothing | src/cmd/rem.ts:9-18 | listing no names leaves a field as it was |
| RemCmd.FieldStep | src/cmd/rem.ts:10-17 | one more name: the field loses its truthy entry under that name |
| RemCmd.RemovedDistinct | src/cmd/rem.ts:9-18 | removal keeps the keys distinct |
| RemCmd.RemovedSubsequence | src/cmd/rem.ts:9-18 | removal from an object with distinct keys keeps them distinct |
| Manifest.GetFinds | src/install/lock.ts:22 | a lookup finds a binding exactly when the key is bound, and returns its value |
| Manifest.Put | src/install/lock.ts:29 | an assignment overwrites an existing key in place and appends a new key last |
| Manifest.Overwrite | src/install/lock.ts:29 | every entry under the key takes the value, and nothing is added |
| Manifest.Keys | src/cmd/list.ts:36 | `Object.keys` lists the keys in order |
| Manifest.Values | src/install/lock.ts:59-60 | the values in the order of their keys |
| Manifest.GetOverwrite | src/install/lock.ts:29 | overwriting leaves every other key's value alone |
| Manifest.GetPut | src/install/lock.ts:25-30 | after an assignment the key reads the new value, and every other key reads as before |
| Manifest.PutDistinct | src/install/lock.ts:29 | assignment keeps the keys distinct |
| Manifest.Latest | src/utils.ts:255 | a key is bound exactly when some entry names it, and it gets the value of the last such entry |
| Manifest.LatestAppend | src/utils.ts:255 | one more entry decides its own key and leaves the others alone |
| Manifest.LatestIsGet | src/utils.ts:255 | without repeated keys, the last binding is what a lookup finds |
| Manifest.GetAppend | src/install/lock.ts:29 | appending an entry changes a lookup only for a key that was unbound |

## Left out

- Network, file system and processes: `fetch`, file reads and writes, TOML reading and printing, and the integrity hash are parameters (`Fetch`, the lock's text and printer, `updatePjson`'s outcome as a boolean), so their failures are only the ones a parameter can report.
- Foreign libraries: `sver` ranges and versions are opaque values behind `Semver`; `new URL` is the `parse` of `UrlOps`; `JSON.parse`, `JSON.stringify`, `es-module-lexer` and the `System.register` regular expression are function parameters. `getScopeMatches`/`getMapMatch` are given only by the properties the code relies on (a match is a key of the dictionary that prefixes the specifier).
- Concurrency: `Promise.all` fan-out is taken one task at a time, the promise-chain mutex of `startInstall` is the `installing` flag, and the `Pool` of src/tracemap.ts (whose `next` never wakes a waiter) is not modelled. Interleavings of concurrent traces are therefore not covered.
- Key order of JavaScript objects: dictionaries are ordered association lists in insertion order; the rule that integer-like keys come first is not modelled.
- `ranges.reverse()` reverses the caller's target in place (src/install/resolver.ts:124, src/providers/jspm.io.ts:50); the model iterates over a reversed copy, so the aliasing side effect on the target is not captured.
- Installer.Installer.LockInstall: the visit loop carries a `fuel` bound; when it runs out the result is `Ok` with `complete` false and no pruning, so the closure and pruning properties are stated only for a complete run.
- Installer.Installer.FinishInstall: inherits the `fuel` bound of `LockInstall`; its closure property is stated only when the re-trace was complete.
- Tracer.TraceMap.Trace: the recursion through `traceUrl` carries a `fuel` bound and reports `Exhausted` when it runs out, which the source never does; the same holds for Tracer.TraceMap.TraceUrl, TraceNew, TraceDeps, TraceDep and TracePass.
- Tracer.TraceMap.Converge: the do-while loop runs at most `passes` times and reports `Exhausted` when no pass left `newInstalls` false within that bound.
- Tracer.TraceMap.FullInstall: inherits the `fuel` bound of the tracing it drives. The visited dependencies, the closure and the pruning of the lock are stated only without `fullMap` and for a complete run: with `fullMap` the builtin installs that follow change the lock again. That builtin loop, which installs and maps each remaining builtin in `builtinSet` order, is modelled but its installs and mappings are not stated in the contract.
- Tracer.TraceMap.Finish: inherits the `passes` and `fuel` bounds of `Converge`.
- ImportMapTrace.Tracing.DoTrace: the recursive trace carries a `fuel` bound and reports `Exhausted` when it runs out; the same holds for Visit, Descend, TraceAllDeps, TraceDeps, TraceDynamicDeps, TraceSpecifiers, TraceDynamics and Run.
- ImportMaps.TraceMap.Upgrade: only the guard and the removal of top-level imports are modelled; the `add` it then starts drives an `Installer` API that is not in this source. A single string argument is taken as a one-element list.
- ImportMaps.TraceMap.Uninstall: only the guard and the removal are modelled; the `traceInstall` it then starts is left out for the same reason.
- `rebase` (src/tracemap.ts:150-185): it writes scoped bindings into the top-level imports, so it has no round trip to state; left out.
- `copy` (src/tracemap.ts:128-139) writes to the DOM clipboard; `sort`, `clearIntegrity`, `clearDepcache`, `setIntegrity` and `sortIntegrity` (src/tracemap.ts:225-244) are one-line assignments; `traceInstall`, `install`, `add` and `installToConditions` (src/tracemap.ts:313-421) drive an `Installer` API not in this source. None is modelled.
- The package-base lookup and the creation of the installer at the start of `startInstall` (src/tracemap/tracemap.ts:98-107) are parameters of the tracer, and the `package.json` save loop is reduced to the boolean `updatePjson` reports.
- `getPackageBase` and `checkPjson` of the resolver (src/install/resolver.ts:28-44,91-95) walk up the file system looking for `package.json`; their result is a parameter. `getIntegrity` (src/install/resolver.ts:284-292) is a fetch followed by a hash, and `newResolver`/`setOffline` only replace the fetch options; none is modelled.
- Dead code in src/install/installer.ts: `getInstalledPackages` always returns an empty list and `tryUpgradePackagesTo` returns nothing (lines 236-251, 286-293, 314-340), so the latest version is always installed and no deduplication is modelled; the freeze branch at lines 226-234 cannot be reached after line 205.
- `detectStyle`'s tab detection calls `Object.keys` on a `Map` and never changes the tab, so the tab is always the default and its detection loop is not modelled.
- JsonStyle.StringifyStyled: the `$` patterns of `String.prototype.replace` in the replacement text are not interpreted.
- `os.EOL` is a parameter of `parseStyled` and the default style.
- Logging, the spinner, console output, `writeOutput`/`getInput`/`canRead`/`canWrite` of src/utils.ts, the CLI's argument parsing and help text, and `logScripts` of src/inject/script-lexer.ts are presentation or file I/O and are not modelled.
- Lock.SavedDeps: dependency names are ordered by code point (`Sorting.StrLe`), where src/install/lock.ts:106 sorts with the locale-dependent `localeCompare`, which for example puts `abbrev` before `JSONStream`; locale collation is not modelled.
- Lock.SavedPackageOf: the same code-point order stands for the `localeCompare` of src/install/lock.ts:106.
- Lock.SavedPackages: packages are ordered by code point where src/install/lock.ts:109 uses `localeCompare`.
- Lock.SaveVersionLock: inherits the code-point order of the packages and their dependencies in place of `localeCompare` (src/install/lock.ts:106,109).
- Lock.PruneResolutions: a listed pair whose scope exists but whose name is unbound gets no binding, where src/install/lock.ts:35-37 writes an `undefined` binding that makes a later save throw at `new URL(undefined)`. In the lock install every visited pair was installed first, so the case does not arise there.
- Exports.StarsReplaced: the `$&`, `$$` and `$n` patterns that `String.prototype.replace` interprets in its replacement text (src/install/resolver.ts:274) are not interpreted; a replacement holding `$&` would put the matched `*` back.
- Exports.ReplaceTargets: the same `$` patterns of `replace` are left uninterpreted in every target.
- EnvUtils.RemoveEnvs: the result is sorted by code point (`Sorting.SortStrings`), where `env.sort()` at src/utils.ts:197 compares UTF-16 code units; the orders differ only between a character above U+FFFF and one from U+E000 to U+FFFF.
- EnvUtils.AddEnvs: sorts by code point where `env.sort()` at src/utils.ts:210 compares UTF-16 code units, with the same difference as for `EnvUtils.RemoveEnvs`.
- ScriptLexer.Parse: offsets count Dafny characters (Unicode scalar values), where JavaScript's `charCodeAt` and `length` count UTF-16 code units; the offsets differ after a character outside the Basic Multilingual Plane.
- Format.PadStart: widths count Dafny characters, where `padStart` counts UTF-16 code units.
- ImportMapTrace.Tracing.Run: the post-order of the indices (a static dependency numbered before its parent) is not stated. With an import cycle the source itself numbers a dependency that is still being traced after its importer, so only distinct indices below the number of modules, and the resolved map and dependency values, are proved.
- ImportMapTrace.Trace: inherits the same gap: post-order numbering is not stated, for the cycle reason above.


## Findings

In each row, the as-written member models the code as it stands and exhibits the input. The corrected member proves the intended property of the corrected definition, chosen by a `fixed` flag or given as a definition of its own.

| source | as written | input that shows it | evidently intended | confidence | as-written member | corrected member |
|---|---|---|---|---|---|---|
| src/cli/format.ts:7 | `slice(Math.min(line - 1 - before, 0), Math.max(line + after, lines.length))`: min and max are swapped | `printFrame("a\nb\nc", 1, 1, false, 1, 0)` prints `c` alone; line 2 with no context prints all three lines | the lines from `before` above to `after` below the requested line, cut at the ends | not executed | Format.WindowAsWrittenWrong | Format.WindowAroundLine |
| src/utils.ts:222-225 | `removeEnvs` is given the `no-` flags themselves, so `no-browser` removes an env named `no-browser` | `--env no-browser` on a map without an env keeps `browser` | a `no-x` flag removes `x` | not executed | EnvUtils.GetEnvNoBrowserAsWritten | EnvUtils.GetEnvCorrectedRemoves |
| src/jspm.js:80-92 | `env.splice(env.indexOf(name.slice(2)), 1)`: `slice(2)` keeps the dash, so `no-node` looks up `-node`, which is never in the env; `indexOf` gives -1 and the splice removes the last element | `--env no-deno` gives `development, deno`; `--env browser,no-node` removes `browser` itself, leaving `development` | a `no-x` flag removes `x` when present and leaves the env alone otherwise: `development, node` and `development, browser` | not executed | JspmCli.NoDenoAsWritten | JspmCli.BrowserNoNodeCorrected |
| src/common/json.ts:33 | `curIndent.length` is the length of the match array (always 1), not of the indentation | `"  [\n    1]"` is given the indent `"    "` of its deeper second line | the shortest indentation of the lines with content | not executed | JsonStyle.IndentAsWrittenDeeper | JsonStyle.MinIndentIsMinimum |
| src/common/json.ts:38 | `indent.length` is read while `indent` may still be `undefined` | an empty `package.json` throws a `TypeError` instead of the parse error naming the file | the `JspmError` "Error parsing JSON file package.json" | not executed | JsonStyle.ParseEmptyAsWritten | JsonStyle.ParseEmptyCorrected |
| src/inject/script-lexer.ts:68-69 | the loop stops at the end only when `i === source.length`, but the cursor is already past the end | the text `<`: `readTagName` never returns | end of input returns the scripts found so far | not executed | ScriptLexer.TrailingLtHangs | ScriptLexer.Parse |
| src/inject/script-lexer.ts:36,47 | `start` and `innerEnd` are the cursor less 8. `readTagName` steps over a space after the name but stops at a `>`, so `start` lands on the `<` only when `script` is followed by a space, and `innerEnd` only when `/script` is followed by `>` | `<script>x</script >` gives `start` -1 and `innerEnd` 10 | `start` 0 and `innerEnd` 9, the two `<` | not executed | ScriptLexer.OffsetsAsWritten | ScriptLexer.OffsetsCorrected |
| src/tracemap.ts:192-216 | a scope that is its own hoisting scope aliases `scopeBase` and `scopeImports`, so each binding is set and then deleted, and the scope is deleted | a map whose scope `/` holds bindings, flattened against a base of the same origin, loses every binding of `/` | such a scope is left as it is, and flattening loses no binding | not executed | ImportMaps.FlattenSelfAsWritten | ImportMaps.FlattenSelfCorrected |
| src/tracemap.ts:117 | the count of `/`-separated parts of the base's rest includes the empty part after its trailing `/`, one `../` too many | from base `/a/b/`, the URL `/a/c.js` becomes `../../c.js`, which names `/c.js` | `../c.js`, which names the URL again | not executed | ImportMaps.RelativeAsWritten | ImportMaps.RelativeRoundTrip |
| src/tracemap.ts:70 | only a string base is used; a `URL` instance is ignored | `new TraceMap(new URL("https://x/"))` keeps the environment's base URL | the given URL becomes the base | not executed | ImportMaps.InitialBaseAsWritten | ImportMaps.InitialBaseCorrected |
| src/tracemap/tracemap.ts:205 | `finishInstall(true) \|\| pjsonChanged`: the promise is always truthy, so `pjsonChanged` is never consulted | an install that changed only package.json reports what the installer reported, `false` | a changed package.json is reported | not executed | Tracer.PjsonChangeUnreported | Tracer.Reported |
| src/tracemap/tracemap.ts:188-199 | `lockInstall` returns nothing, so `installs.map` throws | any install with `fullInstall` and `fullMap` set | the mappings of every pair the lock install visited are added | not executed | Tracer.FullMapInstallFails | Tracer.TraceMap.FullInstall |
| src/providers/jspm.io.ts:77-78 | a major range passes the number `range.version.major` as the version, and `pkgToLookupUrl` tests it with `pkg.version ?` (line 107), so major 0 asks for no version | `npm:x@0` fetches the lookup URL of the latest release of `x` and resolves to it | the lookup asks for `@0`, the latest 0.x release | not executed | JspmIo.MajorZeroAsWritten | JspmIo.MajorLookupCorrected |
| src/tracemap.ts:147 | `Object.assign(this.mapStyle, {...})` writes into the map's style object, which for a map not given as text is the module's shared `defaultStyle` | `toString(true)` on one map built from an object, then `toString()` on another | the other map prints in the default style, which stays unchanged | not executed | ImportMaps.MinifySharedAsWritten | ImportMaps.MinifySharedCorrected |
