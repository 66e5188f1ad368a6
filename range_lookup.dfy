/**
 * Resolving a package target's semver ranges to an exact version through
 * memoised registry lookups. The same algorithm appears as
 * `Resolver.resolveLatestTarget` (src/install/resolver.ts:110-187) and as
 * the jspm.io provider's `resolveLatestTarget` (src/providers/jspm.io.ts:36-120);
 * this module holds what they share.
 */
module RangeLookup {
  import opened Wrappers
  import opened Strings
  import opened Package
  import opened Fetch

  /** The four lookup caches kept per `registry:name`: latest, tags, majors, minors. */
  datatype LookupKind = Latest | Tag | MajorLookup | MinorLookup

  /** A cache slot: its kind and the range text sent to the registry (`''` for the latest). */
  datatype LookupKey = LookupKey(kind: LookupKind, text: string)

  /** The outcome of a lookup as its cached promise settles: a package, `null`, or an exception. */
  type Outcome = Result<Option<ExactPackage>>

  /** The memo of one `registry:name`. */
  type Memo = map<LookupKey, Outcome>

  /**
   * The cache slot a range uses, by the order of the source's tests
   * (`isWildcard`, exact with a tag, `isMajor`, `isStable`); other ranges,
   * including an untagged exact version, look nothing up.
   */
  function KeyOf(r: Range): Option<LookupKey>
  {
    match r
    case Wildcard => Some(LookupKey(Latest, ""))
    case ExactTag(tag) => Some(LookupKey(Tag, tag))
    case Major(major) => Some(LookupKey(MajorLookup, major))
    case Stable(major, minor) => Some(LookupKey(MinorLookup, major + "." + minor))
    case _ => None
  }

  /** The exact-version shortcut: one untagged exact range needs no lookup. */
  function ExactShortcut(target: PackageTarget): (r: Option<ExactPackage>)
    ensures r.Some? <==> |target.ranges| == 1 && target.ranges[0].ExactVersion?
    ensures r.Some? ==> r.value == ExactPackage(target.registry, target.name, target.ranges[0].version)
  {
    if |target.ranges| == 1 && target.ranges[0].ExactVersion? then
      Some(ExactPackage(target.registry, target.name, target.ranges[0].version))
    else None
  }

  /** `lookupRange`: 200/304 give the trimmed body as the version, 404 gives `null`, anything else throws. */
  function LookupRange(registry: string, name: string, res: TextResponse): (r: Outcome)
    ensures IsOk(res.status) <==> r.Ok? && r.value.Some?
    ensures res.status == 404 <==> r == Ok(None)
    ensures r.Err? ==> r.error.JspmError?
    ensures r.Ok? && r.value.Some? ==> r.value.value == ExactPackage(registry, name, Trim(res.text))
  {
    if IsOk(res.status) then Ok(Some(ExactPackage(registry, name, Trim(res.text))))
    else if res.status == 404 then Ok(None)
    else Err(JspmError("Invalid status code looking up \"" + registry + ":" + name + "\"", ""))
  }

  function Reverse<T>(s: seq<T>): (r: seq<T>)
    ensures |r| == |s|
    ensures forall i :: 0 <= i < |s| ==> r[i] == s[|s| - 1 - i]
  {
    if |s| == 0 then [] else Reverse(s[1..]) + [s[0]]
  }

  /** The cache slots a list of ranges uses. */
  function Slots(ranges: seq<Range>): (r: set<LookupKey>)
    ensures forall x :: x in ranges && KeyOf(x).Some? ==> KeyOf(x).value in r
  {
    set x | x in ranges && KeyOf(x).Some? :: KeyOf(x).value
  }

  /** Every range before position `n` that uses a cache slot found `null` there. */
  ghost predicate AllNullBefore(rs: seq<Range>, memo: Memo, n: int)
  {
    forall j :: 0 <= j < n && j < |rs| && KeyOf(rs[j]).Some? ==>
      KeyOf(rs[j]).value in memo && memo[KeyOf(rs[j]).value] == Ok(None)
  }

  /**
   * `result` and `memo'` are what resolving `ranges` against `memo` gives:
   * cached outcomes are reused and never replaced, a new slot holds a fresh
   * `lookup` of that slot and belongs to one of the ranges, and the
   * result is the outcome of the first range, last range first, whose slot
   * is not `null` (`Ok(None)` when there is none).
   */
  ghost predicate MemoisedResolution(ranges: seq<Range>, memo: Memo, memo': Memo,
                                     lookup: LookupKey -> Outcome, result: Outcome)
  {
    && (forall k :: k in memo ==> k in memo' && memo'[k] == memo[k])
    && (forall k :: k in memo' && k !in memo ==> memo'[k] == lookup(k))
    && memo'.Keys <= memo.Keys + Slots(ranges)
    && FirstNonNull(Reverse(ranges), memo', result)
  }

  /** `result` is the outcome of the first range of `rs` whose slot in `memo` is not `null`, or `Ok(None)`. */
  ghost predicate FirstNonNull(rs: seq<Range>, memo: Memo, result: Outcome)
  {
    && (result == Ok(None) <==> AllNullBefore(rs, memo, |rs|))
    && (result != Ok(None) ==> (exists i :: DecidedAt(rs, memo, i, result)))
  }

  /** Range `i` of `rs` is the first whose slot is not `null`, and its slot holds `result`. */
  ghost predicate DecidedAt(rs: seq<Range>, memo: Memo, i: int, result: Outcome)
  {
    0 <= i < |rs| && AllNullBefore(rs, memo, i) && KeyOf(rs[i]).Some?
    && KeyOf(rs[i]).value in memo && memo[KeyOf(rs[i]).value] == result
  }

  /**
   * The loop of `resolveLatestTarget` over the ranges in reversed order:
   * each range's cache slot is awaited, filled by one `lookup` the first
   * time it is needed, and the first slot holding a package decides; a
   * slot holding an exception rethrows it. Returns the outcome
   * (`Ok(None)` when no range resolved), the new memo and the slots that
   * were looked up, in order.
   */
  method ResolveRanges(ranges: seq<Range>, memo: Memo, lookup: LookupKey -> Outcome)
    returns (result: Outcome, memo': Memo, fetched: seq<LookupKey>)
    ensures MemoisedResolution(ranges, memo, memo', lookup, result)
    // each slot is looked up at most once, and only when it was not cached
    ensures forall i :: 0 <= i < |fetched| ==> fetched[i] !in memo && fetched[i] in memo'
    ensures forall i, j :: 0 <= i < j < |fetched| ==> fetched[i] != fetched[j]
    ensures forall k :: k in memo' && k !in memo ==> k in fetched
    ensures Slots(ranges) <= memo.Keys ==> fetched == [] && memo' == memo
  {
    var rs := Reverse(ranges);
    memo' := memo;
    fetched := [];
    var i := 0;
    while i < |rs|
      invariant 0 <= i <= |rs|
      invariant Looked(ranges, memo, memo', lookup, fetched)
      invariant AllNullBefore(rs, memo', i)
    {
      var key := KeyOf(rs[i]);
      if key.Some? {
        var k := key.value;
        assert rs[i] in ranges by { assert rs[i] == ranges[|ranges| - 1 - i]; }
        var outcome;
        if k in memo' {
          outcome := memo'[k];
        } else {
          outcome := lookup(k);
          LookupStep(ranges, memo, memo', lookup, fetched, k, rs, i);
          memo' := memo'[k := outcome];
          fetched := fetched + [k];
        }
        if outcome != Ok(None) {
          result := outcome;
          assert DecidedAt(rs, memo', i, result);
          assert !AllNullBefore(rs, memo', |rs|);
          return;
        }
      }
      NullExtends(rs, memo', i);
      i := i + 1;
    }
    result := Ok(None);
  }

  /** A `null` slot at position `i` extends the run of `null`s by one. */
  lemma NullExtends(rs: seq<Range>, memo: Memo, i: int)
    requires 0 <= i < |rs| && AllNullBefore(rs, memo, i)
    requires KeyOf(rs[i]).Some? ==> KeyOf(rs[i]).value in memo && memo[KeyOf(rs[i]).value] == Ok(None)
    ensures AllNullBefore(rs, memo, i + 1)
  {
  }

  /** The cache and the list of looked-up slots while the ranges are resolved. */
  ghost predicate Looked(ranges: seq<Range>, memo: Memo, memo': Memo, lookup: LookupKey -> Outcome, fetched: seq<LookupKey>)
  {
    && (forall k :: k in memo ==> k in memo' && memo'[k] == memo[k])
    && (forall k :: k in memo' && k !in memo ==> memo'[k] == lookup(k))
    && (forall j :: 0 <= j < |fetched| ==> fetched[j] !in memo && fetched[j] in memo')
    && (forall j, l :: 0 <= j < l < |fetched| ==> fetched[j] != fetched[l])
    && (forall k :: k in memo' && k !in memo ==> k in fetched)
    && memo'.Keys <= memo.Keys + Slots(ranges)
    && (Slots(ranges) <= memo.Keys ==> fetched == [] && memo' == memo)
  }

  /** Looking up a slot that is not cached yet records it once and keeps the earlier `null`s. */
  lemma LookupStep(ranges: seq<Range>, memo: Memo, memo': Memo, lookup: LookupKey -> Outcome, fetched: seq<LookupKey>,
                   k: LookupKey, rs: seq<Range>, i: int)
    requires Looked(ranges, memo, memo', lookup, fetched) && AllNullBefore(rs, memo', i)
    requires k !in memo' && k in Slots(ranges)
    ensures Looked(ranges, memo, memo'[k := lookup(k)], lookup, fetched + [k])
    ensures AllNullBefore(rs, memo'[k := lookup(k)], i)
  {
    var m := memo'[k := lookup(k)];
    var f := fetched + [k];
    assert forall j :: 0 <= j < |fetched| ==> f[j] == fetched[j];
    assert !(Slots(ranges) <= memo.Keys);
  }

  /**
   * Resolving the same ranges a second time, against the memo the first
   * resolution left, gives the same outcome: the cache makes the answer stable.
   */
  lemma {:induction false} ResolutionRepeats(ranges: seq<Range>, memo: Memo, memo1: Memo, memo2: Memo,
                                             lookup: LookupKey -> Outcome, r1: Outcome, r2: Outcome)
    requires MemoisedResolution(ranges, memo, memo1, lookup, r1)
    requires MemoisedResolution(ranges, memo1, memo2, lookup, r2)
    ensures r2 == r1
  {
    var rs := Reverse(ranges);
    if r1 == Ok(None) {
      assert AllNullBefore(rs, memo2, |rs|);
    } else {
      var i1 :| DecidedAt(rs, memo1, i1, r1);
      assert memo2[KeyOf(rs[i1]).value] == r1;
      assert r2 != Ok(None);
      var i2 :| DecidedAt(rs, memo2, i2, r2);
      assert i2 == i1;
    }
  }
}
