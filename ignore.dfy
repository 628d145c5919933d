/**
 * `handleIgnoreGlobs` (src/index.ts): rewrites the `ignored` option so that
 * every glob string in it is served by one compiled picomatch matcher,
 * appended after the entries chokidar handles itself.
 */
module IgnoreGlobs {
  import opened Js
  import opened Picomatch
  import opened Seqs

  /** `Array.isArray(ignored) ? ignored : ignored != null ? [ignored] : []` */
  function Normalize(ignored: Value): seq<Value>
  {
    if ignored.Arr? then ignored.items
    else if ignored.Undefined? || ignored.Null? then []
    else [ignored]
  }

  /** An entry that goes into the compiled matcher: a string the scanner calls a glob. */
  predicate IsGlobEntry(v: Value, scan: Scanner)
  {
    v.Str? && scan(v.s).isGlob
  }

  /** The entries passed through to chokidar unchanged, in their original order. */
  function NonGlobs(ms: seq<Value>, scan: Scanner): seq<Value>
  {
    if ms == [] then []
    else NonGlobs(ms[..|ms| - 1], scan) + (if IsGlobEntry(ms[|ms| - 1], scan) then [] else [ms[|ms| - 1]])
  }

  /** The glob strings, in their original order. */
  function GlobStrings(ms: seq<Value>, scan: Scanner): seq<string>
  {
    if ms == [] then []
    else GlobStrings(ms[..|ms| - 1], scan) + (if IsGlobEntry(ms[|ms| - 1], scan) then [ms[|ms| - 1].s] else [])
  }

  /** The rewritten `ignored` list. */
  function IgnoreSpec(ignored: Value, cwd: Value, scan: Scanner): seq<Value>
  {
    var ms := Normalize(ignored);
    var globs := GlobStrings(ms, scan);
    if globs == [] then ms else NonGlobs(ms, scan) + [Matcher(Compiled(globs, cwd))]
  }

  lemma FiltersStep(ms: seq<Value>, i: nat, scan: Scanner)
    requires i < |ms|
    ensures NonGlobs(ms[..i + 1], scan) == NonGlobs(ms[..i], scan) + (if IsGlobEntry(ms[i], scan) then [] else [ms[i]])
    ensures GlobStrings(ms[..i + 1], scan) == GlobStrings(ms[..i], scan) + (if IsGlobEntry(ms[i], scan) then [ms[i].s] else [])
  {
    assert ms[..i + 1][..i] == ms[..i];
  }

  /** `handleIgnoreGlobs`: one pass splitting glob strings from everything else. */
  method HandleIgnoreGlobs(ignored: Value, cwd: Value, scan: Scanner) returns (r: seq<Value>)
    ensures r == IgnoreSpec(ignored, cwd, scan)
  {
    var matchers := Normalize(ignored);
    var nonGlobMatchers: seq<Value> := [];
    var ignoredGlobs: seq<string> := [];

    for i := 0 to |matchers|
      invariant nonGlobMatchers == NonGlobs(matchers[..i], scan)
      invariant ignoredGlobs == GlobStrings(matchers[..i], scan)
    {
      var s := matchers[i];
      FiltersStep(matchers, i, scan);
      if !s.Str? || !scan(s.s).isGlob {
        nonGlobMatchers := nonGlobMatchers + [s];
        continue;
      }
      ignoredGlobs := ignoredGlobs + [s.s];
    }
    WholePrefix(matchers);

    if |ignoredGlobs| == 0 {
      return matchers;
    }

    var matcher := Matcher(Compiled(ignoredGlobs, cwd));
    nonGlobMatchers := nonGlobMatchers + [matcher];
    return nonGlobMatchers;
  }

  // ----- Properties -----

  lemma {:induction false} NonGlobsMembers(ms: seq<Value>, scan: Scanner)
    ensures forall v :: v in NonGlobs(ms, scan) <==> v in ms && !IsGlobEntry(v, scan)
  {
    if ms != [] {
      NonGlobsMembers(ms[..|ms| - 1], scan);
      assert ms == ms[..|ms| - 1] + [ms[|ms| - 1]];
    }
  }

  lemma {:induction false} GlobStringsMembers(ms: seq<Value>, scan: Scanner)
    ensures forall s :: s in GlobStrings(ms, scan) <==> Str(s) in ms && scan(s).isGlob
  {
    if ms != [] {
      GlobStringsMembers(ms[..|ms| - 1], scan);
      assert ms == ms[..|ms| - 1] + [ms[|ms| - 1]];
    }
  }

  /** Each entry is either passed through or collected as a glob string. */
  lemma {:induction false} SplitCount(ms: seq<Value>, scan: Scanner)
    ensures |NonGlobs(ms, scan)| + |GlobStrings(ms, scan)| == |ms|
  {
    if ms != [] {
      SplitCount(ms[..|ms| - 1], scan);
    }
  }

  /** The collected glob strings as the string values they came from. */
  function AsValues(gs: seq<string>): seq<Value>
  {
    if gs == [] then [] else AsValues(gs[..|gs| - 1]) + [Str(gs[|gs| - 1])]
  }

  lemma AsValuesSnoc(gs: seq<string>, g: string)
    ensures AsValues(gs + [g]) == AsValues(gs) + [Str(g)]
  {
    assert (gs + [g])[..|gs|] == gs;
  }

  lemma SplitStep(ms: seq<Value>, scan: Scanner)
    requires ms != []
    ensures var init, x := ms[..|ms| - 1], ms[|ms| - 1];
            multiset(NonGlobs(ms, scan)) + multiset(AsValues(GlobStrings(ms, scan)))
              == multiset(NonGlobs(init, scan)) + multiset(AsValues(GlobStrings(init, scan))) + multiset{x}
  {
    var init, x := ms[..|ms| - 1], ms[|ms| - 1];
    var ng, gs := NonGlobs(init, scan), GlobStrings(init, scan);
    if IsGlobEntry(x, scan) {
      assert NonGlobs(ms, scan) == ng;
      assert GlobStrings(ms, scan) == gs + [x.s];
      AsValuesSnoc(gs, x.s);
      assert Str(x.s) == x;
      assert multiset(AsValues(gs) + [x]) == multiset(AsValues(gs)) + multiset{x};
    } else {
      assert NonGlobs(ms, scan) == ng + [x];
      assert GlobStrings(ms, scan) == gs;
      assert multiset(ng + [x]) == multiset(ng) + multiset{x};
    }
  }

  lemma MultisetSnoc(ms: seq<Value>)
    requires ms != []
    ensures multiset(ms) == multiset(ms[..|ms| - 1]) + multiset{ms[|ms| - 1]}
  {
    assert ms == ms[..|ms| - 1] + [ms[|ms| - 1]];
  }

  /** Every entry goes to exactly one of the two lists, counted with multiplicity. */
  lemma {:induction false} SplitPartition(ms: seq<Value>, scan: Scanner)
    ensures multiset(NonGlobs(ms, scan)) + multiset(AsValues(GlobStrings(ms, scan))) == multiset(ms)
  {
    if ms != [] {
      SplitPartition(ms[..|ms| - 1], scan);
      SplitStep(ms, scan);
      MultisetSnoc(ms);
    }
  }

  lemma NoGlobStrings(ms: seq<Value>, scan: Scanner)
    ensures GlobStrings(ms, scan) == [] <==> forall v :: v in ms ==> !IsGlobEntry(v, scan)
  {
    GlobStringsMembers(ms, scan);
    if GlobStrings(ms, scan) != [] {
      assert Str(GlobStrings(ms, scan)[0]) in ms;
    } else {
      forall v | v in ms && v.Str? ensures !scan(v.s).isGlob {
        assert Str(v.s) == v;
      }
    }
  }

  /**
   * Normalisation and the no-glob identity: an absent or null option
   * becomes the empty list, and when no entry is a glob string the
   * normalised list comes back unchanged (a single value as `[v]`, an
   * array as it is).
   */
  lemma IgnoreNoGlobIdentity(ignored: Value, cwd: Value, scan: Scanner)
    ensures ignored.Undefined? || ignored.Null? ==> IgnoreSpec(ignored, cwd, scan) == []
    ensures !ignored.Arr? && !ignored.Undefined? && !ignored.Null? && !IsGlobEntry(ignored, scan) ==>
              IgnoreSpec(ignored, cwd, scan) == [ignored]
    ensures ignored.Arr? && (forall v :: v in ignored.items ==> !IsGlobEntry(v, scan)) ==>
              IgnoreSpec(ignored, cwd, scan) == ignored.items
  {
    NoGlobStrings(Normalize(ignored), scan);
  }

  /**
   * The rewrite when some entry is a glob string: the non-glob entries
   * (in order), then exactly one compiled matcher over all the glob strings
   * (in order) bound to `cwd`.
   */
  lemma IgnoreRewrite(ignored: Value, cwd: Value, scan: Scanner)
    requires exists v :: v in Normalize(ignored) && IsGlobEntry(v, scan)
    ensures var ms := Normalize(ignored);
            var r := IgnoreSpec(ignored, cwd, scan);
            && |r| == |NonGlobs(ms, scan)| + 1
            && r[..|r| - 1] == NonGlobs(ms, scan)
            && |r| == |ms| - |GlobStrings(ms, scan)| + 1
            && (forall v :: v in r[..|r| - 1] <==> v in ms && !IsGlobEntry(v, scan))
            && r[|r| - 1] == Matcher(Compiled(GlobStrings(ms, scan), cwd))
            && (forall s :: s in GlobStrings(ms, scan) <==> Str(s) in ms && scan(s).isGlob)
  {
    var ms := Normalize(ignored);
    NoGlobStrings(ms, scan);
    NonGlobsMembers(ms, scan);
    GlobStringsMembers(ms, scan);
    SplitCount(ms, scan);
    var r := IgnoreSpec(ignored, cwd, scan);
    assert r[..|r| - 1] == NonGlobs(ms, scan);
  }
}
