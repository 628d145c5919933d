/**
 * `handleWatchGlobs` (src/index.ts): sorts the watch targets into
 * literal paths, positive globs and negated globs, derives the roots
 * chokidar is asked to watch, and builds the `ignoreFunction` that
 * decides per event path whether the event is suppressed.
 */
module Classifier {
  import opened Js
  import opened Picomatch
  import opened Seqs

  /** One element of a watch-path array: a path, or an array of paths one level down. */
  datatype PathItem = Leaf(path: string) | Nested(paths: seq<string>)

  /** The `watchPath` argument: a single path or an array. */
  datatype WatchPath = One(path: string) | Many(items: seq<PathItem>)

  function ItemPaths(item: PathItem): seq<string>
  {
    match item
    case Leaf(p) => [p]
    case Nested(ps) => ps
  }

  function FlattenItems(items: seq<PathItem>): seq<string>
  {
    if items == [] then []
    else FlattenItems(items[..|items| - 1]) + ItemPaths(items[|items| - 1])
  }

  /** `(Array.isArray(w) ? w : [w]).flat()`: flattens exactly one level. */
  function Flatten(w: WatchPath): seq<string>
  {
    match w
    case One(p) => [p]
    case Many(items) => FlattenItems(items)
  }

  /** A plain array of strings, as handed to chokidar. */
  function AsArgument(paths: seq<string>): WatchPath
  {
    Many(seq(|paths|, i requires 0 <= i < |paths| => Leaf(paths[i])))
  }

  /** A flat array of strings flattens to itself. */
  lemma {:induction false} FlattenAsArgument(paths: seq<string>)
    ensures Flatten(AsArgument(paths)) == paths
  {
    if paths != [] {
      var n := |paths|;
      FlattenAsArgument(paths[..n - 1]);
      assert AsArgument(paths).items[..n - 1] == AsArgument(paths[..n - 1]).items;
      assert paths == paths[..n - 1] + [paths[n - 1]];
    }
  }

  // ----- The reference classification: one independent filter per list -----

  /** The targets the scanner puts in kind `k`, in input order. */
  function Select(ps: seq<string>, scan: Scanner, k: Kind): seq<string>
  {
    if ps == [] then []
    else
      Select(ps[..|ps| - 1], scan, k)
      + (if KindOf(scan(ps[|ps| - 1])) == k then [ps[|ps| - 1]] else [])
  }

  /** The watch root of each positive glob: `scan.prefix + scan.base`. */
  function Parents(gs: seq<string>, scan: Scanner): (r: seq<string>)
    ensures |r| == |gs|
    ensures forall i :: 0 <= i < |gs| ==> r[i] == Parent(scan(gs[i]))
  {
    if gs == [] then []
    else Parents(gs[..|gs| - 1], scan) + [Parent(scan(gs[|gs| - 1]))]
  }

  /** Each negated glob with its negation stripped: `p.slice(scan.start)`. */
  function Stripped(ns: seq<string>, scan: Scanner): (r: seq<string>)
    ensures |r| == |ns|
    ensures forall i :: 0 <= i < |ns| ==> r[i] == Slice(ns[i], scan(ns[i]).start)
  {
    if ns == [] then []
    else Stripped(ns[..|ns| - 1], scan) + [Slice(ns[|ns| - 1], scan(ns[|ns| - 1]).start)]
  }

  predicate HasGlobs(ps: seq<string>, scan: Scanner)
  {
    Select(ps, scan, Positive) != [] || Select(ps, scan, Negated) != []
  }

  /** The roots chokidar is asked to watch. */
  function Roots(ps: seq<string>, scan: Scanner): seq<string>
  {
    if HasGlobs(ps, scan) then Dedup(Parents(Select(ps, scan, Positive), scan) + Select(ps, scan, Literal))
    else ps
  }

  /** What the `ignoreFunction` closure captures: both matchers and the literal targets. */
  datatype Filter = Filter(positive: Compiled, negative: Compiled, literals: seq<string>)

  function FilterOf(ps: seq<string>, cwd: Value, scan: Scanner): Option<Filter>
  {
    if HasGlobs(ps, scan) then
      Some(Filter(Compiled(Select(ps, scan, Positive), cwd),
                  Compiled(Stripped(Select(ps, scan, Negated), scan), cwd),
                  Select(ps, scan, Literal)))
    else None
  }

  /** `ignoreFunction(p)`: true means the event for `p` is suppressed. */
  function IgnoreFunction(f: Filter, matches: MatchOracle, p: Value): bool
  {
    if matches(f.negative, p) then true
    else if p.Str? && p.s in f.literals then false
    else if !matches(f.positive, p) then true
    else false
  }

  lemma SelectStep(ps: seq<string>, i: nat, scan: Scanner)
    requires i < |ps|
    ensures var pre, k := Select(ps[..i], scan, Positive), KindOf(scan(ps[i]));
            Select(ps[..i + 1], scan, Positive) == pre + (if k == Positive then [ps[i]] else [])
    ensures var pre, k := Select(ps[..i], scan, Negated), KindOf(scan(ps[i]));
            Select(ps[..i + 1], scan, Negated) == pre + (if k == Negated then [ps[i]] else [])
    ensures var pre, k := Select(ps[..i], scan, Literal), KindOf(scan(ps[i]));
            Select(ps[..i + 1], scan, Literal) == pre + (if k == Literal then [ps[i]] else [])
  {
    assert ps[..i + 1][..i] == ps[..i];
  }

  lemma ParentsSnoc(gs: seq<string>, g: string, scan: Scanner)
    ensures Parents(gs + [g], scan) == Parents(gs, scan) + [Parent(scan(g))]
  {
    assert (gs + [g])[..|gs|] == gs;
  }

  lemma StrippedSnoc(ns: seq<string>, n: string, scan: Scanner)
    ensures Stripped(ns + [n], scan) == Stripped(ns, scan) + [Slice(n, scan(n).start)]
  {
    assert (ns + [n])[..|ns|] == ns;
  }

  // ----- The loop -----

  /** One step of the loop, per kind of target: what each of the four lists becomes. */
  lemma WatchStep(ps: seq<string>, i: nat, scan: Scanner)
    requires i < |ps|
    ensures var p, r := ps[i], scan(ps[i]);
            var pos, neg, lit := Select(ps[..i], scan, Positive), Select(ps[..i], scan, Negated), Select(ps[..i], scan, Literal);
            var pos', neg', lit' := Select(ps[..i + 1], scan, Positive), Select(ps[..i + 1], scan, Negated), Select(ps[..i + 1], scan, Literal);
            && (!r.isGlob ==> pos' == pos && neg' == neg && lit' == lit + [p])
            && (r.isGlob && r.negated ==>
                  pos' == pos && lit' == lit && Stripped(neg', scan) == Stripped(neg, scan) + [Slice(p, r.start)])
            && (r.isGlob && !r.negated ==>
                  neg' == neg && lit' == lit && pos' == pos + [p]
                  && Parents(pos', scan) == Parents(pos, scan) + [r.prefix + r.base])
  {
    SelectStep(ps, i, scan);
    StrippedSnoc(Select(ps[..i], scan, Negated), ps[i], scan);
    ParentsSnoc(Select(ps[..i], scan, Positive), ps[i], scan);
  }

  /**
   * `handleWatchGlobs`: one pass over the flattened targets pushing into
   * four lists; the result agrees with the filters above.
   */
  method HandleWatchGlobs(watchPath: WatchPath, cwd: Value, scan: Scanner)
    returns (roots: seq<string>, filter: Option<Filter>)
    ensures roots == Roots(Flatten(watchPath), scan)
    ensures filter == FilterOf(Flatten(watchPath), cwd, scan)
  {
    var watchPaths := Flatten(watchPath);
    var globPaths: seq<string> := [];
    var globParents: seq<string> := [];
    var negatedGlobs: seq<string> := [];
    var normalPaths: seq<string> := [];

    for i := 0 to |watchPaths|
      invariant globPaths == Select(watchPaths[..i], scan, Positive)
      invariant globParents == Parents(globPaths, scan)
      invariant negatedGlobs == Stripped(Select(watchPaths[..i], scan, Negated), scan)
      invariant normalPaths == Select(watchPaths[..i], scan, Literal)
    {
      var p := watchPaths[i];
      var r := scan(p);
      WatchStep(watchPaths, i, scan);
      if r.isGlob {
        if r.negated {
          negatedGlobs := negatedGlobs + [Slice(p, r.start)];
          continue;
        }
        globParents := globParents + [r.prefix + r.base];
        globPaths := globPaths + [p];
      } else {
        normalPaths := normalPaths + [p];
      }
    }
    WholePrefix(watchPaths);

    if |globPaths| == 0 && |negatedGlobs| == 0 {
      return watchPaths, None;
    }

    var matcher := Compiled(globPaths, cwd);
    var negativeMatchers := Compiled(negatedGlobs, cwd);
    filter := Some(Filter(matcher, negativeMatchers, normalPaths));
    roots := Dedup(globParents + normalPaths);
  }

  // ----- Properties of the classification -----

  lemma {:induction false} SelectMembers(ps: seq<string>, scan: Scanner, k: Kind)
    ensures forall x :: x in Select(ps, scan, k) <==> x in ps && KindOf(scan(x)) == k
  {
    if ps != [] {
      SelectMembers(ps[..|ps| - 1], scan, k);
      assert ps == ps[..|ps| - 1] + [ps[|ps| - 1]];
    }
  }

  lemma SelectLast(ps: seq<string>, scan: Scanner, k: Kind)
    requires ps != []
    ensures multiset(Select(ps, scan, k)) == multiset(Select(ps[..|ps| - 1], scan, k))
      + (if KindOf(scan(ps[|ps| - 1])) == k then multiset{ps[|ps| - 1]} else multiset{})
  {
  }

  lemma MultisetLast(ps: seq<string>)
    requires ps != []
    ensures multiset(ps) == multiset(ps[..|ps| - 1]) + multiset{ps[|ps| - 1]}
  {
    assert ps == ps[..|ps| - 1] + [ps[|ps| - 1]];
  }

  /** Every target lands in exactly one of the three lists. */
  lemma {:induction false} ClassifyPartition(ps: seq<string>, scan: Scanner)
    ensures multiset(Select(ps, scan, Positive)) + multiset(Select(ps, scan, Negated))
            + multiset(Select(ps, scan, Literal)) == multiset(ps)
  {
    if ps != [] {
      ClassifyPartition(ps[..|ps| - 1], scan);
      SelectLast(ps, scan, Positive);
      SelectLast(ps, scan, Negated);
      SelectLast(ps, scan, Literal);
      MultisetLast(ps);
    }
  }

  lemma ParentsMembers(gs: seq<string>, scan: Scanner)
    ensures forall r :: r in Parents(gs, scan) <==> exists g :: g in gs && Parent(scan(g)) == r
  {
    var ps := Parents(gs, scan);
    forall r | r in ps ensures exists g :: g in gs && Parent(scan(g)) == r {
      var i :| 0 <= i < |ps| && ps[i] == r;
      assert gs[i] in gs;
    }
    forall r | exists g :: g in gs && Parent(scan(g)) == r ensures r in ps {
      var g :| g in gs && Parent(scan(g)) == r;
      var i :| 0 <= i < |gs| && gs[i] == g;
      assert ps[i] == r;
    }
  }

  /** The target `p` is one of the literal (non-glob) targets. */
  predicate IsLiteralTarget(ps: seq<string>, scan: Scanner, p: Value)
  {
    p.Str? && p.s in ps && KindOf(scan(p.s)) == Literal
  }

  /** `p` is the watch root of some positive-glob target. */
  ghost predicate IsGlobParent(ps: seq<string>, scan: Scanner, r: string)
  {
    exists g :: g in ps && KindOf(scan(g)) == Positive && Parent(scan(g)) == r
  }

  /**
   * Literal-only pass-through: there is no filter exactly when no target
   * scans as a glob, and then the roots are the flattened targets as given.
   */
  lemma LiteralOnlyPassThrough(ps: seq<string>, cwd: Value, scan: Scanner)
    ensures FilterOf(ps, cwd, scan) == None <==> forall p :: p in ps ==> KindOf(scan(p)) == Literal
    ensures FilterOf(ps, cwd, scan) == None ==> Roots(ps, scan) == ps
  {
    SelectMembers(ps, scan, Positive);
    SelectMembers(ps, scan, Negated);
    if !HasGlobs(ps, scan) {
      forall p | p in ps ensures KindOf(scan(p)) == Literal {
        assert p !in Select(ps, scan, Positive) && p !in Select(ps, scan, Negated);
      }
    } else if Select(ps, scan, Positive) != [] {
      assert Select(ps, scan, Positive)[0] in ps;
    } else {
      assert Select(ps, scan, Negated)[0] in ps;
    }
  }

  /**
   * Root derivation: once some target is a glob, the roots are exactly the
   * parents of the positive globs and the literal targets, each once,
   * ordered by first occurrence in parents-then-literals. Negated globs
   * contribute nothing of their own.
   */
  lemma RootsDerivation(ps: seq<string>, scan: Scanner)
    requires HasGlobs(ps, scan)
    ensures forall r :: r in Roots(ps, scan) <==> IsGlobParent(ps, scan, r) || (r in ps && KindOf(scan(r)) == Literal)
    ensures Distinct(Roots(ps, scan))
    ensures var cat := Parents(Select(ps, scan, Positive), scan) + Select(ps, scan, Literal);
            var roots := Roots(ps, scan);
            forall i, j :: 0 <= i < j < |roots| ==> FirstIndex(cat, roots[i]) < FirstIndex(cat, roots[j])
  {
    var gs := Select(ps, scan, Positive);
    SelectMembers(ps, scan, Positive);
    SelectMembers(ps, scan, Literal);
    ParentsMembers(gs, scan);
    forall r ensures r in Parents(gs, scan) <==> IsGlobParent(ps, scan, r) {
      if r in Parents(gs, scan) {
        var g :| g in gs && Parent(scan(g)) == r;
        assert g in ps && KindOf(scan(g)) == Positive;
      }
      if IsGlobParent(ps, scan, r) {
        var g :| g in ps && KindOf(scan(g)) == Positive && Parent(scan(g)) == r;
        assert g in gs;
      }
    }
  }

  /**
   * Negation strip: a negated target is recorded as `p.slice(scan.start)`
   * among the negative patterns and in no other list.
   */
  lemma NegationStrip(ps: seq<string>, cwd: Value, scan: Scanner, p: string)
    requires p in ps && KindOf(scan(p)) == Negated
    ensures FilterOf(ps, cwd, scan).Some?
    ensures var f := FilterOf(ps, cwd, scan).value;
            && Slice(p, scan(p).start) in f.negative.patterns
            && p !in f.positive.patterns
            && p !in f.literals
  {
    var ns := Select(ps, scan, Negated);
    SelectMembers(ps, scan, Negated);
    SelectMembers(ps, scan, Positive);
    SelectMembers(ps, scan, Literal);
    var i :| 0 <= i < |ns| && ns[i] == p;
    assert Stripped(ns, scan)[i] == Slice(p, scan(p).start);
  }

  /**
   * The precedence of `ignoreFunction`: a path the negated matcher matches
   * is suppressed, even a literal target or one the positive matcher
   * matches; otherwise a literal target is forwarded; otherwise the path is
   * suppressed exactly when the positive matcher fails.
   */
  lemma FilterPrecedence(ps: seq<string>, cwd: Value, scan: Scanner, matches: MatchOracle, p: Value)
    requires FilterOf(ps, cwd, scan).Some?
    ensures var f := FilterOf(ps, cwd, scan).value;
            && f.positive == Compiled(Select(ps, scan, Positive), cwd)
            && f.negative == Compiled(Stripped(Select(ps, scan, Negated), scan), cwd)
            && (matches(f.negative, p) ==> IgnoreFunction(f, matches, p))
            && (!matches(f.negative, p) && IsLiteralTarget(ps, scan, p) ==> !IgnoreFunction(f, matches, p))
            && (!matches(f.negative, p) && !IsLiteralTarget(ps, scan, p) ==>
                  (IgnoreFunction(f, matches, p) <==> !matches(f.positive, p)))
  {
    SelectMembers(ps, scan, Literal);
  }

  /**
   * Picomatch's matcher over an empty pattern array matches nothing. The
   * oracle is otherwise unconstrained; the two lemmas below take this as a
   * hypothesis.
   */
  ghost predicate EmptyMatchesNothing(matches: MatchOracle)
  {
    forall c: Compiled, v: Value :: c.patterns == [] ==> !matches(c, v)
  }

  /** A list of kind `k` is empty when no target has kind `k`. */
  lemma SelectEmpty(ps: seq<string>, scan: Scanner, k: Kind)
    ensures (forall q :: q in ps ==> KindOf(scan(q)) != k) ==> Select(ps, scan, k) == []
  {
    SelectMembers(ps, scan, k);
    var sel := Select(ps, scan, k);
    if sel != [] {
      assert sel[0] in sel;
    }
  }

  /**
   * No negated glob among the targets: a path is suppressed exactly when it
   * is not a literal target and the positive matcher fails.
   */
  lemma PositiveOnlyFiltering(ps: seq<string>, cwd: Value, scan: Scanner, matches: MatchOracle, p: Value)
    requires EmptyMatchesNothing(matches)
    requires FilterOf(ps, cwd, scan).Some?
    requires forall q :: q in ps ==> KindOf(scan(q)) != Negated
    ensures var f := FilterOf(ps, cwd, scan).value;
            IgnoreFunction(f, matches, p) <==> !IsLiteralTarget(ps, scan, p) && !matches(f.positive, p)
  {
    SelectEmpty(ps, scan, Negated);
    FilterPrecedence(ps, cwd, scan, matches, p);
  }

  /**
   * Negated globs but no positive glob (say `["src", "!*.log"]`): the
   * positive matcher is compiled from no pattern, so every path other than
   * a literal target is suppressed, and a literal target is suppressed
   * exactly when the negated matcher matches it.
   */
  lemma NegatedWithoutPositive(ps: seq<string>, cwd: Value, scan: Scanner, matches: MatchOracle, p: Value)
    requires EmptyMatchesNothing(matches)
    requires FilterOf(ps, cwd, scan).Some?
    requires forall q :: q in ps ==> KindOf(scan(q)) != Positive
    ensures var f := FilterOf(ps, cwd, scan).value;
            && (!IsLiteralTarget(ps, scan, p) ==> IgnoreFunction(f, matches, p))
            && (IsLiteralTarget(ps, scan, p) ==> (IgnoreFunction(f, matches, p) <==> matches(f.negative, p)))
  {
    SelectEmpty(ps, scan, Positive);
    FilterPrecedence(ps, cwd, scan, matches, p);
  }
}
