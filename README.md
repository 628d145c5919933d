# chokidar-glob: glob routing, modelled in Dafny

chokidar-glob wraps the chokidar file watcher so that watch targets may be
glob patterns. Its single entry point, `watch(watchPath, watchOptions)`,
works as follows:

- It sorts the targets into literal paths, positive globs and negated globs.
  The verdict of `picomatch.scan` decides the sort.
- When some target scans as a glob, it starts chokidar on the derived roots:
  `scan.prefix + scan.base` of each positive glob (the empty string for a
  pattern such as `*.txt`), then the literal paths, deduplicated. When no
  target is a glob, chokidar gets the flattened targets as given, duplicates
  included (`["a", "a"]` stays as it is).
- It rewrites the glob strings in the `ignored` option into one compiled
  picomatch matcher.
- Only when some target is a glob does it replace `watcher.emit` with a
  wrapper. The wrapper suppresses events whose path the globs do not
  select, and re-emits each suppressed event as `original:<name>`.
- With the option `disableGlobbing === true` it does none of this: chokidar
  gets the targets and options untouched, and no wrapper is installed.

The model is parametric in its foreign collaborators:

- `picomatch.scan` is a parameter `scan: Scanner`, a function from a string
  to a `ScanResult {isGlob, negated, start, prefix, base}`.
- What a compiled matcher matches is a parameter `matches: MatchOracle`. A
  compiled matcher is the value `Compiled(patterns, cwd)`.
- What chokidar's own `emit` returns is a parameter `native: Listeners`.
  Chokidar itself is a sink (`Session.Watcher`). It records the paths and
  options it was started with, and every call that reaches its own `emit`.

Layout, one module per file:

- `js.dfy` (`Js`): the JavaScript values the core touches, property reads,
  and `String.prototype.slice`.
- `picomatch.dfy` (`Picomatch`): the scanner and matcher interfaces, and the
  three-way kind of a target.
- `seqs.dfy` (`Seqs`): `[...new Set(xs)]` as `Dedup`.
- `classifier.dfy` (`Classifier`): `handleWatchGlobs` and its `ignoreFunction`.
- `ignore.dfy` (`IgnoreGlobs`): `handleIgnoreGlobs`.
- `emit.dfy` (`EmitFilter`): the decision the emit wrapper makes.
- `session.dfy` (`Session`): the options object, the watcher, `watch` and
  `removeUndefinedValues`.

The two loops of the source (`handleWatchGlobs`, `handleIgnoreGlobs`) are
methods with `for` loops. Each is proved equal to reference functions that
build every output list by its own filter over the input (`Select`,
`NonGlobs`, `GlobStrings`). The properties are lemmas about those functions.

## Model

| member | source | states |
|---|---|---|
| Js.Slice | src/index.ts:40 | `p.slice(start)` is a suffix of `p`; a non-negative start drops that many characters (all of them past the end), a negative start keeps that many from the end |
| Seqs.Dedup | src/index.ts:68 | the Set round trip keeps exactly the input's elements, each once, ordered by first occurrence in the input |
| Classifier.Flatten | src/index.ts:27 | a single target becomes a one-element list; an array is flattened one level, each nested array contributing its strings in place, in order |
| Classifier.FlattenAsArgument | src/index.ts:27 | a flat array of strings flattens to itself, so chokidar's root array is the root list |
| Classifier.Parents | src/index.ts:44 | one parent per positive glob, in order, each `scan.prefix + scan.base` |
| Classifier.Stripped | src/index.ts:40 | one pattern per negated glob, in order, each `p.slice(scan.start)` |
| Classifier.HandleWatchGlobs | src/index.ts:21-69 | the one-pass loop yields the same roots and filter as the per-list reference filters |
| Classifier.SelectMembers | src/index.ts:35-50 | a target is in the list of kind `k` iff it is a target and the scanner gives it kind `k` |
| Classifier.ClassifyPartition | src/index.ts:35-50 | the positive, negated and literal lists together hold every target exactly once (as multisets) |
| Classifier.LiteralOnlyPassThrough | src/index.ts:52-53 | there is no filter iff no target scans as a glob; then the roots are the flattened targets unchanged, in order |
| Classifier.RootsDerivation | src/index.ts:38-68 | with a glob present, a root is a positive glob's parent or a literal target (both directions); roots are distinct and ordered by first occurrence in parents-then-literals; negated globs add nothing |
| Classifier.NegationStrip | src/index.ts:39-42 | a negated target yields a filter and puts `p.slice(scan.start)` among the negative patterns; the target itself is neither a positive pattern nor a literal |
| Classifier.IgnoreFunction | src/index.ts:60-65 | a negated match suppresses; otherwise a string among the literal targets is forwarded; otherwise the path is suppressed exactly when the positive matcher fails |
| Classifier.FilterPrecedence | src/index.ts:56-65 | the matchers are compiled from the positive globs and stripped negated globs with `cwd`; a negated match suppresses; otherwise a literal target is forwarded; otherwise a path is suppressed iff the positive matcher fails |
| IgnoreGlobs.Normalize | src/index.ts:73 | an array is taken as it is, `undefined` and `null` become the empty list, any other value a one-element list |
| IgnoreGlobs.HandleIgnoreGlobs | src/index.ts:71-98 | the one-pass loop yields the reference rewrite `IgnoreSpec` |
| IgnoreGlobs.NonGlobsMembers | src/index.ts:78-87 | a pass-through entry is exactly an entry that is not a glob string (a non-string, or a string the scanner rejects) |
| IgnoreGlobs.GlobStringsMembers | src/index.ts:78-87 | a collected glob is exactly a string entry that scans as a glob |
| IgnoreGlobs.SplitCount | src/index.ts:78-87 | every entry goes to exactly one of the two lists |
| IgnoreGlobs.SplitPartition | src/index.ts:78-87 | counted with multiplicity, the pass-through entries plus the collected glob strings (as string values) are exactly the entries |
| IgnoreGlobs.NoGlobStrings | src/index.ts:89-91 | no glob is collected iff no entry is a glob string |
| IgnoreGlobs.IgnoreNoGlobIdentity | src/index.ts:73-91 | absent or null `ignored` gives `[]`; with no glob string, a single value gives `[v]` and an array comes back unchanged |
| IgnoreGlobs.IgnoreRewrite | src/index.ts:93-97 | with a glob string present: the pass-through entries in their order, then exactly one matcher over all glob strings bound to `cwd`; length is the pass-through count plus one |
| EmitFilter.PathOf | src/index.ts:130-131 | the tested path is the second argument of an `all` event and the first of any other, `undefined` when that argument is missing |
| EmitFilter.Dispatch | src/index.ts:122-139 | lifecycle events, or any event without a wrapper, make the original call and return its result; otherwise a path the filter suppresses makes one call `original:<name>` with the same arguments and returns false, and any other makes the original call and returns its result |
| EmitFilter.LifecycleUntouched | src/index.ts:123-127 | `error`, `raw` and `ready` make the original call and return its result, whatever the filter |
| EmitFilter.EventRouting | src/index.ts:130-138 | the tested path is `args[1]` for `all` and `args[0]` otherwise; a suppressed event makes one call `original:<name>` with the same args and returns false; a forwarded one makes the original call and returns its result; the choice follows the filter's precedence over the session's targets |
| Session.RemoveUndefinedValues | src/index.ts:17-19 | keeps exactly the keys whose value is not `undefined`, with their values |
| Session.RemoveUndefinedUnobservable | src/index.ts:17-19 | every property read gives the same value before and after, and no key is left holding `undefined` |
| Session.Watcher.Install | src/index.ts:120-122 | the replacement emit is in place |
| Session.Watcher.NativeEmit | src/index.ts:127 | one native call, recorded, with chokidar's own return value |
| Session.Watcher.Emit | src/index.ts:122-139 | each emit makes exactly the one native call `Dispatch` names, and returns its result |
| Session.Watch | src/index.ts:100-142 | with `disableGlobbing === true`, chokidar gets path and options untouched and no wrapper; otherwise `ignored` is rewritten in the caller's object, chokidar gets the roots and the options without undefined values, and a wrapper is installed iff a filter exists |
| Classifier.PositiveOnlyFiltering | src/index.ts:56-64 | with no negated target (and a matcher over no pattern matching nothing), a path is suppressed iff it is not a literal target and the positive matcher fails |
| Classifier.NegatedWithoutPositive | src/index.ts:56-63 | with no positive target (and a matcher over no pattern matching nothing), every path but a literal target is suppressed, and a literal target is suppressed iff the negated matcher matches it |
| Session.LiteralSessionPassThrough | src/index.ts:52-118 | literal-only targets: the roots are the flattened targets as given, in order and with duplicates, so `Watch` starts chokidar on them; no filter exists, hence `Watch` installs no wrapper |

## Left out

- Chokidar itself is not modelled: filesystem events, `close`, `add`, `unwatch` and `getWatched`. It is foreign I/O code. It appears only as the recording sink `Session.Watcher`.
- Picomatch's glob parsing and matching are not modelled. They are foreign code, so `scan` and `matches` stay uninterpreted parameters.
- A compiled matcher that raises on a non-string path is not modelled, because `MatchOracle` is total.
- Event-emitter listener dispatch and all timing are not modelled. Chokidar's own `emit` is reduced to a fixed return-value function `native`.
- Nesting deeper than one level of arrays is not represented, because `.flat()` flattens exactly one level.
- The `watchOptions = {}` default parameter is not modelled. A caller without options passes an `Options` with no entries.
- `this` binding is not modelled: `originalEmit.call(watcher, …)` is `NativeEmit` on the same watcher.
- The `export default` object and the licence header carry no behaviour and are not modelled.
- Session.Watcher.Install: requires a watcher with no wrapper yet. The source installs the wrapper once, on a fresh watcher, and wrapping twice is not modelled.
- EmitFilter.EventRouting: stated only for events that carry their path argument. A missing argument reads as `undefined` (`PathOf`), which `Dispatch` and `Watcher.Emit` cover but this lemma does not.
- A non-string watch target is not a failure mode. `.flat()` at src/index.ts:27 validates nothing, so the targets are strings by type and no failure mode is added.
- Js.Slice: indexes Dafny characters (Unicode scalar values), while JavaScript `slice` indexes UTF-16 code units. The two agree whenever the skipped prefix has no character outside the Basic Multilingual Plane, as for the `!` picomatch's `start` skips.
- Classifier.PositiveOnlyFiltering, Classifier.NegatedWithoutPositive: the fact that a matcher compiled from no pattern matches nothing is a hypothesis (`EmptyMatchesNothing`), not a property of the uninterpreted `MatchOracle`.
