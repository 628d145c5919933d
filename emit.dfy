/**
 * The replacement `watcher.emit` installed by `watch` (src/index.ts):
 * lifecycle events pass straight through; every other event is tested on
 * its path and is either delivered as is or re-emitted as
 * `'original:' + name` with the call reporting `false`.
 */
module EmitFilter {
  import opened Js
  import opened Picomatch
  import opened Classifier

  // The chokidar event names the wrapper looks at (`EVENTS` of chokidar/handler.js).
  const ERROR: string := "error"
  const RAW: string := "raw"
  const READY: string := "ready"
  const ALL: string := "all"

  /** The prefix a suppressed event is re-emitted under. */
  const SUPPRESSED_PREFIX: string := "original:"

  /** Events that are never filtered. */
  predicate IsLifecycle(name: string)
  {
    name == ERROR || name == RAW || name == READY
  }

  /** The argument holding the path: `args[1]` for `all`, `args[0]` otherwise; `undefined` when missing. */
  function PathOf(name: string, args: seq<Value>): Value
  {
    var i := if name == ALL then 1 else 0;
    if i < |args| then args[i] else Undefined
  }

  /** The closure installed as `watcher.emit`: the filter and the matchers it calls. */
  datatype Wrapper = Wrapper(filter: Filter, matches: MatchOracle)

  /** One call that reaches chokidar's own `emit`. */
  datatype Call = Call(name: string, args: seq<Value>)

  /** What one `emit` does: the native call it makes and the value it returns. */
  datatype Outcome = Outcome(call: Call, result: bool)

  /** What chokidar's own `emit` returns for a call (whether a listener took it). */
  type Listeners = (string, seq<Value>) -> bool

  function Dispatch(wrapper: Option<Wrapper>, native: Listeners, name: string, args: seq<Value>): Outcome
  {
    if wrapper.None? || IsLifecycle(name) then
      Outcome(Call(name, args), native(name, args))
    else if IgnoreFunction(wrapper.value.filter, wrapper.value.matches, PathOf(name, args)) then
      Outcome(Call(SUPPRESSED_PREFIX + name, args), false)
    else
      Outcome(Call(name, args), native(name, args))
  }

  /** `error`, `raw` and `ready` reach chokidar unchanged with its own return value, whatever the filter says. */
  lemma LifecycleUntouched(wrapper: Option<Wrapper>, native: Listeners, name: string, args: seq<Value>)
    requires name in {ERROR, RAW, READY}
    ensures Dispatch(wrapper, native, name, args) == Outcome(Call(name, args), native(name, args))
  {
  }

  /**
   * How an event is routed once a session over the targets `ps` has a
   * filter: the path is the second argument of an `all` event and the first
   * of any other; a path the negated globs match is diverted; otherwise a
   * literal target is delivered; otherwise the path is delivered exactly
   * when the positive globs match it. Diverting makes one call under
   * `original:<name>` with the same arguments and returns `false`;
   * delivering makes the original call and returns its result.
   */
  lemma EventRouting(ps: seq<string>, cwd: Value, scan: Scanner, matches: MatchOracle,
                     native: Listeners, name: string, args: seq<Value>)
    requires FilterOf(ps, cwd, scan).Some?
    requires !IsLifecycle(name)
    requires |args| > (if name == ALL then 1 else 0)
    ensures var f := FilterOf(ps, cwd, scan).value;
            var path := if name == ALL then args[1] else args[0];
            var out := Dispatch(Some(Wrapper(f, matches)), native, name, args);
            var deliver := Outcome(Call(name, args), native(name, args));
            var divert := Outcome(Call("original:" + name, args), false);
            && (matches(f.negative, path) ==> out == divert)
            && (!matches(f.negative, path) && IsLiteralTarget(ps, scan, path) ==> out == deliver)
            && (!matches(f.negative, path) && !IsLiteralTarget(ps, scan, path) ==>
                  out == if matches(f.positive, path) then deliver else divert)
  {
    FilterPrecedence(ps, cwd, scan, matches, PathOf(name, args));
  }
}
