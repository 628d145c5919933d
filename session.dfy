/**
 * `watch` and `removeUndefinedValues` (src/index.ts): the entry point that
 * routes the targets and the `ignored` option through the glob handling,
 * starts chokidar and installs the emit wrapper. Chokidar is modelled as
 * a sink that records what it was started with and every call that
 * reaches its own `emit`.
 */
module Session {
  import opened Js
  import opened Picomatch
  import opened Classifier
  import opened IgnoreGlobs
  import opened EmitFilter

  /** `removeUndefinedValues`: drops every key whose value is `undefined`. */
  function RemoveUndefinedValues(o: map<string, Value>): (r: map<string, Value>)
    ensures forall k :: k in r <==> k in o && !o[k].Undefined?
    ensures forall k :: k in r ==> r[k] == o[k]
  {
    map k | k in o && !o[k].Undefined? :: o[k]
  }

  /**
   * Dropping undefined keys changes nothing a property read can see, and
   * leaves no key explicitly set to `undefined`.
   */
  lemma RemoveUndefinedUnobservable(o: map<string, Value>)
    ensures forall k :: Get(RemoveUndefinedValues(o), k) == Get(o, k)
    ensures forall k :: k in RemoveUndefinedValues(o) ==> !RemoveUndefinedValues(o)[k].Undefined?
  {
  }

  /** The caller's options object; `watch` writes its `ignored` property. */
  class Options {
    var entries: map<string, Value>

    constructor (entries: map<string, Value>)
      ensures this.entries == entries
    {
      this.entries := entries;
    }
  }

  /** A chokidar watcher as far as this core sees it. */
  class Watcher {
    /** The paths chokidar was started with. */
    const paths: WatchPath
    /** The options chokidar was started with. */
    const options: map<string, Value>
    /** What chokidar's own `emit` returns. */
    const native: Listeners
    /** The replacement `emit`, once installed. */
    var wrapper: Option<Wrapper>
    /** Every call that reached chokidar's own `emit`, in order. */
    var emitted: seq<Call>

    constructor (paths: WatchPath, options: map<string, Value>, native: Listeners)
      ensures this.paths == paths && this.options == options && this.native == native
      ensures wrapper == None && emitted == []
    {
      this.paths := paths;
      this.options := options;
      this.native := native;
      wrapper := None;
      emitted := [];
    }

    /** `watcher.emit = fn`, done once on a fresh watcher. */
    method Install(w: Wrapper)
      requires wrapper.None?
      modifies this`wrapper
      ensures wrapper == Some(w)
    {
      wrapper := Some(w);
    }

    /** `originalEmit.call(watcher, name, ...args)` */
    method NativeEmit(name: string, args: seq<Value>) returns (handled: bool)
      modifies this`emitted
      ensures emitted == old(emitted) + [Call(name, args)]
      ensures handled == native(name, args)
    {
      emitted := emitted + [Call(name, args)];
      handled := native(name, args);
    }

    /** `watcher.emit(name, ...args)`: exactly one native call per emit. */
    method Emit(name: string, args: seq<Value>) returns (handled: bool)
      modifies this`emitted
      ensures emitted == old(emitted) + [Dispatch(wrapper, native, name, args).call]
      ensures handled == Dispatch(wrapper, native, name, args).result
    {
      if wrapper.None? || IsLifecycle(name) {
        handled := NativeEmit(name, args);
        return;
      }
      var path := PathOf(name, args);
      if IgnoreFunction(wrapper.value.filter, wrapper.value.matches, path) {
        var _ := NativeEmit(SUPPRESSED_PREFIX + name, args);
        return false;
      }
      handled := NativeEmit(name, args);
    }
  }

  predicate GlobbingDisabled(o: map<string, Value>)
  {
    Get(o, "disableGlobbing") == Bool(true)
  }

  /**
   * `watch(watchPath, watchOptions)`. With `disableGlobbing === true`
   * chokidar gets the arguments untouched and no wrapper is installed.
   * Otherwise the options object's `ignored` is replaced by its rewritten
   * list, chokidar gets the derived roots and the options without
   * undefined values, and the wrapper is installed exactly when the
   * targets hold a glob.
   */
  method Watch(watchPath: WatchPath, opts: Options, scan: Scanner, matches: MatchOracle, native: Listeners)
    returns (w: Watcher)
    modifies opts
    ensures fresh(w) && w.native == native && w.emitted == []
    ensures GlobbingDisabled(old(opts.entries)) ==>
              && opts.entries == old(opts.entries)
              && w.paths == watchPath
              && w.options == old(opts.entries)
              && w.wrapper == None
    ensures !GlobbingDisabled(old(opts.entries)) ==>
              var cwd := Get(old(opts.entries), "cwd");
              var ps := Flatten(watchPath);
              && opts.entries == old(opts.entries)["ignored" := Arr(IgnoreSpec(Get(old(opts.entries), "ignored"), cwd, scan))]
              && w.paths == AsArgument(Roots(ps, scan))
              && w.options == RemoveUndefinedValues(opts.entries)
              && (w.wrapper.Some? <==> FilterOf(ps, cwd, scan).Some?)
              && (w.wrapper.Some? ==> w.wrapper.value == Wrapper(FilterOf(ps, cwd, scan).value, matches))
  {
    if GlobbingDisabled(opts.entries) {
      w := new Watcher(watchPath, opts.entries, native);
      return;
    }

    var cwd := Get(opts.entries, "cwd");
    var watchPaths, ignoreFunction := HandleWatchGlobs(watchPath, cwd, scan);

    var ignored := HandleIgnoreGlobs(Get(opts.entries, "ignored"), cwd, scan);
    opts.entries := opts.entries["ignored" := Arr(ignored)];

    w := new Watcher(AsArgument(watchPaths), RemoveUndefinedValues(opts.entries), native);

    if ignoreFunction.None? {
      return;
    }
    w.Install(Wrapper(ignoreFunction.value, matches));
  }

  /**
   * Literal-only targets with globbing on: chokidar is started on the
   * flattened targets in their order, and there is no filter, so `Watch`
   * installs no wrapper.
   */
  lemma LiteralSessionPassThrough(watchPath: WatchPath, cwd: Value, scan: Scanner)
    requires forall p :: p in Flatten(watchPath) ==> KindOf(scan(p)) == Literal
    ensures Roots(Flatten(watchPath), scan) == Flatten(watchPath)
    ensures FilterOf(Flatten(watchPath), cwd, scan) == None
  {
    LiteralOnlyPassThrough(Flatten(watchPath), cwd, scan);
  }
}
