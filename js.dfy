/**
 * The JavaScript values the glob-routing core reads and writes: option
 * values, entries of the `ignored` list and event arguments.
 */
module Js {

  datatype Option<+T> = None | Some(value: T)

  /**
   * The function `picomatch(patterns, { cwd, dot: true })` returns. It is
   * identified by the patterns it was compiled from and the `cwd` it was
   * given; what it matches is left to Picomatch.MatchOracle.
   */
  datatype Compiled = Compiled(patterns: seq<string>, cwd: Value)

  /**
   * A JavaScript value. `Opaque` stands for every value this core only
   * passes along without looking inside: numbers, regular expressions,
   * objects and user-supplied functions.
   */
  datatype Value =
    | Undefined
    | Null
    | Bool(b: bool)
    | Str(s: string)
    | Arr(items: seq<Value>)
    | Matcher(compiled: Compiled)
    | Opaque(id: nat)

  /** Property access on an options object: a missing key reads as `undefined`. */
  function Get(o: map<string, Value>, key: string): Value
  {
    if key in o then o[key] else Undefined
  }

  function Min(a: int, b: int): int { if a <= b then a else b }

  /**
   * `s.slice(start)`: a negative start counts back from the end, a start
   * past the end gives the empty string.
   */
  function Slice(s: string, start: int): (r: string)
    ensures |r| <= |s| && r == s[|s| - |r|..]
    ensures 0 <= start ==> |r| == |s| - Min(start, |s|)
    ensures start < 0 ==> |r| == Min(-start, |s|)
  {
    if start < 0 then
      (if -start < |s| then s[|s| + start..] else s)
    else if start <= |s| then s[start..]
    else []
  }
}
