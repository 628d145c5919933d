/**
 * The two picomatch entry points the core calls, kept uninterpreted: the
 * model is parametric in a scanner and in a matching oracle, so nothing
 * here decides which strings are globs or what a glob matches.
 */
module Picomatch {
  import opened Js

  /** What `picomatch.scan(p)` reports about a string. */
  datatype ScanResult = ScanResult(isGlob: bool, negated: bool, start: int, prefix: string, base: string)

  /** `picomatch.scan`. */
  type Scanner = string -> ScanResult

  /** Calling a compiled matcher on a value: `matcher(p)`. */
  type MatchOracle = (Compiled, Value) -> bool

  /** How a watch target is routed, decided by the scanner's verdict alone. */
  datatype Kind = Literal | Positive | Negated

  function KindOf(r: ScanResult): Kind
  {
    if !r.isGlob then Literal else if r.negated then Negated else Positive
  }

  /** The concrete directory a positive glob is watched through: `scan.prefix + scan.base`. */
  function Parent(r: ScanResult): string
  {
    r.prefix + r.base
  }
}
