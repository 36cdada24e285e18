/**
 * The argument trace: a dense, 0-based list of display strings, one per logical
 * parameter, grown on demand with null entries, kept only for diagnostics.
 */
module Trace {
  import opened Wrappers
  import opened Driver

  /** Entry j is the display form of logical parameter j+1; None is Java's null. */
  type ArgTrace = seq<Option<string>>

  function Max(a: int, b: int): int { if a < b then b else a }

  /**
   * The display form of a bound value. `formatted` is what the RDBMS-specific formatter
   * returned, or None when it threw; then the value's own text (or "null") is used.
   */
  function TracedArg(arg: Value, formatted: Option<string>): (r: string)
    ensures formatted.Some? ==> r == formatted.value
    ensures formatted.None? && arg.Null? ==> r == "null"
    ensures formatted.None? && arg.Obj? ==> r == arg.text
  {
    match formatted
    case Some(s) => s
    case None => if arg.Null? then "null" else arg.text
  }

  /** The stored entry: the type help is prefixed only when type help is shown and given. */
  function TraceEntry(showTypeHelp: bool, typeHelper: Option<string>, traced: string): (e: string)
    ensures !showTypeHelp || typeHelper.None? ==> e == traced
    ensures showTypeHelp && typeHelper.Some? ==>
      && |e| == |typeHelper.value| + |traced|
      && e[..|typeHelper.value|] == typeHelper.value
      && e[|typeHelper.value|..] == traced
  {
    if showTypeHelp && typeHelper.Some? then typeHelper.value + traced else traced
  }

  /** The trace padded with nulls up to length n. */
  function Padded(trace: ArgTrace, n: nat): (r: ArgTrace)
    ensures |r| == Max(|trace|, n)
    ensures r[..|trace|] == trace
    ensures forall j :: |trace| <= j < |r| ==> r[j] == None
  {
    if n <= |trace| then trace else trace + seq(n - |trace|, _ => None)
  }

  /** The trace after logical parameter i (1-based) is traced as `entry`. */
  function TraceSet(trace: ArgTrace, i: nat, entry: string): (r: ArgTrace)
    requires i >= 1
    ensures |r| == Max(|trace|, i)
    ensures r[i - 1] == Some(entry)
    ensures forall j :: 0 <= j < |trace| && j != i - 1 ==> r[j] == trace[j]
    ensures forall j :: |trace| <= j < i - 1 ==> r[j] == None
  {
    Padded(trace, i)[i - 1 := Some(entry)]
  }
}
