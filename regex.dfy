/** Go's `regexp.Match`, seen from the filter. The regular-expression engine
    is not modelled: an `Engine` says which patterns compile and, for those,
    whether the pattern is found in a string. Any pair of functions is a
    possible engine, so every property proved about the filter holds
    whatever the patterns mean. */
module Regex {

  datatype Engine = Engine(compiles: string -> bool, finds: (string, string) -> bool)

  /** `ok, _ := regexp.Match(pattern, []byte(s))`: the error of a pattern that
      does not compile is dropped, and Go then reports no match. */
  function Matches(e: Engine, pattern: string, s: string): (ok: bool)
    ensures !e.compiles(pattern) ==> !ok
  {
    e.compiles(pattern) && e.finds(pattern, s)
  }
}
