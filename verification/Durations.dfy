/** Nanoseconds as milliseconds. */
module Durations {

  function Ms(ns: int): (r: real)
    ensures r * 1_000_000.0 == ns as real
  {
    ns as real / 1_000_000.0
  }

  lemma MsAtMost(x: int, limitMs: real)
    ensures Ms(x) <= limitMs <==> x as real <= 1_000_000.0 * limitMs
  {
  }
}
