/** Readings of the wall clock. */
module Clocks {
  /** Whole seconds, towards zero. */
  function Seconds(t: real): int {
    if t >= 0.0 then t.Floor else -((-t).Floor)
  }

  lemma SecondsMonotone(a: real, b: real)
    requires a <= b
    ensures Seconds(a) <= Seconds(b)
  {
  }
}
