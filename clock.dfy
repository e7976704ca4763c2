/** Timestamps. The frontend reads the wall clock and parses dates with
    `Date.now()` and `Date.parse`, both in milliseconds; those readings are
    parameters here. The contract works in whole seconds. */
module Clock {

  /** `Math.floor(ms / 1000)`: the whole second a millisecond timestamp
      falls in, rounding towards minus infinity for instants before 1970. */
  function FloorSeconds(ms: int): (s: int)
    ensures s * 1000 <= ms < s * 1000 + 1000
  {
    ms / 1000
  }

  /** Rounding to seconds is monotonic, so an instant later than another by
      a whole second or more lies in a later second. */
  lemma FloorSecondsMonotonic(a: int, b: int)
    ensures a <= b ==> FloorSeconds(a) <= FloorSeconds(b)
    ensures a + 1000 <= b ==> FloorSeconds(a) < FloorSeconds(b)
  {
  }
}
