/** Shared vocabulary: optional values and the durations the source's constants are written in. */
module Base {

  datatype Option<+T> = None | Some(value: T)

  // Durations and instants are whole nanoseconds, as in Go's time package.
  const SECOND := 1_000_000_000
  const MINUTE := 60 * SECOND
  const HOUR := 60 * MINUTE

  /** Whole seconds of an instant, rounded down (time.Time.Unix). */
  function Unix(t: int): int {
    t / SECOND
  }

  function Max(a: int, b: int): int {
    if a < b then b else a
  }

  function Min(a: int, b: int): int {
    if a < b then a else b
  }

  function Pow2(n: nat): (p: nat)
    ensures p >= 1
  {
    if n == 0 then 1 else 2 * Pow2(n - 1)
  }
}
