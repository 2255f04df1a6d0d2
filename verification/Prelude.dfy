/** Job ids, values that may be absent, outcomes that may be errors, and lists without repetition. */
module Prelude {
  type JobId = string

  datatype Option<+T> = None | Some(value: T)

  datatype Result<+T, +E> = Ok(value: T) | Err(error: E)

  ghost predicate Distinct<T>(xs: seq<T>) {
    forall i, j :: 0 <= i < j < |xs| ==> xs[i] != xs[j]
  }
}

/** Instants and durations, both counted in nanoseconds as Go's time package does. */
module Durations {
  type Time = int
  type Duration = int

  const MILLISECOND: Duration := 1_000_000
  const SECOND: Duration := 1_000_000_000

  /** Go's `int(d.Seconds())`: whole seconds, truncated toward zero. */
  function WholeSeconds(d: Duration): (s: int)
    ensures d >= 0 ==> 0 <= s * SECOND <= d < (s + 1) * SECOND
    ensures d < 0 ==> (s - 1) * SECOND < d <= s * SECOND <= 0
  {
    if d >= 0 then d / SECOND else -((-d) / SECOND)
  }

  /** The length of lease the store grants for a requested duration: the whole seconds in it. */
  function LeaseLength(ttl: Duration): (length: Duration)
    ensures length % SECOND == 0
    ensures ttl >= 0 ==> length <= ttl < length + SECOND
    ensures ttl < 0 ==> length - SECOND < ttl <= length
  {
    WholeSeconds(ttl) * SECOND
  }
}
