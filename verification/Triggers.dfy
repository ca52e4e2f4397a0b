/**
  What every trigger answers (src/schedflow/triggers/base.py).

  Instants are whole microseconds on the civil time line of one fixed-offset zone.
 */
module Triggers {
  import opened Prelude
  import opened Calendar

  /** The answer of `get_next_fire_time`: a time, `None`, or an exception. */
  datatype Outcome = Fire(time: int) | Never | Raises

  const MICROS := 1_000_000

  /** The instants that a `datetime` can hold. */
  predicate Instant(t: int) {
    FIRST_SECOND * MICROS <= t < (LAST_SECOND + 1) * MICROS
  }

  predicate OptionalInstant(t: Option<int>) {
    t.Some? ==> Instant(t.value)
  }

  /** `datetime_ceil`: the first whole second at or after `t`. */
  function CeilSeconds(t: int): (s: int)
    ensures (s - 1) * MICROS < t <= s * MICROS
  {
    if t % MICROS > 0 then t / MICROS + 1 else t / MICROS
  }

  /** The answer is the least fire time at or above `from`; an exception says nothing about the fire times. */
  ghost predicate AnswersLeast(fires: int -> bool, from: int, r: Outcome) {
    match r
    case Fire(t) => IsLeast(fires, from, Some(t))
    case Never => IsLeast(fires, from, None)
    case Raises => true
  }
}
