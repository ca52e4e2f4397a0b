/** The interval trigger (src/schedflow/triggers/interval.py), in whole microseconds and without jitter. */
module IntervalTriggers {
  import opened Prelude
  import opened Triggers
  import Modular

  datatype IntervalTrigger = IntervalTrigger(startDate: int, endDate: Option<int>, length: int)

  /** `_init_interval`: an interval of nothing counts as one second. */
  function Length(weeks: nat, days: nat, hours: nat, minutes: nat, seconds: nat): (n: int)
    ensures n > 0
    ensures weeks + days + hours + minutes + seconds == 0 ==> n == MICROS
    ensures weeks + days + hours + minutes + seconds > 0 ==>
              n == (604_800 * weeks + 86_400 * days + 3_600 * hours + 60 * minutes + seconds) * MICROS
  {
    var n := ((((weeks * 7 + days) * 24 + hours) * 60 + minutes) * 60 + seconds) * MICROS;
    if n == 0 then MICROS else n
  }

  /** `int(ceil(a / b))` */
  function CeilDiv(a: int, b: int): int
    requires b > 0
  {
    (a + b - 1) / b
  }

  function Next(t: IntervalTrigger, previous: Option<int>, now: int): Outcome
    requires t.length > 0
  {
    var next :=
      match previous
      case Some(p) => p + t.length
      case None =>
        if t.startDate > now then t.startDate
        else t.startDate + t.length * CeilDiv(now - t.startDate, t.length);
    if t.endDate.None? || next <= t.endDate.value then Fire(next) else Never
  }

  /** The fire times: the start date and every whole number of intervals after it, up to the end date. */
  ghost function Fires(t: IntervalTrigger): int -> bool
    requires t.length > 0
  {
    n => t.startDate <= n && Modular.Divides(t.length, n - t.startDate) && (t.endDate.Some? ==> n <= t.endDate.value)
  }

  /** Without a previous fire time the trigger answers with its least fire time at or after `now`; after a fire
      time `p` of its own, with its least fire time after `p`. */
  lemma AnswersWithLeast(t: IntervalTrigger, previous: Option<int>, now: int)
    requires t.length > 0
    requires previous.Some? ==> t.startDate <= previous.value && Modular.Divides(t.length, previous.value - t.startDate)
    ensures AnswersLeast(Fires(t), if previous.Some? then previous.value + 1 else now, Next(t, previous, now))
    ensures Next(t, previous, now) != Raises
  {
    var L, fires := t.length, Fires(t);
    match previous {
      case Some(p) =>
        NextMultiple(L, p - t.startDate);
        assert p + L - t.startDate == p - t.startDate + L;
        forall n | p < n < p + L
          ensures !fires(n)
        {
          NoMultipleBetween(L, p - t.startDate, n - t.startDate);
        }
      case None =>
        if t.startDate <= now {
          var d := now - t.startDate;
          CeilIsLeastMultiple(d, L);
          forall n | now <= n < t.startDate + L * CeilDiv(d, L)
            ensures !fires(n)
          {
            NoMultipleBetween(L, L * (CeilDiv(d, L) - 1), n - t.startDate);
          }
        } else {
          Modular.Remainder(0, L, 0, 0);
          assert Modular.Divides(L, t.startDate - t.startDate);
          assert t.endDate.None? || t.startDate <= t.endDate.value ==> fires(t.startDate);
        }
    }
  }

  /** The trigger never raises. After any previous time it answers one length later, unless that is past the end date. */
  lemma AnswersExactly(t: IntervalTrigger, previous: int, now: int)
    requires t.length > 0
    ensures Next(t, Some(previous), now) == Fire(previous + t.length) <==> t.endDate.None? || previous + t.length <= t.endDate.value
    ensures Next(t, Some(previous), now) == Never <==> t.endDate.Some? && t.endDate.value < previous + t.length
    ensures Next(t, Some(previous), now) != Raises && Next(t, None, now) != Raises
  {
  }

  lemma NextMultiple(k: int, a: int)
    requires k > 0 && Modular.Divides(k, a)
    ensures Modular.Divides(k, a + k)
  {
    assert a + k == k * (a / k + 1);
    Modular.Remainder(a + k, k, a / k + 1, 0);
  }

  lemma NoMultipleBetween(k: int, a: int, b: int)
    requires k > 0 && Modular.Divides(k, a) && a < b < a + k
    ensures !Modular.Divides(k, b)
  {
    Modular.Remainder(b, k, a / k, b - a);
  }

  lemma CeilIsLeastMultiple(a: nat, k: int)
    requires k > 0
    ensures var m := k * CeilDiv(a, k);
            && a <= m < a + k && Modular.Divides(k, m)
            && Modular.Divides(k, k * (CeilDiv(a, k) - 1)) && k * (CeilDiv(a, k) - 1) == m - k
  {
    var q := CeilDiv(a, k);
    assert a + k - 1 == k * q + (a + k - 1) % k;
    Modular.Remainder(k * q, k, q, 0);
    Modular.Remainder(k * (q - 1), k, q - 1, 0);
    Modular.Distribute(k, q, 1);
  }
}
