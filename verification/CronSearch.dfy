/**
  What the cron search looks for, and why each of its moves skips no match.

  The specification is `Scan`: try every second in turn. The lemmas `SettingSkipsNothing`,
  `SteppingADaySkipsNothing` and `CarryingSkipsNothing` justify the three moves by which
  `CronTrigger.get_next_fire_time` jumps ahead.
 */
module CronSearch {
  import opened Prelude
  import opened Calendar
  import opened CronExpressions

  /** The expression lists of the eight fields, in the order of `FIELD_NAMES`. */
  type Fields = seq<seq<Expr>>

  ghost predicate ValidFields(fs: Fields) {
    && |fs| == FIELD_COUNT
    && forall k, e :: 0 <= k < FIELD_COUNT && e in fs[k] ==> Compiled(k, e)
  }

  ghost predicate FieldMatches(fs: Fields, k: int, t: DateTime)
    requires |fs| == FIELD_COUNT && IsField(k) && ValidDateTime(t)
  {
    FieldDenotes(fs[k], k, t.year, t.month, GetValue(k, t))
  }

  /** All eight fields match the date-time. */
  ghost predicate Matches(fs: Fields, t: DateTime)
    requires |fs| == FIELD_COUNT && ValidDateTime(t)
  {
    forall k :: 0 <= k < FIELD_COUNT ==> FieldMatches(fs, k, t)
  }

  // ---- the simple search ----

  /** Second `s` of the time line is a date-time that all fields match. */
  ghost predicate MatchAt(fs: Fields, s: int)
    requires |fs| == FIELD_COUNT
  {
    InRange(s) && Matches(fs, Civil(s))
  }

  ghost function Matching(fs: Fields): int -> bool
    requires |fs| == FIELD_COUNT
  {
    s => MatchAt(fs, s)
  }

  /** The first matching second at or after `s`, found by trying every second up to year 9999. */
  ghost function Scan(fs: Fields, s: int): (r: Option<int>)
    requires |fs| == FIELD_COUNT
    ensures IsLeast(Matching(fs), s, r)
  {
    TryEachIsLeast(Matching(fs), s, LAST_SECOND);
    TryEach(Matching(fs), s, LAST_SECOND)
  }

  // ---- moves of the search ----

  /** `t` with field `k` set to `v` and every less significant component at its minimum. */
  function SetField(t: DateTime, k: int, v: int): DateTime
    requires IsField(k) && Real(k)
  {
    if k == YEAR then DateTime(v, 1, 1, 0, 0, 0)
    else if k == MONTH then DateTime(t.year, v, 1, 0, 0, 0)
    else if k == DAY then DateTime(t.year, t.month, v, 0, 0, 0)
    else if k == HOUR then DateTime(t.year, t.month, t.day, v, 0, 0)
    else if k == MINUTE then DateTime(t.year, t.month, t.day, t.hour, v, 0)
    else DateTime(t.year, t.month, t.day, t.hour, t.minute, v)
  }

  predicate AtMax(k: int, t: DateTime)
    requires IsField(k) && ValidDateTime(t)
  {
    GetValue(k, t) == GetMax(k, t.year, t.month)
  }

  /** Which field an increment of field `k` lands on: the last real field up to `k` that is not at its
      maximum, or -1. */
  function Carry(t: DateTime, k: int): (j: int)
    requires ValidDateTime(t) && -1 <= k < FIELD_COUNT
    ensures -1 <= j <= k
    ensures j >= 0 ==> Real(j) && !AtMax(j, t)
    ensures forall i :: j < i <= k && Real(i) ==> AtMax(i, t)
    decreases k
  {
    if k < 0 then -1
    else if !Real(k) || AtMax(k, t) then Carry(t, k - 1)
    else k
  }

  /** `t` with the field that `Carry` picks raised by one and the less significant ones reset. */
  function Increment(t: DateTime, k: int): DateTime
    requires ValidDateTime(t) && -1 <= k < FIELD_COUNT && Carry(t, k) >= 0
  {
    SetField(t, Carry(t, k), GetValue(Carry(t, k), t) + 1)
  }

  ghost predicate AgreeThrough(k: int, t: DateTime, u: DateTime)
    requires ValidDateTime(t) && ValidDateTime(u)
  {
    forall i :: 0 <= i <= k && i < FIELD_COUNT && Real(i) ==> GetValue(i, t) == GetValue(i, u)
  }

  lemma SetFieldIsValid(t: DateTime, k: int, v: int)
    requires ValidDateTime(t) && IsField(k) && Real(k)
    requires GetValue(k, t) < v <= GetMax(k, t.year, t.month)
    ensures ValidDateTime(SetField(t, k, v)) && Before(t, SetField(t, k, v))
    ensures AgreeThrough(k - 1, t, SetField(t, k, v)) && GetValue(k, SetField(t, k, v)) == v
  {
  }

  /** Between `t` and `SetField(t, k, v)` the fields above `k` do not change and field `k` stays below `v`. */
  lemma Sandwich(t: DateTime, k: int, v: int, u: DateTime)
    requires ValidDateTime(t) && ValidDateTime(u) && IsField(k) && Real(k) && GetValue(k, t) < v
    requires !Before(u, t) && Before(u, SetField(t, k, v))
    ensures AgreeThrough(k - 1, t, u) && GetValue(k, t) <= GetValue(k, u) < v
  {
  }

  /** At or after `t`, agreeing with it up to field `k` and beyond that at the maximum means equal. */
  lemma StuckAtMax(t: DateTime, j: int, k: int, u: DateTime)
    requires ValidDateTime(t) && ValidDateTime(u) && -1 <= j <= k < FIELD_COUNT
    requires forall i :: j < i <= k && Real(i) ==> AtMax(i, t)
    requires AgreeThrough(j, t, u) && !Before(u, t)
    ensures AgreeThrough(k, t, u)
    decreases k - j
  {
    if j < k {
      Agreement(t, u, j);
      StuckAtMax(t, j + 1, k, u);
    }
  }

  /** Date-times that agree on the real fields up to `k` agree on the meaning of every field up to `k`. */
  lemma SameFields(fs: Fields, t: DateTime, u: DateTime, k: int, i: int)
    requires ValidFields(fs) && ValidDateTime(t) && ValidDateTime(u)
    requires 0 <= i <= k < FIELD_COUNT && AgreeThrough(k, t, u)
    ensures FieldMatches(fs, i, t) <==> FieldMatches(fs, i, u)
  {
    Agreement(t, u, k);
    if i == YEAR || i == MONTH {
      SameOutsideDays(fs[i], i, t, u);
    }
  }

  lemma Agreement(t: DateTime, u: DateTime, k: int)
    requires ValidDateTime(t) && ValidDateTime(u) && AgreeThrough(k, t, u)
    ensures k >= YEAR ==> t.year == u.year
    ensures k >= MONTH ==> t.month == u.month
    ensures k >= DAY ==> t.day == u.day
    ensures k >= HOUR ==> t.hour == u.hour
    ensures k >= MINUTE ==> t.minute == u.minute
    ensures k >= SECOND ==> t.second == u.second
  {
    assert k >= YEAR ==> GetValue(YEAR, t) == GetValue(YEAR, u);
    assert k >= MONTH ==> GetValue(MONTH, t) == GetValue(MONTH, u);
    assert k >= DAY ==> GetValue(DAY, t) == GetValue(DAY, u);
    assert k >= HOUR ==> GetValue(HOUR, t) == GetValue(HOUR, u);
    assert k >= MINUTE ==> GetValue(MINUTE, t) == GetValue(MINUTE, u);
    assert k >= SECOND ==> GetValue(SECOND, t) == GetValue(SECOND, u);
  }

  /** Only the day-of-month field depends on the month. */
  lemma SameOutsideDays(es: seq<Expr>, k: int, t: DateTime, u: DateTime)
    requires IsField(k) && k != DAY && ValidDateTime(t) && ValidDateTime(u)
    requires forall e :: e in es ==> Compiled(k, e)
    ensures forall v :: FieldDenotes(es, k, t.year, t.month, v) <==> FieldDenotes(es, k, u.year, u.month, v)
  {
    forall e, v | e in es
      ensures Denotes(e, k, t.year, t.month, v) <==> Denotes(e, k, u.year, u.month, v)
    {
    }
  }

  lemma NextFieldGrows(t: DateTime, u: DateTime, k: int)
    requires ValidDateTime(t) && ValidDateTime(u) && IsField(k) && Real(k)
    requires AgreeThrough(k - 1, t, u) && !Before(u, t)
    ensures GetValue(k, t) <= GetValue(k, u)
  {
    Agreement(t, u, k - 1);
  }

  /** Until the incremented date-time, or for ever when nothing can be incremented, the fields up to `k` stay
      as they are. */
  lemma CarryAgrees(t: DateTime, k: int, u: DateTime)
    requires ValidDateTime(t) && ValidDateTime(u) && -1 <= k < FIELD_COUNT
    requires !Before(u, t) && (Carry(t, k) >= 0 ==> Before(u, Increment(t, k)))
    ensures AgreeThrough(k, t, u)
  {
    var j := Carry(t, k);
    if j >= 0 {
      Sandwich(t, j, GetValue(j, t) + 1, u);
    }
    StuckAtMax(t, j, k, u);
  }

  lemma IncrementIsValid(t: DateTime, k: int)
    requires ValidDateTime(t) && -1 <= k < FIELD_COUNT && Carry(t, k) >= 0
    ensures ValidDateTime(Increment(t, k)) && Before(t, Increment(t, k))
    ensures AgreeThrough(Carry(t, k) - 1, t, Increment(t, k))
  {
    var j := Carry(t, k);
    assert GetValue(j, t) < GetMax(j, t.year, t.month);
    SetFieldIsValid(t, j, GetValue(j, t) + 1);
  }

  // ---- no move skips a match ----

  /** Raising a real field to its next value passes over no match. */
  lemma SettingSkipsNothing(fs: Fields, t: DateTime, k: int, next: int, u: DateTime)
    requires ValidFields(fs) && ValidDateTime(t) && ValidDateTime(u) && IsField(k) && Real(k)
    requires IsLeastFrom(fs[k], k, t.year, t.month, GetValue(k, t), Some(next)) && GetValue(k, t) < next
    requires !Before(u, t) && Before(u, SetField(t, k, next))
    ensures !Matches(fs, u)
  {
    Sandwich(t, k, next, u);
    Agreement(t, u, k - 1);
    assert !FieldDenotes(fs[k], k, t.year, t.month, GetValue(k, u));
    if k != DAY {
      SameOutsideDays(fs[k], k, t, u);
    }
    assert !FieldMatches(fs, k, u);
  }

  /** Moving on to the next day after a computed field has failed to match passes over no match. */
  lemma SteppingADaySkipsNothing(fs: Fields, t: DateTime, k: int, u: DateTime)
    requires ValidFields(fs) && ValidDateTime(t) && ValidDateTime(u) && IsField(k) && !Real(k)
    requires !FieldMatches(fs, k, t)
    requires !Before(u, t) && (Carry(t, k) >= 0 ==> Before(u, Increment(t, k)))
    ensures !Matches(fs, u)
  {
    CarryAgrees(t, k, u);
    SameFields(fs, t, u, k, k);
    assert !FieldMatches(fs, k, u);
  }

  /** Carrying into the fields above one that has no value left passes over no match. */
  lemma CarryingSkipsNothing(fs: Fields, t: DateTime, k: int, u: DateTime)
    requires ValidFields(fs) && ValidDateTime(t) && ValidDateTime(u) && IsField(k)
    requires IsLeastFrom(fs[k], k, t.year, t.month, GetValue(k, t), None)
    requires !Before(u, t) && (Carry(t, k - 1) >= 0 ==> Before(u, Increment(t, k - 1)))
    ensures !Matches(fs, u)
  {
    CarryAgrees(t, k - 1, u);
    Agreement(t, u, k - 1);
    if Real(k) {
      NextFieldGrows(t, u, k);
    }
    assert !FieldDenotes(fs[k], k, t.year, t.month, GetValue(k, u));
    if k != DAY {
      SameOutsideDays(fs[k], k, t, u);
    }
    assert !FieldMatches(fs, k, u);
  }

  // ---- the state of the search ----

  /** No match lies from `start` up to, but not including, `t`. */
  ghost predicate NoneBefore(fs: Fields, start: DateTime, t: DateTime)
    requires |fs| == FIELD_COUNT
  {
    forall u :: ValidDateTime(u) && !Before(u, start) && Before(u, t) ==> !Matches(fs, u)
  }

  /** The fields above `k` match `t`. */
  ghost predicate MatchesBelow(fs: Fields, k: int, t: DateTime)
    requires |fs| == FIELD_COUNT && ValidDateTime(t)
  {
    forall i :: 0 <= i < k && i < FIELD_COUNT ==> FieldMatches(fs, i, t)
  }

  /** A state the search loop can be in: at `t`, about to look at field `k`. */
  ghost predicate Searching(fs: Fields, start: DateTime, t: DateTime, k: int)
    requires |fs| == FIELD_COUNT
  {
    && ValidDateTime(start) && ValidDateTime(t) && 0 <= k <= FIELD_COUNT
    && !Before(t, start) && NoneBefore(fs, start, t) && MatchesBelow(fs, k, t)
  }

  lemma KeepMatches(fs: Fields, t: DateTime, u: DateTime, j: int)
    requires ValidFields(fs) && ValidDateTime(t) && ValidDateTime(u) && 0 <= j < FIELD_COUNT
    requires AgreeThrough(j - 1, t, u) && MatchesBelow(fs, j, t)
    ensures MatchesBelow(fs, j, u)
  {
    forall i | 0 <= i < j
      ensures FieldMatches(fs, i, u)
    {
      SameFields(fs, t, u, j - 1, i);
    }
  }

  lemma AfterMatch(fs: Fields, start: DateTime, t: DateTime, k: int)
    requires ValidFields(fs) && Searching(fs, start, t, k) && k < FIELD_COUNT
    requires IsLeastFrom(fs[k], k, t.year, t.month, GetValue(k, t), Some(GetValue(k, t)))
    ensures Searching(fs, start, t, k + 1)
  {
  }

  lemma AfterSetting(fs: Fields, start: DateTime, t: DateTime, k: int, next: int)
    requires ValidFields(fs) && Searching(fs, start, t, k) && k < FIELD_COUNT && Real(k)
    requires IsLeastFrom(fs[k], k, t.year, t.month, GetValue(k, t), Some(next)) && GetValue(k, t) < next
    ensures ValidDateTime(SetField(t, k, next)) && Before(t, SetField(t, k, next))
    ensures Searching(fs, start, SetField(t, k, next), k + 1)
  {
    var t' := SetField(t, k, next);
    NextIsInField(fs, k, t, next);
    SetFieldIsValid(t, k, next);
    KeepMatches(fs, t, t', k);
    Agreement(t, t', k - 1);
    if k != DAY {
      SameOutsideDays(fs[k], k, t, t');
    }
    forall u | ValidDateTime(u) && !Before(u, start) && Before(u, t')
      ensures !Matches(fs, u)
    {
      if !Before(u, t) {
        SettingSkipsNothing(fs, t, k, next, u);
      }
    }
  }

  lemma NextIsInField(fs: Fields, k: int, t: DateTime, next: int)
    requires ValidFields(fs) && ValidDateTime(t) && IsField(k)
    requires FieldDenotes(fs[k], k, t.year, t.month, next)
    ensures GetMin(k) <= next <= GetMax(k, t.year, t.month)
  {
    var e :| e in fs[k] && Denotes(e, k, t.year, t.month, next);
    DenotedIsInField(e, k, t.year, t.month, next);
  }

  /** Whether an increment is due at field `k`, and of which field: the one above when no value is left, the
      field itself when it is a computed one whose next value lies ahead. */
  ghost predicate MustIncrement(fs: Fields, t: DateTime, k: int, next: Option<int>, target: int)
    requires |fs| == FIELD_COUNT && ValidDateTime(t) && IsField(k)
  {
    && IsLeastFrom(fs[k], k, t.year, t.month, GetValue(k, t), next)
    && (if next.None? then target == k - 1 else GetValue(k, t) < next.value && !Real(k) && target == k)
  }

  lemma IncrementSkipsNothing(fs: Fields, t: DateTime, k: int, next: Option<int>, target: int, u: DateTime)
    requires ValidFields(fs) && ValidDateTime(t) && ValidDateTime(u) && IsField(k)
    requires MustIncrement(fs, t, k, next, target)
    requires !Before(u, t) && (Carry(t, target) >= 0 ==> Before(u, Increment(t, target)))
    ensures !Matches(fs, u)
  {
    if next.None? {
      CarryingSkipsNothing(fs, t, k, u);
    } else {
      SteppingADaySkipsNothing(fs, t, k, u);
    }
  }

  lemma AfterIncrement(fs: Fields, start: DateTime, t: DateTime, k: int, next: Option<int>, target: int)
    requires ValidFields(fs) && Searching(fs, start, t, k) && k < FIELD_COUNT
    requires MustIncrement(fs, t, k, next, target) && Carry(t, target) >= 0
    ensures ValidDateTime(Increment(t, target)) && Before(t, Increment(t, target))
    ensures Searching(fs, start, Increment(t, target), Carry(t, target))
  {
    IncrementIsValid(t, target);
    KeepMatches(fs, t, Increment(t, target), Carry(t, target));
    forall u | ValidDateTime(u) && !Before(u, start) && Before(u, Increment(t, target))
      ensures !Matches(fs, u)
    {
      if !Before(u, t) {
        IncrementSkipsNothing(fs, t, k, next, target, u);
      }
    }
  }

  /** When nothing can be incremented the search is over: no match lies at or after the start. */
  lemma AfterOverflow(fs: Fields, start: DateTime, t: DateTime, k: int, next: Option<int>, target: int)
    requires ValidFields(fs) && Searching(fs, start, t, k) && k < FIELD_COUNT
    requires MustIncrement(fs, t, k, next, target) && Carry(t, target) < 0
    ensures forall u :: ValidDateTime(u) && !Before(u, start) ==> !Matches(fs, u)
  {
    forall u | ValidDateTime(u) && !Before(u, start)
      ensures !Matches(fs, u)
    {
      if !Before(u, t) {
        IncrementSkipsNothing(fs, t, k, next, target, u);
      }
    }
  }
}
