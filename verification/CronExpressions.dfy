/**
  The cron field tables and the expressions a field is made of
  (src/schedflow/triggers/cron/fields.py and expressions.py).

  A field is known by its position in `CronTrigger.FIELD_NAMES`. `Denotes` says which values an
  expression stands for; `ExprNext` is how the program searches for the next of them.
 */
module CronExpressions {
  import opened Prelude
  import opened Calendar
  import Modular

  const YEAR := 0
  const MONTH := 1
  const DAY := 2
  const WEEK := 3
  const DAY_OF_WEEK := 4
  const HOUR := 5
  const MINUTE := 6
  const SECOND := 7
  const FIELD_COUNT := 8

  predicate IsField(k: int) { 0 <= k < FIELD_COUNT }

  /** Fields that are components of a `datetime`; week and day of week are computed from the others. */
  predicate Real(k: int) { k != WEEK && k != DAY_OF_WEEK }

  const MIN_VALUES: seq<int> := [1970, 1, 1, 1, 0, 0, 0, 0]
  const MAX_VALUES: seq<int> := [9999, 12, 31, 53, 6, 23, 59, 59]

  function GetMin(k: int): int
    requires IsField(k)
  {
    MIN_VALUES[k]
  }

  /** The largest value of field `k` in the given month. */
  function GetMax(k: int, y: int, m: int): int
    requires IsField(k)
  {
    if k == DAY then DaysInMonth(y, m) else MAX_VALUES[k]
  }

  function GetValue(k: int, t: DateTime): int
    requires IsField(k) && ValidDateTime(t)
  {
    if k == YEAR then t.year
    else if k == MONTH then t.month
    else if k == DAY then t.day
    else if k == WEEK then IsoWeek(t.Day())
    else if k == DAY_OF_WEEK then Weekday(t.Day())
    else if k == HOUR then t.hour
    else if k == MINUTE then t.minute
    else t.second
  }

  // ---- expressions ----

  datatype Expr =
    | All(step: Option<nat>)
    | Range(first: nat, last: Option<nat>, step: Option<nat>)
    | MonthRange(first: nat, last: Option<nat>)
    | WeekdayRange(first: nat, last: Option<nat>)
    | WeekdayPosition(option: nat, weekday: nat)
    | LastDayOfMonth

  /** What construction and `validate_range` leave standing in field `k`. */
  predicate Compiled(k: int, e: Expr)
    requires IsField(k)
  {
    var lo, hi := MIN_VALUES[k], MAX_VALUES[k];
    match e
    case All(step) => step.Some? ==> 0 < step.value <= hi - lo
    case Range(first, last, step) =>
      && lo <= first
      && (last.Some? ==> first <= last.value <= hi)
      && (last.None? ==> step.Some?)
      // a last value of 0 is falsy: the step is then measured against the maximum of the field
      && (step.Some? ==> 0 < step.value <= (if last.Some? && last.value != 0 then last.value else hi) - first)
    case MonthRange(first, last) => k == MONTH && last.Some? && 1 <= first <= last.value <= 12
    case WeekdayRange(first, last) => k == DAY_OF_WEEK && last.Some? && first <= last.value <= 6
    case WeekdayPosition(option, weekday) => k == DAY && option <= 5 && weekday <= 6
    case LastDayOfMonth => k == DAY
  }

  predicate StepHits(step: Option<nat>, origin: int, v: int) {
    step.Some? && step.value > 0 ==> Modular.Divides(step.value, v - origin)
  }

  /** The set of values an expression stands for, in field `k` and month `y`-`m`. */
  predicate Denotes(e: Expr, k: int, y: int, m: int, v: int)
    requires IsField(k) && 1 <= m <= 12
  {
    var lo, hi := GetMin(k), GetMax(k, y, m);
    match e
    case All(step) => lo <= v <= hi && StepHits(step, lo, v)
    case Range(first, last, step) => InSteppedRange(lo, hi, first, last, step, v)
    case MonthRange(first, last) => InSteppedRange(lo, hi, first, last, None, v)
    case WeekdayRange(first, last) => InSteppedRange(lo, hi, first, last, None, v)
    case WeekdayPosition(option, weekday) => IsWeekdayPosition(y, m, option, weekday, v)
    case LastDayOfMonth => v == DaysInMonth(y, m)
  }

  predicate InSteppedRange(lo: int, hi: int, first: nat, last: Option<nat>, step: Option<nat>, v: int) {
    && lo <= v && first <= v
    && v <= hi && (last.Some? ==> v <= last.value)
    && StepHits(step, Max(lo, first), v)
  }

  // ---- the nth weekday of a month ----

  /** How many of the first `v` days of the month fall on `weekday`. */
  function CountWeekday(y: int, m: int, weekday: int, v: nat): nat
    requires 1 <= m <= 12 && v <= DaysInMonth(y, m)
  {
    if v == 0 then 0
    else CountWeekday(y, m, weekday, v - 1) + (if Weekday(Date(y, m, v)) == weekday then 1 else 0)
  }

  /** Day `v` is the first, .., fifth (`option` 0 to 4) or the last (`option` 5) `weekday` of the month. */
  predicate IsWeekdayPosition(y: int, m: int, option: nat, weekday: nat, v: int)
    requires 1 <= m <= 12
  {
    && 1 <= v <= DaysInMonth(y, m)
    && Weekday(Date(y, m, v)) == weekday
    && CountWeekday(y, m, weekday, v) ==
       if option < 5 then option + 1 else CountWeekday(y, m, weekday, DaysInMonth(y, m))
  }

  /** The first `weekday` of a month whose first day falls on `firstWeekday`. */
  function FirstHitDay(firstWeekday: int, weekday: nat): int {
    var hit := weekday - firstWeekday + 1;
    if hit <= 0 then hit + 7 else hit
  }

  lemma WeekdayInMonth(y: int, m: int, v: int)
    requires 1 <= m <= 12 && 1 <= v <= DaysInMonth(y, m)
    ensures Weekday(Date(y, m, v)) == (Weekday(Date(y, m, 1)) + v - 1) % 7
  {
    var n := Ordinal(Date(y, m, 1));
    assert Ordinal(Date(y, m, v)) == n + v - 1;
    ShiftedWeekday(n, v - 1);
  }

  lemma ShiftedWeekday(n: int, d: int)
    ensures (n + d + 6) % 7 == ((n + 6) % 7 + d) % 7
  {
  }

  /** `weekday` falls on the days `hit`, `hit + 7`, .. of the month. */
  lemma {:induction false} CountIsByWeeks(y: int, m: int, weekday: nat, v: nat)
    requires 1 <= m <= 12 && weekday <= 6 && v <= DaysInMonth(y, m)
    ensures var hit := FirstHitDay(Weekday(Date(y, m, 1)), weekday);
            && 1 <= hit <= 7
            && CountWeekday(y, m, weekday, v) == (if v < hit then 0 else (v - hit) / 7 + 1)
            && (v > 0 ==> (Weekday(Date(y, m, v)) == weekday <==> v >= hit && (v - hit) % 7 == 0))
    decreases v
  {
    if v > 0 {
      CountIsByWeeks(y, m, weekday, v - 1);
      WeekdayInMonth(y, m, v);
      HitDays(Weekday(Date(y, m, 1)), weekday, v);
    }
  }

  lemma HitDays(firstWeekday: int, weekday: nat, v: nat)
    requires 0 <= firstWeekday <= 6 && weekday <= 6 && v > 0
    ensures var hit := FirstHitDay(firstWeekday, weekday);
            && ((firstWeekday + v - 1) % 7 == weekday <==> v >= hit && (v - hit) % 7 == 0)
            && (v >= hit ==>
                  (v - hit) / 7 + 1 ==
                  (if v - 1 < hit then 0 else (v - 1 - hit) / 7 + 1) + (if (v - hit) % 7 == 0 then 1 else 0))
  {
  }

  // ---- the next value ----

  /** `get_next_value` of the unstepped and stepped ranges. */
  function RangeNext(k: int, t: DateTime, first: nat, last: Option<nat>, step: Option<nat>): Option<int>
    requires IsField(k) && ValidDateTime(t)
  {
    var startval := GetValue(k, t);
    var minval := Max(GetMin(k), first);
    var fieldMax := GetMax(k, t.year, t.month);
    var maxval := if last.Some? then Min(fieldMax, last.value) else fieldMax;
    var nextval := Max(minval, startval);
    var stepped :=
      if step.Some? && step.value != 0 then nextval + (step.value - (nextval - minval)) % step.value else nextval;
    if stepped <= maxval then Some(stepped) else None
  }

  /** `get_next_value` of each kind of expression. */
  function ExprNext(e: Expr, k: int, t: DateTime): Option<int>
    requires IsField(k) && ValidDateTime(t)
  {
    match e
    case All(step) =>
      var minval := GetMin(k);
      var start := Max(GetValue(k, t), minval);
      var next :=
        if step.None? || step.value == 0 then start else start + (step.value - (start - minval)) % step.value;
      if next <= GetMax(k, t.year, t.month) then Some(next) else None
    case Range(first, last, step) => RangeNext(k, t, first, last, step)
    case MonthRange(first, last) => RangeNext(k, t, first, last, None)
    case WeekdayRange(first, last) => RangeNext(k, t, first, last, None)
    case WeekdayPosition(option, weekday) =>
      var lastDay := DaysInMonth(t.year, t.month);
      var firstHitDay := FirstHitDay(Weekday(Date(t.year, t.month, 1)), weekday);
      var targetDay :=
        if option < 5 then firstHitDay + option * 7 else firstHitDay + ((lastDay - firstHitDay) / 7) * 7;
      if targetDay <= lastDay && targetDay >= t.day then Some(targetDay) else None
    case LastDayOfMonth => Some(DaysInMonth(t.year, t.month))
  }

  /** The values of the expressions `es` together. */
  ghost predicate FieldDenotes(es: seq<Expr>, k: int, y: int, m: int, v: int)
    requires IsField(k) && 1 <= m <= 12
  {
    exists e :: e in es && Denotes(e, k, y, m, v)
  }

  /** `r` is the least value at or above `from` that `es` denotes, or `None` when there is none. */
  ghost predicate IsLeastFrom(es: seq<Expr>, k: int, y: int, m: int, from: int, r: Option<int>)
    requires IsField(k) && 1 <= m <= 12
  {
    match r
    case None => forall v :: from <= v ==> !FieldDenotes(es, k, y, m, v)
    case Some(n) =>
      && from <= n && FieldDenotes(es, k, y, m, n)
      && forall v :: from <= v < n ==> !FieldDenotes(es, k, y, m, v)
  }

  lemma SteppedRangeIsLeast(lo: int, hi: int, from: int, step: Option<nat>)
    requires from >= lo
    ensures
      var n := if step.Some? && step.value != 0 then from + (step.value - (from - lo)) % step.value else from;
      && from <= n && StepHits(step, lo, n)
      && forall v :: from <= v < n ==> !StepHits(step, lo, v)
  {
    if step.Some? && step.value != 0 {
      Modular.DistanceToMultiple(from - lo, step.value);
    }
  }

  lemma RangeNextIsLeast(k: int, t: DateTime, first: nat, last: Option<nat>, step: Option<nat>)
    requires IsField(k) && ValidDateTime(t)
    ensures
      var lo, hi, from := GetMin(k), GetMax(k, t.year, t.month), GetValue(k, t);
      match RangeNext(k, t, first, last, step)
      case None => forall v :: from <= v ==> !InSteppedRange(lo, hi, first, last, step, v)
      case Some(n) =>
        && from <= n && InSteppedRange(lo, hi, first, last, step, n)
        && forall v :: from <= v < n ==> !InSteppedRange(lo, hi, first, last, step, v)
  {
    var minval := Max(GetMin(k), first);
    SteppedRangeIsLeast(minval, GetMax(k, t.year, t.month), Max(minval, GetValue(k, t)), step);
  }

  lemma WeekdayPositionIsExact(y: int, m: int, option: nat, weekday: nat, v: int)
    requires 1 <= m <= 12 && option <= 5 && weekday <= 6
    ensures
      var lastDay := DaysInMonth(y, m);
      var hit := FirstHitDay(Weekday(Date(y, m, 1)), weekday);
      var target := if option < 5 then hit + option * 7 else hit + ((lastDay - hit) / 7) * 7;
      IsWeekdayPosition(y, m, option, weekday, v) <==> v == target && v <= lastDay
  {
    var lastDay := DaysInMonth(y, m);
    CountIsByWeeks(y, m, weekday, lastDay);
    var hit := FirstHitDay(Weekday(Date(y, m, 1)), weekday);
    if 1 <= v <= lastDay {
      CountIsByWeeks(y, m, weekday, v);
      WholeWeeks(lastDay - hit, v - hit, option);
    }
    if option < 5 {
      assert hit + option * 7 >= 1;
    }
  }

  lemma WholeWeeks(n: int, a: int, option: nat)
    ensures 0 <= a && a % 7 == 0 ==> (a / 7 == option <==> a == option * 7)
    ensures 0 <= a <= n && a % 7 == 0 ==> (a / 7 == n / 7 <==> a == n / 7 * 7)
    ensures (option * 7) % 7 == 0 && (n / 7 * 7) % 7 == 0
    ensures n / 7 * 7 <= n
  {
  }

  /** Each expression finds the least of its values at or above the current one. */
  lemma ExprNextIsLeast(e: Expr, k: int, t: DateTime)
    requires IsField(k) && ValidDateTime(t) && Compiled(k, e)
    ensures IsLeastFrom([e], k, t.year, t.month, GetValue(k, t), ExprNext(e, k, t))
  {
    var from, r := GetValue(k, t), ExprNext(e, k, t);
    Singleton(e, k, t.year, t.month);
    match e {
      case All(step) =>
        SteppedRangeIsLeast(GetMin(k), GetMax(k, t.year, t.month), Max(from, GetMin(k)), step);
      case Range(first, last, step) => RangeNextIsLeast(k, t, first, last, step);
      case MonthRange(first, last) => RangeNextIsLeast(k, t, first, last, None);
      case WeekdayRange(first, last) => RangeNextIsLeast(k, t, first, last, None);
      case WeekdayPosition(option, weekday) =>
        forall v {
          WeekdayPositionIsExact(t.year, t.month, option, weekday, v);
        }
      case LastDayOfMonth =>
    }
  }

  lemma Singleton(e: Expr, k: int, y: int, m: int)
    requires IsField(k) && 1 <= m <= 12
    ensures forall v :: FieldDenotes([e], k, y, m, v) <==> Denotes(e, k, y, m, v)
  {
    forall v | Denotes(e, k, y, m, v)
      ensures FieldDenotes([e], k, y, m, v)
    {
      assert e in [e];
    }
  }

  /** The denoted values are values of the field. */
  lemma DenotedIsInField(e: Expr, k: int, y: int, m: int, v: int)
    requires IsField(k) && 1 <= m <= 12 && Compiled(k, e) && Denotes(e, k, y, m, v)
    ensures GetMin(k) <= v <= GetMax(k, y, m)
  {
  }
}
