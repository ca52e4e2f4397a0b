/**
  The calendar interval trigger (src/schedflow/triggers/calendarinterval.py) in a fixed-offset zone, without
  jitter, over a calendar that does not end with year 9999.
 */
module CalendarIntervalTriggers {
  import opened Prelude
  import opened Calendar
  import opened Triggers
  import opened Enumeration

  const CYCLE := 4800

  /** Months are numbered through: 12 to the year. */
  function MonthIndex(d: Date): int {
    12 * d.year + d.month - 1
  }

  /** The date with the given day in the month with the given index. */
  function DateAt(index: int, day: int): Date {
    Date(index / 12, index % 12 + 1, day)
  }

  predicate DayExists(index: int, day: int) {
    ValidDate(DateAt(index, day))
  }

  lemma IndexOfDate(d: Date)
    requires 1 <= d.month <= 12
    ensures DateAt(MonthIndex(d), d.day) == d
  {
  }

  lemma DateOfIndex(index: int, day: int)
    ensures MonthIndex(DateAt(index, day)) == index
  {
  }

  /** Whether a day exists in a month repeats every 4800 months. */
  lemma DaysRepeat(index: int, day: int, c: int)
    ensures DayExists(index + CYCLE * c, day) <==> DayExists(index, day)
  {
    MonthsRepeat(index, c);
    CycleOfMonths(index / 12, index % 12 + 1, c);
  }

  lemma MonthsRepeat(index: int, c: int)
    ensures (index + CYCLE * c) / 12 == index / 12 + 400 * c && (index + CYCLE * c) % 12 == index % 12
  {
  }

  // ---- how many passes the retry loop makes ----

  /** The month `n` steps after the one with the given index. */
  function MonthAfter(index: int, step: nat, n: nat): int {
    if n == 0 then index else MonthAfter(index, step, n - 1) + step
  }

  lemma {:induction false} MonthAfterIsLinear(index: int, step: nat, n: nat)
    ensures MonthAfter(index, step, n) == index + n * step
    decreases n
  {
    if n > 0 {
      MonthAfterIsLinear(index, step, n - 1);
    }
  }

  lemma {:induction false} StepsAddUp(index: int, step: nat, m: nat, n: nat)
    ensures MonthAfter(MonthAfter(index, step, m), step, n) == MonthAfter(index, step, m + n)
    decreases n
  {
    if n > 0 {
      StepsAddUp(index, step, m, n - 1);
    }
  }

  /** The month `n` steps on has the day. */
  predicate Hit(index: int, day: int, step: nat, n: int) {
    0 <= n && DayExists(MonthAfter(index, step, n), day)
  }

  ghost function Hits(index: int, day: int, step: nat): (h: int -> bool)
    ensures Recurs(h, CYCLE)
    ensures h(0) <==> DayExists(index, day)
    ensures forall n :: h(n) <==> Hit(index, day, step, n)
  {
    forall n | Hit(index, day, step, n)
      ensures Hit(index, day, step, n + CYCLE)
    {
      HitsRecur(index, day, step, n);
    }
    n => Hit(index, day, step, n)
  }

  /** After 4800 steps the day exists again, whatever the step. */
  lemma HitsRecur(index: int, day: int, step: nat, n: nat)
    requires Hit(index, day, step, n)
    ensures Hit(index, day, step, n + CYCLE)
  {
    StepsAddUp(index, step, n, CYCLE);
    MonthAfterIsLinear(MonthAfter(index, step, n), step, CYCLE);
    DaysRepeat(MonthAfter(index, step, n), day, step);
  }

  /** The number of the first successful pass of the retry loop. */
  ghost function Passes(index: int, day: int, step: nat): (n: nat)
    requires DayExists(index, day)
    ensures 1 <= n <= CYCLE
  {
    FirstAfter(Hits(index, day, step), 0, CYCLE)
  }

  /** The date that the retry loop ends with: the same day in the first later month that has it. */
  ghost function SameDayLater(d: Date, step: nat): (r: Date)
    requires ValidDate(d)
    ensures ValidDate(r)
  {
    IndexOfDate(d);
    DateAt(MonthAfter(MonthIndex(d), step, Passes(MonthIndex(d), d.day, step)), d.day)
  }

  /** The state of the retry loop after `n` unsuccessful passes. */
  ghost predicate Tried(d: Date, step: nat, n: int, year: int, month: int)
    requires ValidDate(d)
  {
    IndexOfDate(d);
    && 1 <= month <= 12 && 0 <= n < Passes(MonthIndex(d), d.day, step)
    && 12 * year + month - 1 == MonthAfter(MonthIndex(d), step, n)
  }

  /** What a pass tries is the month one more step on. */
  lemma OnePass(d: Date, step: nat, n: int, year: int, month: int, y: int, m: int)
    requires ValidDate(d) && Tried(d, step, n, year, month)
    requires 1 <= m <= 12 && 12 * y + m - 1 == 12 * year + month - 1 + step
    ensures if ValidDate(Date(y, m, d.day)) then Date(y, m, d.day) == SameDayLater(d, step) else Tried(d, step, n + 1, y, m)
    ensures n < CYCLE
  {
    IndexOfDate(d);
    IndexOfDate(Date(y, m, d.day));
    var hits := Hits(MonthIndex(d), d.day, step);
    assert hits(n + 1) <==> ValidDate(Date(y, m, d.day));
    assert hits(n + 1) ==> n + 1 == FirstAfter(hits, 0, CYCLE);
  }

  lemma NothingTried(d: Date, step: nat)
    requires ValidDate(d)
    ensures Tried(d, step, 0, d.year, d.month)
  {
  }

  /** Moves on by the configured years and months, carrying whole years out of the month (lines 165-167). */
  method AddMonths(year: int, month: int, years: nat, months: nat) returns (y: int, m: int)
    requires 1 <= month <= 12
    ensures 1 <= m <= 12 && 12 * y + m - 1 == 12 * year + month - 1 + (12 * years + months)
  {
    m := month + months;
    y := year + years + (m - 1) / 12;
    m := (m - 1) % 12 + 1;
  }

  /** Counting the passes from a month `n` steps on is counting on from `n`. */
  lemma PassesFrom(start: int, day: int, step: nat, n: nat)
    requires DayExists(start, day) && Hit(start, day, step, n)
    ensures FirstAfter(Hits(start, day, step), n, CYCLE) == n + Passes(MonthAfter(start, step, n), day, step)
  {
    var index := MonthAfter(start, step, n);
    forall j | j >= 0
      ensures Hit(index, day, step, j) <==> Hit(start, day, step, n + j)
    {
      StepsAddUp(start, step, n, j);
    }
    FirstAfterShifts(Hits(start, day, step), Hits(index, day, step), n, CYCLE);
  }

  /** Month `m` of year `y` lies `j` steps after that of `d`. */
  predicate StepsOn(d: Date, step: nat, j: nat, y: int, m: int) {
    1 <= m <= 12 && 12 * y + m == 12 * d.year + d.month + j * step
  }

  /** `SameDayLater`, spelled out on years and months. */
  lemma FirstLaterDay(d: Date, step: nat) returns (n: nat, e: Date)
    requires ValidDate(d)
    ensures e == SameDayLater(d, step)
    ensures n >= 1 && ValidDate(e) && e.day == d.day && StepsOn(d, step, n, e.year, e.month)
    ensures forall j, y, m :: 1 <= j < n && StepsOn(d, step, j, y, m) ==> !ValidDate(Date(y, m, d.day))
  {
    IndexOfDate(d);
    n, e := Passes(MonthIndex(d), d.day, step), SameDayLater(d, step);
    MonthAfterIsLinear(MonthIndex(d), step, n);
    forall j, y, m | 1 <= j < n && StepsOn(d, step, j, y, m)
      ensures !ValidDate(Date(y, m, d.day))
    {
      EarlierHasNotTheDay(d, step, j, y, m);
    }
  }

  lemma EarlierHasNotTheDay(d: Date, step: nat, j: nat, y: int, m: int)
    requires ValidDate(d) && DayExists(MonthIndex(d), d.day) && 1 <= j < Passes(MonthIndex(d), d.day, step)
    requires StepsOn(d, step, j, y, m)
    ensures !ValidDate(Date(y, m, d.day))
  {
    MonthAfterIsLinear(MonthIndex(d), step, j);
    IndexOfDate(Date(y, m, d.day));
    assert !Hits(MonthIndex(d), d.day, step)(j);
  }

  class CalendarIntervalTrigger {
    const years: nat
    const months: nat
    const weeks: nat
    const days: nat
    const hour: int
    const minute: int
    const second: int
    const startDate: Date
    const endDate: Option<Date>

    ghost predicate Valid() {
      && ValidDate(startDate) && (endDate.Some? ==> ValidDate(endDate.value) && !DateBefore(endDate.value, startDate))
      && years + months + weeks + days > 0
    }

    /** The time of day exists. This is not looked at before a fire time is asked for. */
    predicate ValidTime() { 0 <= hour <= 23 && 0 <= minute <= 59 && 0 <= second <= 59 }

    constructor (years: nat, months: nat, weeks: nat, days: nat, hour: int, minute: int, second: int,
                 startDate: Date, endDate: Option<Date>)
      ensures this.years == years && this.months == months && this.weeks == weeks && this.days == days
      ensures this.hour == hour && this.minute == minute && this.second == second
      ensures this.startDate == startDate && this.endDate == endDate
    {
      this.years, this.months, this.weeks, this.days := years, months, weeks, days;
      this.hour, this.minute, this.second := hour, minute, second;
      this.startDate, this.endDate := startDate, endDate;
    }

    /** `__init__`: no result is the ValueError for an empty interval, or for an end before the start. */
    static method Create(years: nat, months: nat, weeks: nat, days: nat, hour: int, minute: int, second: int,
                         startDate: Date, endDate: Option<Date>) returns (r: Option<CalendarIntervalTrigger>)
      requires ValidDate(startDate) && (endDate.Some? ==> ValidDate(endDate.value))
      ensures r.None? <==> years + months + weeks + days == 0 || (endDate.Some? && DateBefore(endDate.value, startDate))
      ensures r.Some? ==>
                && r.value.Valid() && r.value.startDate == startDate && r.value.endDate == endDate
                && r.value.years == years && r.value.months == months && r.value.weeks == weeks && r.value.days == days
                && r.value.hour == hour && r.value.minute == minute && r.value.second == second
    {
      if years == 0 && months == 0 && weeks == 0 && days == 0 {
        return None;
      }
      if endDate.Some? && DateBefore(endDate.value, startDate) {
        return None;
      }
      var t := new CalendarIntervalTrigger(years, months, weeks, days, hour, minute, second, startDate, endDate);
      r := Some(t);
    }

    function Step(): int { 12 * years + months }

    function At(d: Date): DateTime { DateTime(d.year, d.month, d.day, hour, minute, second) }

    predicate PastEnd(d: Date) { endDate.Some? && DateBefore(endDate.value, d) }

    /** The date after `d`: as many months on as it takes for the day to exist, then weeks and days. */
    ghost function DateAfter(d: Date): (r: Date)
      requires ValidDate(d)
      ensures ValidDate(r)
    {
      AddDays(SameDayLater(d, Step()), days + weeks * 7)
    }

    /** The month-retry loop (lines 163-174): the date before weeks and days are added. */
    method RetryMonths(d: Date) returns (r: Date)
      requires ValidDate(d)
      ensures r == SameDayLater(d, Step())
    {
      ghost var passes := 0;
      var year, month := d.year, d.month;
      NothingTried(d, Step());
      while true
        invariant Tried(d, Step(), passes, year, month)
        decreases CYCLE - passes
      {
        var y, m := AddMonths(year, month, years, months);
        OnePass(d, Step(), passes, year, month, y, m);
        year, month, passes := y, m, passes + 1;
        if ValidDate(Date(year, month, d.day)) {
          return Date(year, month, d.day);
        }
      }
    }

    /** `get_next_fire_time`. The current time plays no part in it. An error is the ValueError of a time of day that
        does not exist. */
    method GetNextFireTime(previous: Option<DateTime>, now: DateTime) returns (r: Result<Option<DateTime>>)
      requires Valid() && (previous.Some? ==> ValidDate(previous.value.Day()))
      ensures
        var next := if previous.Some? then DateAfter(previous.value.Day()) else startDate;
        if PastEnd(next) then r == Ok(None) else if ValidTime() then r == Ok(Some(At(next))) else r.Err?
      ensures
        match Answer(if previous.Some? then Some(previous.value.Day()) else None)
        case Never => r == Ok(None)
        case Fire(t) => r.Ok? && r.value.Some? && ValidDate(r.value.value.Day()) && Sec(r.value.value) * MICROS == t
        case Raises => r.Err?
    {
      var nextDate: Date;
      if previous.Some? {
        var next := RetryMonths(previous.value.Day());
        nextDate := AddDays(next, days + weeks * 7);
      } else {
        nextDate := startDate;
      }
      if PastEnd(nextDate) {
        return Ok(None);
      }
      if !ValidTime() {
        return Err("the time of day does not exist");
      }
      r := Ok(Some(At(nextDate)));
    }

    /** Each date is later than the one before it. */
    lemma DatesIncrease(d: Date)
      requires Valid() && ValidDate(d)
      ensures DateBefore(d, DateAfter(d))
    {
      IndexOfDate(d);
      var index := MonthAfter(MonthIndex(d), Step(), Passes(MonthIndex(d), d.day, Step()));
      MonthAfterGrows(MonthIndex(d), Step(), Passes(MonthIndex(d), d.day, Step()));
      LaterMonth(d, index);
      LaterDay(d, DateAt(index, d.day), days + weeks * 7);
    }

    // ---- fire times ----

    /** The `k`-th date after the start date. */
    ghost function Nth(k: nat): (r: Date)
      requires Valid()
      ensures ValidDate(r)
    {
      if k == 0 then startDate else DateAfter(Nth(k - 1))
    }

    /** The instant of the trigger's time of day on a date. */
    function InstantOn(d: Date): int
      requires ValidDate(d)
    {
      Sec(At(d)) * MICROS
    }

    ghost function NthInstant(k: nat): int
      requires Valid()
    {
      InstantOn(Nth(k))
    }

    ghost function NthPastEnd(k: nat): bool
      requires Valid()
    {
      PastEnd(Nth(k))
    }

    ghost predicate FiresAs(k: nat, t: int)
      requires Valid()
    {
      t == NthInstant(k) && !NthPastEnd(k)
    }

    /** The fire times: the enumerated dates, up to the end date. */
    ghost function FireTimes(): int -> bool
      requires Valid()
    {
      t => exists k :: FiresAs(k, t)
    }

    /** What `GetNextFireTime` answers, as an instant: only the date of the previous fire time counts. */
    ghost function Answer(previous: Option<Date>): Outcome
      requires Valid() && (previous.Some? ==> ValidDate(previous.value))
    {
      var next := if previous.Some? then DateAfter(previous.value) else startDate;
      if PastEnd(next) then Never else if ValidTime() then Fire(InstantOn(next)) else Raises
    }

    lemma InstantsFollowDates(d: Date, e: Date)
      requires ValidDate(d) && ValidDate(e)
      ensures DateBefore(d, e) <==> InstantOn(d) < InstantOn(e)
    {
      OrdinalMonotone(d, e);
      OrdinalMonotone(e, d);
    }

    lemma NthGoesUp(k: nat)
      requires Valid()
      ensures NthInstant(k) < NthInstant(k + 1) && (NthPastEnd(k) ==> NthPastEnd(k + 1))
      ensures Answer(Some(Nth(k))) == if NthPastEnd(k + 1) then Never else if ValidTime() then Fire(NthInstant(k + 1)) else Raises
    {
      DatesIncrease(Nth(k));
      InstantsFollowDates(Nth(k), Nth(k + 1));
    }

    lemma AllGoUp() returns (time: nat -> int, past: nat -> bool)
      requires Valid()
      ensures forall k :: time(k) == NthInstant(k) && past(k) == NthPastEnd(k)
      ensures forall k :: GoesUp(time, past, k)
    {
      time, past := (k: nat) => NthInstant(k), (k: nat) => NthPastEnd(k);
      forall k: nat
        ensures GoesUp(time, past, k)
      {
        NthGoesUp(k);
      }
    }

    /** After the `k`-th fire time the trigger answers with the least later one, even if it is in the past. */
    lemma AnswersNext(k: nat)
      requires Valid() && !NthPastEnd(k)
      ensures AnswersLeast(FireTimes(), NthInstant(k) + 1, Answer(Some(Nth(k))))
    {
      var time, past := AllGoUp();
      NthGoesUp(k);
      forall t | NthInstant(k) < t && FireTimes()(t)
        ensures NthInstant(k + 1) <= t && !NthPastEnd(k + 1)
      {
        var j: nat :| FiresAs(j, t);
        assert time(j) == t && !past(j) && time(k) < t;
        NoneBetween(time, past, j, k);
        assert time(k + 1) == NthInstant(k + 1) && past(k + 1) == NthPastEnd(k + 1);
      }
      if !NthPastEnd(k + 1) {
        assert FiresAs(k + 1, NthInstant(k + 1));
      }
    }

    /** The documentation promises, without a previous fire time, the next one equal to or later than the current
        time. The answer is that if and only if the start date is not in the past. */
    lemma FirstAnswerIsNextIff(now: int)
      requires Valid() && ValidTime()
      ensures AnswersLeast(FireTimes(), now, Answer(None)) <==> now <= InstantOn(startDate)
    {
      var time, past := AllGoUp();
      assert FiresAs(0, NthInstant(0));
      forall t | FireTimes()(t)
        ensures NthInstant(0) <= t
      {
        var j: nat :| FiresAs(j, t);
        assert time(j) == t && time(0) == NthInstant(0);
        if j > 0 {
          GoesUpFurther(time, past, 0, j);
        }
      }
    }

    // ---- how far the dates lie apart ----

    /** The first later month, whole steps of years and months on, that has the day; then the weeks and days. */
    lemma DateAfterExactly(d: Date) returns (n: nat, e: Date)
      requires Valid() && ValidDate(d)
      ensures Step() == 12 * years + months
      ensures n >= 1 && ValidDate(e) && e.day == d.day && StepsOn(d, Step(), n, e.year, e.month)
      ensures forall j, y, m :: 1 <= j < n && StepsOn(d, Step(), j, y, m) ==> !ValidDate(Date(y, m, d.day))
      ensures Ordinal(DateAfter(d)) == Ordinal(e) + 7 * weeks + days
    {
      n, e := FirstLaterDay(d, Step());
      AddDaysOrdinal(e, days + weeks * 7);
    }

    ghost function NthOrdinal(k: nat): int
      requires Valid()
    {
      Ordinal(Nth(k))
    }

    /** With weeks and days only, the dates lie evenly, and so do the instants. */
    lemma EvenDates(k: nat)
      requires Valid() && years == 0 && months == 0
      ensures Ordinal(Nth(k)) == Ordinal(startDate) + k * (7 * weeks + days)
    {
      EvenOrdinals(k, 7 * weeks + days);
    }

    lemma EvenOrdinals(k: nat, step: int)
      requires Valid() && years == 0 && months == 0 && step == 7 * weeks + days
      ensures NthOrdinal(k) == NthOrdinal(0) + k * step
    {
      var f := AllAdd(step);
      ArithmeticProgression(f, step, k);
    }

    lemma AllAdd(step: int) returns (f: nat -> int)
      requires Valid() && years == 0 && months == 0 && step == 7 * weeks + days
      ensures forall i :: f(i) == NthOrdinal(i)
      ensures forall i :: Adds(f, step, i)
    {
      f := (i: nat) => NthOrdinal(i);
      forall i: nat
        ensures Adds(f, step, i)
      {
        OneEvenNth(i);
      }
    }

    lemma OneEvenNth(k: nat)
      requires Valid() && years == 0 && months == 0
      ensures NthOrdinal(k + 1) == NthOrdinal(k) + 7 * weeks + days
    {
      OneEvenStep(Nth(k));
    }

    lemma OneEvenStep(d: Date)
      requires Valid() && ValidDate(d) && years == 0 && months == 0
      ensures Ordinal(DateAfter(d)) == Ordinal(d) + 7 * weeks + days
    {
      var n, e := DateAfterExactly(d);
      SameMonth(d, n, e);
    }

    lemma EvenInstants(k: nat)
      requires Valid() && years == 0 && months == 0
      ensures NthInstant(k) == InstantOn(startDate) + k * (7 * weeks + days) * 86_400 * 1_000_000
    {
      EvenDates(k);
    }

    /** Which instants are fire times: those of the dates up to and including the end date, at the time of day. */
    lemma FireTimesExactly(k: nat, t: int)
      requires Valid()
      ensures FiresAs(k, t) <==>
                && t == (Ordinal(Nth(k)) * 86_400 + hour * 3_600 + minute * 60 + second) * 1_000_000
                && (endDate.Some? ==> Ordinal(Nth(k)) <= Ordinal(endDate.value))
    {
      if endDate.Some? {
        OrdinalMonotone(endDate.value, Nth(k));
      }
    }

    // ---- months and years only ----

    /** The valid date `n` steps after the start date. */
    ghost function Stepped(n: nat): Date {
      DateAt(MonthAfter(MonthIndex(startDate), Step(), n), startDate.day)
    }

    /** The numbers of steps after which the start date's day exists. */
    ghost function StartHits(): (h: int -> bool)
      requires Valid()
      ensures Recurs(h, CYCLE) && h(0)
    {
      IndexOfDate(startDate);
      Hits(MonthIndex(startDate), startDate.day, Step())
    }

    lemma StartHitsAreDates(n: nat)
      requires Valid()
      ensures StartHits()(n) <==> ValidDate(Stepped(n))
    {
    }

    lemma AfterMonthsOnly(d: Date, index: int)
      requires weeks == 0 && days == 0 && ValidDate(d) && d == DateAt(index, d.day)
      ensures MonthIndex(d) == index
      ensures DateAfter(d) == DateAt(MonthAfter(index, Step(), Passes(index, d.day, Step())), d.day)
    {
      DateOfIndex(index, d.day);
    }

    /** Without weeks and days every date keeps the day of the month: the `k`-th date lies as many steps after the
        start date as the `k`-th number of steps after which the day exists. */
    lemma {:induction false} KeepsDayOfMonth(k: nat)
      requires Valid() && weeks == 0 && days == 0
      ensures Nth(k) == Stepped(Position(StartHits(), k, CYCLE))
      decreases k
    {
      if k == 0 {
        IndexOfDate(startDate);
      } else {
        KeepsDayOfMonth(k - 1);
        var n := Position(StartHits(), k - 1, CYCLE);
        OneDateOn(n);
      }
    }

    lemma OneDateOn(n: nat)
      requires Valid() && weeks == 0 && days == 0 && StartHits()(n)
      ensures ValidDate(Stepped(n)) && DateAfter(Stepped(n)) == Stepped(FirstAfter(StartHits(), n, CYCLE))
    {
      StartHitsAreDates(n);
      var start, day, step := MonthIndex(startDate), startDate.day, Step();
      AfterMonthsOnly(Stepped(n), MonthAfter(start, step, n));
      PassesFrom(start, day, step, n);
      StepsAddUp(start, step, n, Passes(MonthAfter(start, step, n), day, step));
    }

    /** Without weeks and days the dates enumerate, in order and leaving none out, the valid ones among the dates
        that lie a whole number of steps after the start date. */
    lemma EnumeratesValidMonths(n: nat)
      requires Valid() && weeks == 0 && days == 0
      ensures ValidDate(Stepped(n)) <==> exists k :: Position(StartHits(), k, CYCLE) == n && Nth(k) == Stepped(n)
    {
      PositionsCover(StartHits(), CYCLE, n);
      StartHitsAreDates(n);
      if ValidDate(Stepped(n)) {
        var k :| Position(StartHits(), k, CYCLE) == n;
        KeepsDayOfMonth(k);
      }
    }
  }

  /** A weekly trigger, after Monday 1 January 2024: it answers with Monday 8 January. */
  method AWeekLater() returns (r: Result<Option<DateTime>>)
    ensures r == Ok(Some(DateTime(2024, 1, 8, 0, 0, 0)))
  {
    var start := Date(2024, 1, 1);
    var t := CalendarIntervalTrigger.Create(0, 0, 1, 0, 0, 0, 0, start, None);
    r := t.value.GetNextFireTime(Some(DateTime(2024, 1, 1, 0, 0, 0)), DateTime(2024, 1, 1, 0, 0, 0));
    t.value.OneEvenStep(start);
    SameOrdinal(t.value.DateAfter(start), Date(2024, 1, 8));
  }

  lemma SameMonth(d: Date, n: nat, e: Date)
    requires 1 <= d.month <= 12 && d.day == e.day && StepsOn(d, 0, n, e.year, e.month)
    ensures d == e
  {
  }

  lemma SameOrdinal(d: Date, e: Date)
    requires ValidDate(d) && ValidDate(e) && Ordinal(d) == Ordinal(e)
    ensures d == e
  {
    OrdinalMonotone(d, e);
    OrdinalMonotone(e, d);
  }

  /** A daily trigger that starts on 1 January 2020, asked in 2024: it answers with its start date. */
  method PastStartIsReturned() returns (r: Result<Option<DateTime>>)
    ensures r == Ok(Some(DateTime(2020, 1, 1, 0, 0, 0)))
  {
    var t := CalendarIntervalTrigger.Create(0, 0, 0, 1, 0, 0, 0, Date(2020, 1, 1), None);
    var now := DateTime(2024, 1, 1, 0, 0, 0);
    assert !AnswersLeast(t.value.FireTimes(), Sec(now) * MICROS, t.value.Answer(None)) by {
      t.value.FirstAnswerIsNextIff(Sec(now) * MICROS);
      OrdinalMonotone(Date(2020, 1, 1), Date(2024, 1, 1));
    }
    r := t.value.GetNextFireTime(None, now);
  }

  lemma LaterMonth(d: Date, index: int)
    requires ValidDate(d) && MonthIndex(d) <= index
    ensures var e := DateAt(index, d.day); e == d || DateBefore(d, e)
    ensures MonthIndex(d) < index ==> DateBefore(d, DateAt(index, d.day))
  {
  }

  lemma {:induction false} MonthAfterGrows(index: int, step: nat, n: nat)
    ensures n >= 1 ==> index + step <= MonthAfter(index, step, n)
    decreases n
  {
    if n > 1 {
      MonthAfterGrows(index, step, n - 1);
    }
  }

  lemma LaterDay(d: Date, e: Date, n: nat)
    requires ValidDate(d) && ValidDate(e) && (DateBefore(d, e) || (d == e && n > 0))
    ensures DateBefore(d, AddDays(e, n))
  {
    AddDaysOrdinal(e, n);
    OrdinalMonotone(d, e);
    OrdinalMonotone(d, AddDays(e, n));
  }
}
