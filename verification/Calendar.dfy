/**
  The proleptic Gregorian calendar behind every trigger: dates, their ordinals, weekdays, ISO 8601
  week numbers, and the civil date-times of one fixed-offset zone in chronological order.

  `FIRST` and `LAST` are the bounds of Python's `datetime` type.
 */
module Calendar {

  datatype Date = Date(year: int, month: int, day: int)

  datatype DateTime = DateTime(year: int, month: int, day: int, hour: int, minute: int, second: int) {
    function Day(): Date { Date(year, month, day) }
  }

  const FIRST := DateTime(1, 1, 1, 0, 0, 0)
  const LAST := DateTime(9999, 12, 31, 23, 59, 59)
  const DAY_SECONDS := 86400

  predicate IsLeap(y: int) {
    y % 4 == 0 && (y % 100 != 0 || y % 400 == 0)
  }

  function DaysInMonth(y: int, m: int): (n: int)
    ensures 28 <= n <= 31
  {
    if m == 2 then (if IsLeap(y) then 29 else 28)
    else if m == 4 || m == 6 || m == 9 || m == 11 then 30
    else 31
  }

  predicate ValidDate(d: Date) {
    1 <= d.month <= 12 && 1 <= d.day <= DaysInMonth(d.year, d.month)
  }

  predicate ValidDateTime(t: DateTime) {
    && 1 <= t.year <= 9999
    && ValidDate(t.Day())
    && 0 <= t.hour <= 23 && 0 <= t.minute <= 59 && 0 <= t.second <= 59
  }

  // ---- ordinals ----

  function DaysBeforeYear(y: int): int {
    var p := y - 1;
    p * 365 + p / 4 - p / 100 + p / 400
  }

  function DaysBeforeMonth(y: int, m: int): int
    requires 1 <= m <= 12
  {
    if m == 1 then 0 else DaysBeforeMonth(y, m - 1) + DaysInMonth(y, m - 1)
  }

  /** `date.toordinal()`: 1 for 0001-01-01. */
  function Ordinal(d: Date): int
    requires ValidDate(d)
  {
    DaysBeforeYear(d.year) + DaysBeforeMonth(d.year, d.month) + d.day
  }

  function NextDay(d: Date): (r: Date)
    requires ValidDate(d)
    ensures ValidDate(r)
  {
    if d.day < DaysInMonth(d.year, d.month) then Date(d.year, d.month, d.day + 1)
    else if d.month < 12 then Date(d.year, d.month + 1, 1)
    else Date(d.year + 1, 1, 1)
  }

  predicate DateBefore(d: Date, e: Date) {
    d.year < e.year || (d.year == e.year && (d.month < e.month || (d.month == e.month && d.day < e.day)))
  }

  lemma DaysInYear(y: int)
    ensures DaysBeforeMonth(y, 12) + 31 == (if IsLeap(y) then 366 else 365)
    ensures DaysBeforeYear(y + 1) - DaysBeforeYear(y) == (if IsLeap(y) then 366 else 365)
  {
    assert DaysBeforeMonth(y, 2) == 31;
    assert DaysBeforeMonth(y, 4) == 62 + DaysInMonth(y, 2);
    assert DaysBeforeMonth(y, 6) == 123 + DaysInMonth(y, 2);
    assert DaysBeforeMonth(y, 8) == 184 + DaysInMonth(y, 2);
    assert DaysBeforeMonth(y, 10) == 245 + DaysInMonth(y, 2);
    assert DaysBeforeMonth(y, 12) == 306 + DaysInMonth(y, 2);
    YearStep(y);
  }

  lemma YearStep(y: int)
    ensures DaysBeforeYear(y + 1) - DaysBeforeYear(y) == (if IsLeap(y) then 366 else 365)
  {
    FourYears(y);
    Century(y);
    FourCenturies(y);
    LeapYears(y);
  }

  lemma FourYears(y: int)
    ensures y / 4 - (y - 1) / 4 == if y % 4 == 0 then 1 else 0
  {
  }

  lemma Century(y: int)
    ensures y / 100 - (y - 1) / 100 == if y % 100 == 0 then 1 else 0
  {
  }

  lemma FourCenturies(y: int)
    ensures y / 400 - (y - 1) / 400 == if y % 400 == 0 then 1 else 0
  {
  }

  lemma LeapYears(y: int)
    ensures y % 400 == 0 ==> y % 100 == 0
    ensures y % 100 == 0 ==> y % 4 == 0
  {
  }

  /** The ordinal counts days: it goes up by one from each date to the next. */
  lemma OrdinalCountsDays(d: Date)
    requires ValidDate(d)
    ensures Ordinal(NextDay(d)) == Ordinal(d) + 1
  {
    if d.day == DaysInMonth(d.year, d.month) && d.month == 12 {
      DaysInYear(d.year);
    }
  }

  lemma {:induction false} MonthsAddUp(y: int, m: int, n: int)
    requires 1 <= m < n <= 12
    ensures DaysBeforeMonth(y, m) + DaysInMonth(y, m) <= DaysBeforeMonth(y, n)
    decreases n
  {
    if m < n - 1 {
      MonthsAddUp(y, m, n - 1);
    }
  }

  lemma {:induction false} YearsAddUp(y: int, z: int)
    requires y <= z
    ensures DaysBeforeYear(y) + 365 * (z - y) <= DaysBeforeYear(z)
    decreases z - y
  {
    if y < z {
      YearStep(z - 1);
      YearsAddUp(y, z - 1);
    }
  }

  /** A date falls inside its own year. */
  lemma OrdinalWithinYear(d: Date)
    requires ValidDate(d)
    ensures DaysBeforeYear(d.year) < Ordinal(d) <= DaysBeforeYear(d.year + 1)
  {
    DaysInYear(d.year);
    if d.month < 12 {
      MonthsAddUp(d.year, d.month, 12);
    }
    if d.month > 1 {
      MonthsAddUp(d.year, 1, d.month);
    }
  }

  /** Calendar order is the order of ordinals. */
  lemma OrdinalMonotone(d: Date, e: Date)
    requires ValidDate(d) && ValidDate(e)
    ensures DateBefore(d, e) <==> Ordinal(d) < Ordinal(e)
  {
    OrdinalStrict(d, e);
    OrdinalStrict(e, d);
  }

  lemma OrdinalStrict(d: Date, e: Date)
    requires ValidDate(d) && ValidDate(e)
    ensures DateBefore(d, e) ==> Ordinal(d) < Ordinal(e)
  {
    if d.year < e.year {
      OrdinalWithinYear(d);
      OrdinalWithinYear(e);
      YearsAddUp(d.year + 1, e.year);
    } else if d.year == e.year && d.month < e.month {
      MonthsAddUp(d.year, d.month, e.month);
    }
  }

  /** `date + timedelta(days=n)`. */
  function AddDays(d: Date, n: nat): (r: Date)
    requires ValidDate(d)
    ensures ValidDate(r)
    decreases n
  {
    if n == 0 then d else AddDays(NextDay(d), n - 1)
  }

  lemma {:induction false} AddDaysOrdinal(d: Date, n: nat)
    requires ValidDate(d)
    ensures Ordinal(AddDays(d, n)) == Ordinal(d) + n
    decreases n
  {
    if n > 0 {
      OrdinalCountsDays(d);
      AddDaysOrdinal(NextDay(d), n - 1);
    }
  }

  // ---- the Gregorian cycle ----

  /** Month lengths repeat every 400 years. */
  lemma CycleOfMonths(y: int, m: int, c: int)
    ensures DaysInMonth(y + 400 * c, m) == DaysInMonth(y, m)
  {
    ShiftByFours(y, 100 * c);
    ShiftByHundreds(y, 4 * c);
    ShiftByCycles(y, c);
  }

  lemma ShiftByFours(y: int, q: int)
    ensures (y + 4 * q) % 4 == y % 4
  {
  }

  lemma ShiftByHundreds(y: int, q: int)
    ensures (y + 100 * q) % 100 == y % 100
  {
  }

  lemma ShiftByCycles(y: int, q: int)
    ensures (y + 400 * q) % 400 == y % 400
  {
  }

  // ---- weekdays and ISO weeks ----

  function WeekdayOf(ordinal: int): (w: int)
    ensures 0 <= w <= 6
  {
    (ordinal + 6) % 7
  }

  /** The ordinal of the Thursday of the (Monday-based) week of the day with the given ordinal. */
  function ThursdayOf(ordinal: int): int {
    ordinal - WeekdayOf(ordinal) + 3
  }

  predicate InYear(ordinal: int, y: int) {
    DaysBeforeYear(y) < ordinal <= DaysBeforeYear(y + 1)
  }

  /** `date.weekday()`: Monday is 0. */
  function Weekday(d: Date): (w: int)
    requires ValidDate(d)
    ensures 0 <= w <= 6
  {
    WeekdayOf(Ordinal(d))
  }

  /** The ISO year of `d`: the calendar year that holds the Thursday of its week. */
  function IsoYear(d: Date): (y: int)
    requires ValidDate(d)
    ensures InYear(ThursdayOf(Ordinal(d)), y)
  {
    OrdinalWithinYear(d);
    YearStep(d.year - 1);
    YearStep(d.year + 1);
    var thursday := ThursdayOf(Ordinal(d));
    if thursday <= DaysBeforeYear(d.year) then d.year - 1
    else if thursday > DaysBeforeYear(d.year + 1) then d.year + 1
    else d.year
  }

  /** `date.isocalendar()[1]`: which Thursday of its ISO year the week of `d` holds. */
  function IsoWeek(d: Date): (w: int)
    requires ValidDate(d)
    ensures 1 <= w <= 53
  {
    YearStep(IsoYear(d));
    WeekNumber(ThursdayOf(Ordinal(d)), IsoYear(d))
  }

  /** Which Thursday of its year a day is. */
  function WeekNumber(thursday: int, y: int): int {
    (thursday - DaysBeforeYear(y) - 1) / 7 + 1
  }

  /** The day after a Sunday is a Monday, and the ISO week changes exactly then: to the next number, or to week 1 of
      the next ISO year. */
  lemma WeekTurnsOnMonday(d: Date)
    requires ValidDate(d)
    ensures Weekday(NextDay(d)) == (if Weekday(d) == 6 then 0 else Weekday(d) + 1)
    ensures Weekday(d) != 6 ==> IsoWeek(NextDay(d)) == IsoWeek(d) && IsoYear(NextDay(d)) == IsoYear(d)
    ensures Weekday(d) == 6 ==>
              || (IsoYear(NextDay(d)) == IsoYear(d) && IsoWeek(NextDay(d)) == IsoWeek(d) + 1)
              || (IsoYear(NextDay(d)) == IsoYear(d) + 1 && IsoWeek(NextDay(d)) == 1)
  {
    OrdinalCountsDays(d);
    WeekStep(Ordinal(d));
    if Weekday(d) == 6 {
      NextWeek(ThursdayOf(Ordinal(d)), IsoYear(d));
      var next := ThursdayOf(Ordinal(d)) + 7;
      WeekFrom(NextDay(d), next, if InYear(next, IsoYear(d)) then IsoYear(d) else IsoYear(d) + 1);
    } else {
      WeekFrom(NextDay(d), ThursdayOf(Ordinal(d)), IsoYear(d));
    }
  }

  /** The ISO year and week of a date are those of its Thursday. */
  lemma WeekFrom(d: Date, thursday: int, y: int)
    requires ValidDate(d) && ThursdayOf(Ordinal(d)) == thursday && InYear(thursday, y)
    ensures IsoYear(d) == y && IsoWeek(d) == WeekNumber(thursday, y)
  {
    YearIsUnique(thursday, y, IsoYear(d));
  }

  lemma NextWeek(thursday: int, y: int)
    requires InYear(thursday, y)
    ensures InYear(thursday + 7, y) ==> WeekNumber(thursday + 7, y) == WeekNumber(thursday, y) + 1
    ensures !InYear(thursday + 7, y) ==> InYear(thursday + 7, y + 1) && WeekNumber(thursday + 7, y + 1) == 1
  {
    YearStep(y + 1);
  }

  /** Week 1 is the week with the first Thursday of its ISO year. */
  lemma WeekOneHasFirstThursday(d: Date)
    requires ValidDate(d)
    ensures InYear(ThursdayOf(Ordinal(d)), IsoYear(d))
    ensures IsoWeek(d) == 1 <==> ThursdayOf(Ordinal(d)) - DaysBeforeYear(IsoYear(d)) <= 7
  {
  }

  lemma WeekStep(n: int)
    ensures WeekdayOf(n + 1) == if WeekdayOf(n) == 6 then 0 else WeekdayOf(n) + 1
    ensures ThursdayOf(n + 1) == ThursdayOf(n) + (if WeekdayOf(n) == 6 then 7 else 0)
  {
  }

  lemma YearIsUnique(n: int, y: int, z: int)
    requires InYear(n, y) && InYear(n, z)
    ensures y == z
  {
    if y < z {
      YearsAddUp(y + 1, z);
    } else if z < y {
      YearsAddUp(z + 1, y);
    }
  }

  // ---- civil time ----

  /** Seconds on the civil time line of the zone. */
  function Sec(t: DateTime): int
    requires ValidDate(t.Day())
  {
    Ordinal(t.Day()) * DAY_SECONDS + t.hour * 3600 + t.minute * 60 + t.second
  }

  /** Lexicographic order on the six components. */
  predicate Before(s: DateTime, t: DateTime) {
    || DateBefore(s.Day(), t.Day())
    || (s.Day() == t.Day() && (
           || s.hour < t.hour
           || (s.hour == t.hour && (s.minute < t.minute || (s.minute == t.minute && s.second < t.second)))))
  }

  /** The lexicographic order of civil date-times is their chronological order. */
  lemma BeforeIsChronological(s: DateTime, t: DateTime)
    requires ValidDateTime(s) && ValidDateTime(t)
    ensures Before(s, t) <==> Sec(s) < Sec(t)
    ensures s == t <==> Sec(s) == Sec(t)
  {
    SecStrict(s, t);
    SecStrict(t, s);
  }

  lemma SecStrict(s: DateTime, t: DateTime)
    requires ValidDateTime(s) && ValidDateTime(t)
    ensures Before(s, t) ==> Sec(s) < Sec(t)
  {
    if DateBefore(s.Day(), t.Day()) {
      OrdinalStrict(s.Day(), t.Day());
    }
  }

  /** One second later. */
  function Tick(t: DateTime): (r: DateTime)
    requires ValidDateTime(t) && t != LAST
    ensures ValidDateTime(r) && Sec(r) == Sec(t) + 1
  {
    if t.second < 59 then t.(second := t.second + 1)
    else if t.minute < 59 then t.(minute := t.minute + 1, second := 0)
    else if t.hour < 23 then t.(hour := t.hour + 1, minute := 0, second := 0)
    else
      OrdinalCountsDays(t.Day());
      var d := NextDay(t.Day());
      DateTime(d.year, d.month, d.day, 0, 0, 0)
  }

  /** The first and the last second of the `datetime` range. */
  const FIRST_SECOND := 86_400
  const LAST_SECOND := 315_537_983_999

  lemma StartOfTime()
    ensures Sec(FIRST) == FIRST_SECOND
  {
    assert FIRST.Day() == Date(1, 1, 1);
  }

  lemma EndOfTime()
    ensures Sec(LAST) == LAST_SECOND
  {
    LastSecondOf(LAST, 9999);
  }

  lemma EndOfYear(y: int)
    ensures Ordinal(Date(y, 12, 31)) == DaysBeforeYear(y + 1)
  {
    DaysInYear(y);
  }

  lemma LastSecondOf(t: DateTime, y: int)
    requires y == 9999 && t == DateTime(y, 12, 31, 23, 59, 59)
    ensures Sec(t) == LAST_SECOND
  {
    assert t.Day() == Date(y, 12, 31);
    EndOfYear(y);
  }

  predicate InRange(s: int) {
    FIRST_SECOND <= s <= LAST_SECOND
  }

  /** Counts up to the date-time that a number of seconds names. */
  method ToCivil(s: int) returns (t: DateTime)
    requires InRange(s)
    ensures ValidDateTime(t) && Sec(t) == s
  {
    StartOfTime();
    EndOfTime();
    t := FIRST;
    while Sec(t) < s
      invariant ValidDateTime(t) && Sec(t) <= s
      decreases s - Sec(t)
    {
      t := Tick(t);
    }
  }

  lemma {:induction false} EverySecondIsCivil(s: int) returns (t: DateTime)
    requires InRange(s)
    ensures ValidDateTime(t) && Sec(t) == s
    decreases s
  {
    StartOfTime();
    EndOfTime();
    if s == FIRST_SECOND {
      t := FIRST;
    } else {
      t := EverySecondIsCivil(s - 1);
      t := Tick(t);
    }
  }

  /** The date-time that a number of seconds names: the inverse of `Sec`. */
  ghost function Civil(s: int): (t: DateTime)
    requires InRange(s)
    ensures ValidDateTime(t) && Sec(t) == s
  {
    assert exists t :: ValidDateTime(t) && Sec(t) == s by {
      var t := EverySecondIsCivil(s);
    }
    var t :| ValidDateTime(t) && Sec(t) == s;
    t
  }

  lemma AtLeastFirst(t: DateTime)
    requires ValidDateTime(t)
    ensures FIRST_SECOND <= Sec(t)
  {
    StartOfTime();
    BeforeIsChronological(t, FIRST);
  }

  lemma AtMostLast(t: DateTime)
    requires ValidDateTime(t)
    ensures Sec(t) <= LAST_SECOND && (Sec(t) == LAST_SECOND <==> t == LAST)
  {
    EndOfTime();
    BeforeIsChronological(LAST, t);
  }

  /** Seconds and date-times are in bijection. */
  lemma CivilOfSec(t: DateTime)
    requires ValidDateTime(t)
    ensures InRange(Sec(t)) && Civil(Sec(t)) == t
  {
    AtLeastFirst(t);
    AtMostLast(t);
    BeforeIsChronological(t, Civil(Sec(t)));
  }
}
