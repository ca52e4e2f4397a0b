/** The calendar anchored at known dates, and the lengths of the months (section 3.2.1 of ISO 8601:2004). */
module CalendarFacts {
  import opened Calendar

  lemma MonthLengths(y: int, m: int)
    requires 1 <= m <= 12
    ensures var february := if y % 400 == 0 || (y % 4 == 0 && y % 100 != 0) then 29 else 28;
            DaysInMonth(y, m) == [31, february, 31, 30, 31, 30, 31, 31, 30, 31, 30, 31][m - 1]
  {
  }

  /** Every date from 0001-01-01 on is reached from it day by day. */
  lemma ReachedByDays(d: Date)
    requires ValidDate(d) && d.year >= 1
    ensures Ordinal(d) >= 1 && d == AddDays(Date(1, 1, 1), Ordinal(d) - 1)
  {
    OrdinalWithinYear(d);
    YearsAddUp(1, d.year);
    var e := AddDays(Date(1, 1, 1), Ordinal(d) - 1);
    AddDaysOrdinal(Date(1, 1, 1), Ordinal(d) - 1);
    OrdinalMonotone(d, e);
    OrdinalMonotone(e, d);
  }

  /** 0001-01-01 is day 1. */
  lemma FirstDay()
    ensures Ordinal(Date(1, 1, 1)) == 1
  {
  }

  lemma WeekdayOfDay(n: nat)
    ensures WeekdayOf(n + 1) == n % 7
  {
  }

  /** Day 1 is a Monday, and the weekdays run on from it. */
  lemma WeekdaysRunFromMonday(first: Date, n: nat)
    requires ValidDate(first) && Ordinal(first) == 1
    ensures Weekday(AddDays(first, n)) == n % 7
  {
    AddDaysOrdinal(first, n);
    WeekdayOfDay(n);
  }

  lemma DaysTo2024()
    ensures Ordinal(Date(2024, 1, 1)) == 738_886
  {
  }

  /** 1 January 2024 is a Monday, in week 1 of 2024. */
  lemma NewYear2024()
    ensures Weekday(Date(2024, 1, 1)) == 0
    ensures IsoYear(Date(2024, 1, 1)) == 2024 && IsoWeek(Date(2024, 1, 1)) == 1
  {
    DaysTo2024();
    WeekFrom(Date(2024, 1, 1), 738_889, 2024);
  }

  lemma DaysTo3January2021()
    ensures Ordinal(Date(2021, 1, 3)) == 737_793
  {
  }

  /** 3 January 2021 is a Sunday, in week 53 of 2020. */
  lemma SundayInWeek53()
    ensures Weekday(Date(2021, 1, 3)) == 6
    ensures IsoYear(Date(2021, 1, 3)) == 2020 && IsoWeek(Date(2021, 1, 3)) == 53
  {
    DaysTo3January2021();
    WeekFrom(Date(2021, 1, 3), 737_790, 2020);
  }

  /** Seconds count from midnight before 0001-01-01. */
  lemma SecondsOf(t: DateTime, n: nat)
    requires ValidDateTime(t) && t.Day() == AddDays(Date(1, 1, 1), n)
    ensures Sec(t) == (n + 1) * 86_400 + t.hour * 3_600 + t.minute * 60 + t.second
  {
    AddDaysOrdinal(Date(1, 1, 1), n);
  }
}
