/** What cron fields mean, in numbers and names: the ranges of the fields, steps, names, nth weekdays, lists, defaults. */
module CronMeaning {
  import opened Prelude
  import opened Calendar
  import opened CronExpressions
  import opened CronSearch
  import opened CronText
  import opened CronRoundTrip
  import opened CronTriggers

  // ---- fields ----

  /** A date-time matches when its eight values do, each in its own field. */
  lemma MatchesExactly(fs: Fields, t: DateTime)
    requires |fs| == 8 && ValidDateTime(t)
    ensures Matches(fs, t) <==>
              var y, m := t.year, t.month;
              && FieldDenotes(fs[0], 0, y, m, t.year) && FieldDenotes(fs[1], 1, y, m, t.month)
              && FieldDenotes(fs[2], 2, y, m, t.day) && FieldDenotes(fs[3], 3, y, m, IsoWeek(t.Day()))
              && FieldDenotes(fs[4], 4, y, m, Weekday(t.Day())) && FieldDenotes(fs[5], 5, y, m, t.hour)
              && FieldDenotes(fs[6], 6, y, m, t.minute) && FieldDenotes(fs[7], 7, y, m, t.second)
  {
    MatchesFields(fs, t);
  }

  lemma MatchesFields(fs: Fields, t: DateTime)
    requires |fs| == 8 && ValidDateTime(t)
    ensures Matches(fs, t) <==>
              && FieldMatches(fs, 0, t) && FieldMatches(fs, 1, t) && FieldMatches(fs, 2, t) && FieldMatches(fs, 3, t)
              && FieldMatches(fs, 4, t) && FieldMatches(fs, 5, t) && FieldMatches(fs, 6, t) && FieldMatches(fs, 7, t)
  {
  }

  /** `*` stands for every value of the field: years from 1970, months, days of the month, weeks, weekdays from Monday,
      hours, minutes and seconds. With a step, for every so-manieth from the first. */
  lemma StarMeans(step: Option<nat>, k: int, y: int, m: int, v: int)
    requires 0 <= k < 8 && 1 <= m <= 12
    ensures
      var first := [1970, 1, 1, 1, 0, 0, 0, 0][k];
      var last := [9999, 12, DaysInMonth(y, m), 53, 6, 23, 59, 59][k];
      Denotes(All(step), k, y, m, v) <==>
        first <= v <= last && (step.Some? && step.value > 0 ==> (v - first) % step.value == 0)
  {
  }

  /** A range stands for its values that the field has, with a step every so-manieth from the first. */
  lemma RangeMeans(first: nat, last: Option<nat>, step: Option<nat>, k: int, y: int, m: int, v: int)
    requires 0 <= k < 8 && 1 <= m <= 12 && Compiled(k, Range(first, last, step))
    ensures
      var most := [9999, 12, DaysInMonth(y, m), 53, 6, 23, 59, 59][k];
      Denotes(Range(first, last, step), k, y, m, v) <==>
        first <= v <= most && (last.Some? ==> v <= last.value) && (step.Some? ==> (v - first) % step.value == 0)
  {
  }

  /** Ranges of names stand for the numbers from the first to the last. */
  lemma NamesMean(first: nat, last: nat, k: int, y: int, m: int, v: int)
    requires 1 <= m <= 12
    ensures Compiled(1, MonthRange(first, Some(last))) ==>
              (Denotes(MonthRange(first, Some(last)), 1, y, m, v) <==> first <= v <= last)
    ensures Compiled(4, WeekdayRange(first, Some(last))) ==>
              (Denotes(WeekdayRange(first, Some(last)), 4, y, m, v) <==> first <= v <= last)
  {
  }

  /** The nth weekday of a month lies in its nth seven days; the last one in its last seven. */
  lemma PositionMeans(option: nat, weekday: nat, y: int, m: int, v: int)
    requires 1 <= m <= 12 && option <= 5 && weekday <= 6
    ensures Denotes(WeekdayPosition(option, weekday), 2, y, m, v) <==>
              && 1 <= v <= DaysInMonth(y, m) && Weekday(Date(y, m, v)) == weekday
              && (option < 5 ==> 7 * option < v <= 7 * option + 7)
              && (option == 5 ==> DaysInMonth(y, m) - 7 < v)
  {
    WeekdayPositionIsExact(y, m, option, weekday, v);
    if 1 <= v <= DaysInMonth(y, m) {
      CountIsByWeeks(y, m, weekday, v);
      InItsWeek(v, FirstHitDay(Weekday(Date(y, m, 1)), weekday), option, DaysInMonth(y, m));
    } 
  }

  lemma InItsWeek(v: int, hit: int, option: nat, days: int)
    requires 1 <= v <= days && 1 <= hit <= 7 && option <= 5 && 28 <= days
    ensures option < 5 ==> (v == hit + option * 7 <==> v >= hit && (v - hit) % 7 == 0 && 7 * option < v <= 7 * option + 7)
    ensures v == hit + (days - hit) / 7 * 7 <==> v >= hit && (v - hit) % 7 == 0 && days - 7 < v
  {
  }

  lemma LastMeans(y: int, m: int, v: int)
    requires 1 <= m <= 12
    ensures Denotes(LastDayOfMonth, 2, y, m, v) <==> ValidDate(Date(y, m, v)) && !ValidDate(Date(y, m, v + 1))
  {
  }
}
