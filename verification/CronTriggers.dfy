/**
  The cron trigger (src/schedflow/triggers/cron/__init__.py): the odometer search for the next fire time,
  proved to return what trying every second would.
 */
module CronTriggers {
  import opened Prelude
  import opened Calendar
  import opened CronExpressions
  import opened CronSearch
  import opened Triggers
  import opened CronFields
  import CronText

  const EPOCH := DateTime(1970, 1, 1, 0, 0, 0)

  /** Where the search starts (lines 287-292). */
  function StartInstant(startDate: Option<int>, previous: Option<int>, now: int): int {
    match previous
    case Some(p) => var start := Min(now, p + 1); if start == p then start + 1 else start
    case None => if startDate.Some? then Max(now, startDate.value) else now
  }

  predicate PastEnd(endDate: Option<int>, s: int) {
    endDate.Some? && s * MICROS > endDate.value
  }

  /** The one start from which the wrap-around of the field index fails: the last second of year 9999, when the
      year matches there and some other field does not. */
  ghost predicate IndexError(fs: Fields, endDate: Option<int>, s: int)
    requires |fs| == FIELD_COUNT
  {
    s == LAST_SECOND && FieldMatches(fs, YEAR, LAST) && !Matches(fs, LAST) && !PastEnd(endDate, s)
  }

  /** What the next fire time of a cron trigger is, by the simple search. */
  ghost function CronNext(fs: Fields, startDate: Option<int>, endDate: Option<int>, previous: Option<int>, now: int)
      : Outcome
    requires |fs| == FIELD_COUNT
  {
    var s := CeilSeconds(StartInstant(startDate, previous, now));
    if (previous.Some? && !Instant(previous.value + 1)) || s > LAST_SECOND then Raises
    else SimpleSearch(fs, endDate, s)
  }

  // ---- what the answer means ----

  /** The instants at which a cron trigger fires: whole seconds, not past the end date, that all fields match. */
  ghost function CronFires(fs: Fields, endDate: Option<int>): int -> bool
    requires |fs| == FIELD_COUNT
  {
    t => t % 1_000_000 == 0 && MatchAt(fs, t / 1_000_000) && (endDate.Some? ==> t <= endDate.value)
  }

  /** A cron trigger answers with the least of its fire times at or after the start of the search, and with
      `None` only when there is none. */
  lemma CronAnswersLeast(fs: Fields, startDate: Option<int>, endDate: Option<int>, previous: Option<int>, now: int)
    requires |fs| == FIELD_COUNT
    ensures AnswersLeast(CronFires(fs, endDate), StartInstant(startDate, previous, now),
                         CronNext(fs, startDate, endDate, previous, now))
  {
    var fires, start := CronFires(fs, endDate), StartInstant(startDate, previous, now);
    var s := CeilSeconds(start);
    var r := CronNext(fs, startDate, endDate, previous, now);
    if r != Raises {
      forall t | start <= t && fires(t)
        ensures s <= t / MICROS && MatchAt(fs, t / MICROS)
        ensures Scan(fs, s).Some? && Scan(fs, s).value <= t / MICROS
        ensures r == Fire(Scan(fs, s).value * MICROS) && r.time <= t
      {
        assert Matching(fs)(t / MICROS);
      }
      if r.Fire? {
        var n := Scan(fs, s).value;
        assert Matching(fs)(n);
        assert (n * MICROS) / MICROS == n && (n * MICROS) % MICROS == 0;
      }
    }
  }

  /** When the program raises instead of answering: when the start of the search lies beyond the range of
      `datetime`, and in the one case of `IndexError`. */
  lemma CronRaisesExactly(fs: Fields, startDate: Option<int>, endDate: Option<int>, previous: Option<int>, now: int)
    requires |fs| == FIELD_COUNT && OptionalInstant(previous) && Instant(now) && OptionalInstant(startDate)
    ensures
      var start := StartInstant(startDate, previous, now);
      CronNext(fs, startDate, endDate, previous, now) == Raises <==>
        || LAST_SECOND * MICROS < start
        || (previous.Some? && previous.value == (LAST_SECOND + 1) * MICROS - 1)
        || ( && (LAST_SECOND - 1) * MICROS < start
             && FieldMatches(fs, YEAR, LAST) && !Matches(fs, LAST) && !PastEnd(endDate, LAST_SECOND))
  {
  }

  /** The promise "None when nothing matches any more" does fail there: every minute at second 0, asked at
      9999-12-31 23:59:59. */
  lemma IndexErrorHappens()
    ensures ValidFields(EveryMinute())
    ensures Scan(EveryMinute(), LAST_SECOND) == None
    ensures CronNext(EveryMinute(), None, None, None, LAST_SECOND * MICROS) == Raises
  {
    EveryYear();
    NotTheLastSecond();
    NothingAfterLast(EveryMinute());
  }

  lemma EveryYear()
    ensures ValidFields(EveryMinute()) && FieldMatches(EveryMinute(), YEAR, LAST)
  {
    var fs := EveryMinute();
    assert All(None) in fs[YEAR] && Denotes(All(None), YEAR, 9999, 12, 9999);
  }

  lemma NotTheLastSecond()
    ensures !Matches(EveryMinute(), LAST)
  {
    assert !FieldMatches(EveryMinute(), SECOND, LAST);
  }

  /** The fields `* * * * * * * 0`. */
  function EveryMinute(): (fs: Fields)
    ensures |fs| == FIELD_COUNT
  {
    [[All(None)], [All(None)], [All(None)], [All(None)], [All(None)], [All(None)], [All(None)], [Range(0, Some(0), None)]]
  }

  lemma NothingAfterLast(fs: Fields)
    requires |fs| == FIELD_COUNT && !Matches(fs, LAST)
    ensures Scan(fs, LAST_SECOND) == None
  {
    EndOfTime();
    BeforeIsChronological(Civil(LAST_SECOND), LAST);
    LeastIsUnique(Matching(fs), LAST_SECOND, Scan(fs, LAST_SECOND), None);
  }

  lemma MatchOnTheTimeLine(fs: Fields, t: DateTime)
    requires |fs| == FIELD_COUNT && ValidDateTime(t)
    ensures MatchAt(fs, Sec(t)) <==> Matches(fs, t)
  {
    CivilOfSec(t);
  }

  /** A search that stands at a match has found what the simple search finds. */
  lemma FoundIsScan(fs: Fields, start: DateTime, t: DateTime)
    requires ValidFields(fs) && Searching(fs, start, t, FIELD_COUNT)
    ensures Scan(fs, Sec(start)) == Some(Sec(t))
  {
    BeforeIsChronological(t, start);
    MatchOnTheTimeLine(fs, t);
    forall u | Sec(start) <= u < Sec(t)
      ensures !MatchAt(fs, u)
    {
      if InRange(u) {
        BeforeIsChronological(Civil(u), start);
        BeforeIsChronological(Civil(u), t);
      }
    }
    LeastIsUnique(Matching(fs), Sec(start), Scan(fs, Sec(start)), Some(Sec(t)));
  }

  /** Nothing before `t` matches, so the simple search finds nothing before `t`. */
  lemma ScanIsLater(fs: Fields, start: DateTime, t: DateTime)
    requires |fs| == FIELD_COUNT && ValidDateTime(start) && ValidDateTime(t) && NoneBefore(fs, start, t)
    ensures Scan(fs, Sec(start)).Some? ==> Sec(t) <= Scan(fs, Sec(start)).value
  {
    if Scan(fs, Sec(start)).Some? {
      var n := Scan(fs, Sec(start)).value;
      assert MatchAt(fs, n);
      BeforeIsChronological(Civil(n), start);
      BeforeIsChronological(Civil(n), t);
    }
  }

  lemma ScanIsNone(fs: Fields, start: DateTime)
    requires |fs| == FIELD_COUNT && ValidDateTime(start)
    requires forall u :: ValidDateTime(u) && !Before(u, start) ==> !Matches(fs, u)
    ensures Scan(fs, Sec(start)).None?
  {
    if Scan(fs, Sec(start)).Some? {
      var n := Scan(fs, Sec(start)).value;
      assert MatchAt(fs, n);
      BeforeIsChronological(Civil(n), start);
    }
  }

  /** The last date-time is the only one with every field at its maximum. */
  lemma AllAtMax(t: DateTime)
    requires ValidDateTime(t)
    ensures (forall k :: 0 <= k < FIELD_COUNT && Real(k) ==> AtMax(k, t)) <==> t == LAST
  {
    if forall k :: 0 <= k < FIELD_COUNT && Real(k) ==> AtMax(k, t) {
      assert AtMax(YEAR, t) && AtMax(MONTH, t) && AtMax(DAY, t) && AtMax(HOUR, t) && AtMax(MINUTE, t) && AtMax(SECOND, t);
    }
  }

  lemma CarryIsUnique(t: DateTime, k: int, j: int)
    requires ValidDateTime(t) && -1 <= j <= k < FIELD_COUNT
    requires j >= 0 ==> Real(j) && !AtMax(j, t)
    requires forall i :: j < i <= k && Real(i) ==> AtMax(i, t)
    ensures Carry(t, k) == j
    decreases k
  {
    if j < k {
      CarryIsUnique(t, k - 1, j);
    }
  }

  predicate HasAll(values: map<int, int>) {
    forall j :: 0 <= j < FIELD_COUNT && Real(j) ==> j in values
  }

  /** `datetime(**values)`. */
  function FromValues(values: map<int, int>): DateTime
    requires HasAll(values)
  {
    DateTime(values[YEAR], values[MONTH], values[DAY], values[HOUR], values[MINUTE], values[SECOND])
  }

  // ---- the search loop ----

  /** The search has ended without a match, and not by an index error. */
  ghost predicate SearchFailed(fs: Fields, start: DateTime)
    requires |fs| == FIELD_COUNT
  {
    && ValidDateTime(start)
    && (forall u :: ValidDateTime(u) && !Before(u, start) ==> !Matches(fs, u))
    && (start == LAST ==> !FieldMatches(fs, YEAR, LAST))
  }

  /** The state after an iteration, before the check against the end date. */
  ghost predicate Moved(fs: Fields, start: DateTime, t: DateTime, k: int)
    requires |fs| == FIELD_COUNT
  {
    && ValidDateTime(t)
    && if k >= 0 then Searching(fs, start, t, k) && LastOnlyAtStart(start, t, k) else SearchFailed(fs, start)
  }

  /** The loop invariant: a field index of 0 is the only one that has not yet been checked against the end date. */
  ghost predicate Reached(fs: Fields, endDate: Option<int>, start: DateTime, t: DateTime, k: int)
    requires |fs| == FIELD_COUNT
  {
    Moved(fs, start, t, k) && (k > 0 ==> !PastEnd(endDate, Sec(t)))
  }

  /** The seconds left until the end of year 9999; a search that has failed has none. */
  ghost function Remaining(t: DateTime, k: int): int
    requires ValidDateTime(t)
  {
    if k >= 0 then LAST_SECOND - Sec(t) else -1
  }

  lemma RemainingIsNatural(t: DateTime, k: int)
    requires ValidDateTime(t)
    ensures k >= 0 ==> Remaining(t, k) >= 0
  {
    AtMostLast(t);
  }

  lemma Starting(fs: Fields, endDate: Option<int>, first: DateTime)
    requires ValidFields(fs) && ValidDateTime(first)
    ensures Reached(fs, endDate, first, first, 0)
  {
  }

  lemma AfterMatching(fs: Fields, endDate: Option<int>, start: DateTime, t: DateTime, k: int)
    requires ValidFields(fs) && Reached(fs, endDate, start, t, k) && 0 <= k < FIELD_COUNT
    requires IsLeastFrom(fs[k], k, t.year, t.month, GetValue(k, t), Some(GetValue(k, t)))
    ensures Moved(fs, start, t, k + 1) && Remaining(t, k + 1) == Remaining(t, k) >= 0
  {
    AfterMatch(fs, start, t, k);
    RemainingIsNatural(t, k);
  }

  lemma AfterRaising(fs: Fields, endDate: Option<int>, start: DateTime, t: DateTime, k: int, next: int)
    requires ValidFields(fs) && Reached(fs, endDate, start, t, k) && 0 <= k < FIELD_COUNT && Real(k)
    requires IsLeastFrom(fs[k], k, t.year, t.month, GetValue(k, t), Some(next)) && GetValue(k, t) < next
    ensures var u := SetField(t, k, next);
            Moved(fs, start, u, k + 1) && Remaining(u, k + 1) < Remaining(t, k)
    ensures Remaining(t, k) >= 0
  {
    AfterSetting(fs, start, t, k, next);
    BeforeIsChronological(t, SetField(t, k, next));
    RemainingIsNatural(t, k);
  }

  /** An increment either moves the search forward, or ends it without a match, or is the index error. */
  lemma AfterIncrementing(fs: Fields, endDate: Option<int>, start: DateTime, t: DateTime, k: int, next: Option<int>,
                          target: int, advanced: Option<DateTime>, j: int)
    requires ValidFields(fs) && Reached(fs, endDate, start, t, k) && 0 <= k < FIELD_COUNT
    requires MustIncrement(fs, t, k, next, target)
    requires IncrementsTo(t, target, advanced, j)
    ensures advanced.Some? ==> Moved(fs, start, advanced.value, j) && Remaining(advanced.value, j) < Remaining(t, k)
    ensures advanced.None? ==> IndexError(fs, endDate, Sec(start))
    ensures Remaining(t, k) >= 0
  {
    RemainingIsNatural(t, k);
    if Carry(t, target) >= 0 {
      AfterIncrement(fs, start, t, k, next, target);
      BeforeIsChronological(t, Increment(t, target));
    } else {
      AfterOverflow(fs, start, t, k, next, target);
      if start == LAST {
        AtMostLast(t);
        AtMostLast(t);
      }
    }
  }

  /** One iteration at field `k`, whose next value is `next`: nothing changes, or the field is raised, or the field
      above (for a computed field, the field itself) is incremented. */
  ghost predicate StepsBy(fs: Fields, t: DateTime, k: int, next: Option<int>, advanced: Option<DateTime>, j: int)
    requires |fs| == FIELD_COUNT && ValidDateTime(t) && IsField(k)
  {
    && IsLeastFrom(fs[k], k, t.year, t.month, GetValue(k, t), next)
    && if next.Some? && (next.value == GetValue(k, t) || Real(k)) then
         && advanced == Some(if next.value == GetValue(k, t) then t else SetField(t, k, next.value))
         && j == k + 1
       else
         IncrementsTo(t, if next.None? then k - 1 else k, advanced, j)
  }

  ghost predicate IncrementsTo(t: DateTime, target: int, advanced: Option<DateTime>, j: int)
    requires ValidDateTime(t) && -1 <= target < FIELD_COUNT
  {
    && (if Carry(t, target) >= 0 then advanced == Some(Increment(t, target)) && j == Carry(t, target) else j < 0)
    && (advanced.None? <==> target >= 0 && t == LAST)
    && (advanced.Some? && j < 0 ==> advanced.value == EPOCH)
  }

  ghost predicate StepsTo(fs: Fields, t: DateTime, k: int, advanced: Option<DateTime>, j: int)
    requires |fs| == FIELD_COUNT && ValidDateTime(t) && IsField(k)
  {
    exists next :: StepsBy(fs, t, k, next, advanced, j)
  }

  /** Every iteration keeps the state of the search and makes progress: it moves forward in time, or on to the
      next field, or ends the search. */
  lemma AfterStep(fs: Fields, endDate: Option<int>, start: DateTime, t: DateTime, k: int,
                  advanced: Option<DateTime>, j: int)
    requires ValidFields(fs) && Reached(fs, endDate, start, t, k) && 0 <= k < FIELD_COUNT
    requires StepsTo(fs, t, k, advanced, j)
    ensures Remaining(t, k) >= 0
    ensures advanced.None? ==> SimpleSearch(fs, endDate, Sec(start)) == Raises
    ensures advanced.Some? ==>
              var u := advanced.value;
              && Moved(fs, start, u, j)
              && (Remaining(u, j) < Remaining(t, k) || (u == t && j == k + 1))
              && (!PastEnd(endDate, Sec(u)) ==> Reached(fs, endDate, start, u, j))
  {
    var next :| StepsBy(fs, t, k, next, advanced, j);
    if next.Some? && next.value == GetValue(k, t) {
      AfterMatching(fs, endDate, start, t, k);
    } else if next.Some? && Real(k) {
      AfterRaising(fs, endDate, start, t, k, next.value);
    } else {
      AfterIncrementing(fs, endDate, start, t, k, next, if next.None? then k - 1 else k, advanced, j);
    }
  }

  /** What the loop amounts to, by the simple search. */
  ghost function SimpleSearch(fs: Fields, endDate: Option<int>, s: int): Outcome
    requires |fs| == FIELD_COUNT
  {
    if IndexError(fs, endDate, s) then Raises
    else
      match Scan(fs, s)
      case Some(n) => if PastEnd(endDate, n) then Never else Fire(n * MICROS)
      case None => Never
  }

  lemma StoppedAtEnd(fs: Fields, endDate: Option<int>, start: DateTime, t: DateTime, k: int)
    requires ValidFields(fs) && Moved(fs, start, t, k) && PastEnd(endDate, Sec(t))
    ensures SimpleSearch(fs, endDate, Sec(start)) == Never
  {
    if k >= 0 {
      ScanIsLater(fs, start, t);
      BeforeIsChronological(t, start);
      AtMostLast(t);
    } else {
      ScanIsNone(fs, start);
      AtMostLast(start);
    }
  }

  lemma Finished(fs: Fields, endDate: Option<int>, start: DateTime, t: DateTime, k: int)
    requires ValidFields(fs) && Reached(fs, endDate, start, t, k) && (k < 0 || k == FIELD_COUNT)
    ensures SimpleSearch(fs, endDate, Sec(start)) == if k >= 0 then Fire(Sec(t) * MICROS) else Never
  {
    if k >= 0 {
      FoundIsScan(fs, start, t);
      AtMostLast(start);
      BeforeIsChronological(t, start);
      AtMostLast(t);
    } else {
      ScanIsNone(fs, start);
      AtMostLast(start);
    }
  }

  // ---- the increment loop ----

  /** The field values of the date-time under increment, and which of them are at their maximum. */
  datatype Observation = Observation(current: seq<int>, full: seq<bool>)

  ghost function Observed(t: DateTime): (o: Observation)
    requires ValidDateTime(t)
    ensures |o.current| == |o.full| == FIELD_COUNT
    ensures forall k :: 0 <= k < FIELD_COUNT ==> o.current[k] == GetValue(k, t) && (o.full[k] <==> AtMax(k, t))
  {
    Observation(
      seq(FIELD_COUNT, k requires 0 <= k < FIELD_COUNT => GetValue(k, t)),
      seq(FIELD_COUNT, k requires 0 <= k < FIELD_COUNT => AtMax(k, t)))
  }

  /** The component that belongs in position `j` while field `fieldnum` is the one incremented. */
  ghost function Component(o: Observation, fieldnum: int, j: int): int
    requires |o.current| == FIELD_COUNT && IsField(j)
  {
    if j < fieldnum then o.current[j]
    else if j == fieldnum then o.current[j] + 1
    else GetMin(j)
  }

  /** No field above `fieldnum` could be incremented: those up to `target`, and, once the index has run below
      zero, those at the end of the list as well. */
  ghost predicate Exhausted(o: Observation, target: int, fieldnum: int)
    requires |o.full| == FIELD_COUNT
  {
    && (forall j :: 0 <= j < FIELD_COUNT && fieldnum < j <= target && Real(j) ==> o.full[j])
    && (target >= 0 ==> forall j :: 0 <= j < FIELD_COUNT && fieldnum < j - FIELD_COUNT && Real(j) ==> o.full[j])
  }

  /** The field that the loop has settled on, when `i` is past `fieldnum`. */
  ghost predicate Settled(o: Observation, target: int, fieldnum: int)
    requires |o.full| == FIELD_COUNT
  {
    if fieldnum >= 0 then fieldnum < FIELD_COUNT && Real(fieldnum) && !o.full[fieldnum]
    else target >= 0 ==> exists j :: 0 <= j < FIELD_COUNT && Real(j) && !o.full[j]
  }

  ghost predicate Odometer(o: Observation, target: int, i: int, fieldnum: int, values: map<int, int>) {
    && |o.current| == |o.full| == FIELD_COUNT
    && -1 <= target < FIELD_COUNT && -9 <= fieldnum <= target && -9 <= i <= FIELD_COUNT
    && (i < 0 ==> fieldnum < 0) && (i < fieldnum ==> fieldnum == target) && (target == -1 ==> i > fieldnum)
    && Exhausted(o, target, fieldnum)
    && (i > fieldnum ==> Settled(o, target, fieldnum))
    && (forall j :: 0 <= j < i && Real(j) && !(i <= fieldnum && j >= fieldnum) ==>
          j in values && values[j] == Component(o, fieldnum, j))
  }

  lemma TurnBack(o: Observation, target: int, i: int, values: map<int, int>)
    requires Odometer(o, target, i, i, values) && -8 <= i
    requires var k := if i < 0 then i + FIELD_COUNT else i; Real(k) ==> o.full[k]
    ensures Odometer(o, target, i - 1, i - 1, values)
  {
  }

  lemma PassBy(o: Observation, target: int, i: int, fieldnum: int, values: map<int, int>)
    requires Odometer(o, target, i, fieldnum, values) && -8 <= i < FIELD_COUNT && i != fieldnum
    requires !Real(if i < 0 then i + FIELD_COUNT else i)
    ensures Odometer(o, target, i + 1, fieldnum, values)
  {
  }

  lemma FillIn(o: Observation, target: int, i: int, fieldnum: int, values: map<int, int>, v: int)
    requires Odometer(o, target, i, fieldnum, values) && -8 <= i < FIELD_COUNT && i != fieldnum
    requires var k := if i < 0 then i + FIELD_COUNT else i;
             Real(k) && v == if i < fieldnum then o.current[k] else GetMin(k)
    ensures var k := if i < 0 then i + FIELD_COUNT else i;
            Odometer(o, target, i + 1, fieldnum, values[k := v])
  {
  }

  lemma Raise(o: Observation, target: int, i: int, values: map<int, int>)
    requires Odometer(o, target, i, i, values) && -8 <= i < FIELD_COUNT
    requires var k := if i < 0 then i + FIELD_COUNT else i; Real(k) && !o.full[k]
    ensures var k := if i < 0 then i + FIELD_COUNT else i;
            Odometer(o, target, i + 1, i, values[k := o.current[k] + 1])
  {
  }

  /** The filled-in components make up the incremented date-time, or the epoch when nothing was left to increment. */
  lemma AssembledValues(t: DateTime, target: int, fieldnum: int, values: map<int, int>)
    requires ValidDateTime(t) && Odometer(Observed(t), target, FIELD_COUNT, fieldnum, values)
    ensures HasAll(values)
    ensures Carry(t, target) == Max(fieldnum, -1)
    ensures FromValues(values) == if fieldnum >= 0 then Increment(t, target) else EPOCH
    ensures target >= 0 ==> t != LAST
  {
    CarryIsUnique(t, target, Max(fieldnum, -1));
    AllAtMax(t);
  }

  /** Only the start itself, or a search that has finished, can stand at the very last second. */
  ghost predicate LastOnlyAtStart(start: DateTime, t: DateTime, k: int) {
    t == LAST && k < FIELD_COUNT ==> start == LAST
  }

  // ---- construction ----

  /** The given fields from position `k` on. */
  function GivenFrom(values: map<int, string>, k: int): map<int, string> {
    map j | j in values && k <= j :: values[j]
  }

  lemma AllGiven(values: map<int, string>)
    requires forall k :: k in values ==> IsField(k)
    ensures GivenFrom(values, 0) == values
  {
  }

  /** The loop of `__init__` picks the text of `FieldText` and takes it off the remaining ones. */
  lemma TextPicked(values: map<int, string>, k: int)
    requires IsField(k)
    ensures k in GivenFrom(values, k) <==> k in values
    ensures k in values ==> GivenFrom(values, k)[k] == values[k]
    ensures GivenFrom(values, k + 1) == GivenFrom(values, k) - {k}
    ensures k !in values ==> GivenFrom(values, k + 1) == GivenFrom(values, k)
    ensures FieldTexts(values)[k] ==
              if k in values then values[k]
              else if values != map[] && GivenFrom(values, k) == map[] then DEFAULT_VALUES[k]
              else "*"
  {
    if k !in values && values != map[] && GivenFrom(values, k) != map[] {
      var j :| j in GivenFrom(values, k);
      assert j in values && !(j < k);
    }
    if k !in values && GivenFrom(values, k) == map[] {
      forall j | j in values
        ensures j < k
      {
        assert j !in GivenFrom(values, k);
      }
    }
  }

  const DEFAULT_VALUES: seq<string> := ["*", "1", "1", "*", "*", "0", "0", "0"]

  /** The text of field `k`: as given; or its default, when it is less significant than every field given; or `*`. */
  function FieldText(values: map<int, string>, k: int): string
    requires IsField(k)
  {
    if k in values then values[k]
    else if values != map[] && (forall j :: j in values ==> j < k) then DEFAULT_VALUES[k]
    else "*"
  }

  /** The texts of all eight fields. */
  ghost function FieldTexts(values: map<int, string>): (texts: seq<string>)
    ensures |texts| == FIELD_COUNT
  {
    seq(FIELD_COUNT, k requires 0 <= k < FIELD_COUNT => FieldText(values, k))
  }

  predicate AllCompile(texts: seq<string>) {
    forall k :: 0 <= k < |texts| && IsField(k) ==> Compiles(k, texts[k])
  }

  /** `field` is what the text of field `k` compiles to. */
  ghost predicate FieldOf(values: map<int, string>, k: int, field: CronField)
    requires IsField(k)
    reads field
  {
    Compiles(k, FieldTexts(values)[k]) && BuiltFrom(field, k, FieldTexts(values)[k], k !in values)
  }

  lemma AllFieldsCompile(values: map<int, string>, fields: seq<CronField>)
    requires |fields| == FIELD_COUNT && forall i :: 0 <= i < FIELD_COUNT ==> FieldOf(values, i, fields[i])
    ensures AllCompile(FieldTexts(values))
    ensures forall i :: 0 <= i < FIELD_COUNT ==> fields[i].index == i && fields[i].Valid()
  {
    forall i | 0 <= i < FIELD_COUNT
      ensures Compiles(i, FieldTexts(values)[i]) && fields[i].index == i && fields[i].Valid()
    {
      assert FieldOf(values, i, fields[i]);
    }
  }

  lemma OneDoesNotCompile(values: map<int, string>, k: int)
    requires IsField(k) && !Compiles(k, FieldTexts(values)[k])
    ensures !AllCompile(FieldTexts(values))
  {
  }

  /** The variables of the loop of `__init__` on reaching field `k`. */
  predicate PickingAt(values: map<int, string>, k: int, remaining: map<int, string>, assignDefaults: bool) {
    remaining == GivenFrom(values, k) && (assignDefaults <==> values != map[] && remaining == map[])
  }

  /** One pass of the loop of `__init__`: the text of field `k` and whether it is a default. */
  method PickText(ghost values: map<int, string>, k: int, remaining: map<int, string>, assignDefaults: bool)
    returns (exprs: string, isDefault: bool, rest: map<int, string>, assign: bool)
    requires IsField(k) && PickingAt(values, k, remaining, assignDefaults)
    ensures exprs == FieldTexts(values)[k] && (isDefault <==> k !in values)
    ensures PickingAt(values, k + 1, rest, assign)
  {
    TextPicked(values, k);
    rest, assign := remaining, assignDefaults;
    if k in remaining {
      exprs, isDefault := remaining[k], false;
      rest := remaining - {k};
      assign := rest == map[];
    } else if assignDefaults {
      exprs, isDefault := DEFAULT_VALUES[k], true;
    } else {
      exprs, isDefault := "*", true;
    }
  }

  /** One pass of the loop: the field, unless its text does not compile. */
  method BuildField(ghost values: map<int, string>, k: int, remaining: map<int, string>, assignDefaults: bool)
    returns (field: Option<CronField>, rest: map<int, string>, assign: bool)
    requires IsField(k) && PickingAt(values, k, remaining, assignDefaults)
    ensures field.None? ==> !AllCompile(FieldTexts(values))
    ensures field.Some? ==> fresh(field.value) && FieldOf(values, k, field.value)
    ensures PickingAt(values, k + 1, rest, assign)
  {
    var exprs, isDefault;
    exprs, isDefault, rest, assign := PickText(values, k, remaining, assignDefaults);
    field := MakeField(k, exprs, isDefault);
    if field.None? {
      OneDoesNotCompile(values, k);
    }
  }

  class CronTrigger {
    const fields: seq<CronField>
    const startDate: Option<int>
    const endDate: Option<int>

    constructor (fields: seq<CronField>, startDate: Option<int>, endDate: Option<int>)
      requires |fields| == FIELD_COUNT && OptionalInstant(startDate) && OptionalInstant(endDate)
      requires forall k :: 0 <= k < FIELD_COUNT ==> fields[k].index == k && fields[k].Valid()
      ensures Valid() && this.fields == fields && this.startDate == startDate && this.endDate == endDate
    {
      this.fields := fields;
      this.startDate := startDate;
      this.endDate := endDate;
    }

    /** `__init__`: compiles the eight fields, filling in those that were not given. No result is the ValueError
        of a field that does not compile. */
    static method Create(values: map<int, string>, startDate: Option<int>, endDate: Option<int>)
      returns (r: Option<CronTrigger>)
      requires OptionalInstant(startDate) && OptionalInstant(endDate)
      requires forall k :: k in values ==> IsField(k)
      ensures r.Some? <==> AllCompile(FieldTexts(values))
      ensures r.Some? ==>
                && fresh(r.value) && r.value.Valid() && r.value.startDate == startDate && r.value.endDate == endDate
                && forall k :: 0 <= k < FIELD_COUNT ==> FieldOf(values, k, r.value.fields[k])
    {
      var fields: seq<CronField> := [];
      var remaining := values;
      var assignDefaults := false;
      AllGiven(values);
      for k := 0 to FIELD_COUNT
        invariant |fields| == k && PickingAt(values, k, remaining, assignDefaults)
        invariant forall i :: 0 <= i < k ==> FieldOf(values, i, fields[i])
      {
        var field;
        field, remaining, assignDefaults := BuildField(values, k, remaining, assignDefaults);
        if field.None? {
          return None;
        }
        fields := fields + [field.value];
      }
      AllFieldsCompile(values, fields);
      var trigger := new CronTrigger(fields, startDate, endDate);
      r := Some(trigger);
    }

    ghost predicate Valid()
      reads fields
    {
      && |fields| == FIELD_COUNT
      && (forall k :: 0 <= k < FIELD_COUNT ==> fields[k].index == k && fields[k].Valid())
      && OptionalInstant(startDate) && OptionalInstant(endDate)
    }

    ghost function Fields(): (fs: Fields)
      requires Valid()
      reads fields
      ensures ValidFields(fs)
    {
      seq(FIELD_COUNT, k requires 0 <= k < FIELD_COUNT reads fields => fields[k].expressions)
    }

    /** `_increment_field_value`. The field index may run below zero, where Python counts from the end of the
        list; running past its beginning is an IndexError, modelled as no result. */
    method IncrementFieldValue(dateval: DateTime, target: int) returns (r: Option<DateTime>, fieldnum: int)
      requires Valid() && ValidDateTime(dateval) && -1 <= target < FIELD_COUNT
      ensures IncrementsTo(dateval, target, r, fieldnum)
    {
      fieldnum := target;
      var values: map<int, int> := map[];
      var i := 0;
      ghost var o := Observed(dateval);
      while i < |fields|
        invariant Odometer(o, target, i, fieldnum, values)
        decreases fieldnum + 9, FIELD_COUNT - i
      {
        if i < -FIELD_COUNT {
          AllAtMax(dateval);
          return None, fieldnum;
        }
        var field := fields[if i < 0 then i + FIELD_COUNT else i];
        ghost var k := field.index;
        assert o.current[k] == field.GetFieldValue(dateval);
        assert o.full[k] <==> field.GetFieldValue(dateval) == field.GetFieldMax(dateval);
        if !field.IsReal() {
          if i == fieldnum {
            TurnBack(o, target, i, values);
            fieldnum := fieldnum - 1;
            i := i - 1;
          } else {
            PassBy(o, target, i, fieldnum, values);
            i := i + 1;
          }
        } else if i < fieldnum {
          FillIn(o, target, i, fieldnum, values, field.GetFieldValue(dateval));
          values := values[field.index := field.GetFieldValue(dateval)];
          i := i + 1;
        } else if i > fieldnum {
          FillIn(o, target, i, fieldnum, values, field.GetFieldMin());
          values := values[field.index := field.GetFieldMin()];
          i := i + 1;
        } else {
          var value := field.GetFieldValue(dateval);
          var maxval := field.GetFieldMax(dateval);
          if value == maxval {
            TurnBack(o, target, i, values);
            fieldnum := fieldnum - 1;
            i := i - 1;
          } else {
            Raise(o, target, i, values);
            values := values[field.index := value + 1];
            i := i + 1;
          }
        }
      }
      AssembledValues(dateval, target, fieldnum, values);
      r := Some(FromValues(values));
    }

    /** `_set_field_value`: keeps the fields above `fieldnum` and resets those below it. */
    method SetFieldValue(dateval: DateTime, fieldnum: int, newValue: int) returns (r: DateTime)
      requires Valid() && ValidDateTime(dateval) && IsField(fieldnum) && Real(fieldnum)
      ensures r == SetField(dateval, fieldnum, newValue)
    {
      var values: map<int, int> := map[];
      for i := 0 to |fields|
        invariant forall j :: 0 <= j < i && Real(j) ==>
                    j in values && values[j] ==
                    if j < fieldnum then GetValue(j, dateval) else if j > fieldnum then GetMin(j) else newValue
      {
        var field := fields[i];
        if field.IsReal() {
          if i < fieldnum {
            values := values[field.index := field.GetFieldValue(dateval)];
          } else if i > fieldnum {
            values := values[field.index := field.GetFieldMin()];
          } else {
            values := values[field.index := newValue];
          }
        }
      }
      r := FromValues(values);
    }

    /** One pass of the search loop of `get_next_fire_time` (lines 297-317). No result is the index error. */
    method Iterate(nextDate: DateTime, fieldnum: int) returns (advanced: Option<DateTime>, j: int)
      requires Valid() && ValidDateTime(nextDate) && IsField(fieldnum)
      ensures StepsTo(Fields(), nextDate, fieldnum, advanced, j)
    {
      var field := fields[fieldnum];
      var currValue := field.GetFieldValue(nextDate);
      var nextValue := field.GetNextValue(nextDate);
      ghost var fs := Fields();
      assert IsLeastFrom(fs[fieldnum], fieldnum, nextDate.year, nextDate.month, currValue, nextValue);
      if nextValue.None? {
        advanced, j := IncrementFieldValue(nextDate, fieldnum - 1);
      } else if nextValue.value > currValue {
        if field.IsReal() {
          var raised := SetFieldValue(nextDate, fieldnum, nextValue.value);
          advanced, j := Some(raised), fieldnum + 1;
        } else {
          advanced, j := IncrementFieldValue(nextDate, fieldnum);
        }
      } else {
        advanced, j := Some(nextDate), fieldnum + 1;
      }
      assert StepsBy(fs, nextDate, fieldnum, nextValue, advanced, j);
    }

    /** The search loop (lines 294-325), from the rounded-up start. */
    method Search(first: DateTime) returns (r: Outcome)
      requires Valid() && ValidDateTime(first)
      ensures r == SimpleSearch(Fields(), endDate, Sec(first))
    {
      var nextDate := first;
      var fieldnum := 0;
      ghost var fs := Fields();
      Starting(fs, endDate, first);
      while 0 <= fieldnum < |fields|
        invariant Reached(fs, endDate, first, nextDate, fieldnum)
        decreases Remaining(nextDate, fieldnum), FIELD_COUNT - fieldnum
      {
        var advanced, j := Iterate(nextDate, fieldnum);
        AfterStep(fs, endDate, first, nextDate, fieldnum, advanced, j);
        if advanced.None? {
          return Raises;
        }
        nextDate, fieldnum := advanced.value, j;
        if PastEnd(endDate, Sec(nextDate)) {
          StoppedAtEnd(fs, endDate, first, nextDate, fieldnum);
          return Never;
        }
      }
      Finished(fs, endDate, first, nextDate, fieldnum);
      if fieldnum >= 0 {
        return Fire(Sec(nextDate) * MICROS);
      }
      return Never;
    }

    /** `get_next_fire_time`: the fast search returns what the simple search defines. */
    method GetNextFireTime(previous: Option<int>, now: int) returns (r: Outcome)
      requires Valid() && OptionalInstant(previous) && Instant(now)
      ensures r == CronNext(Fields(), startDate, endDate, previous, now)
    {
      var start: int;
      match previous {
        case Some(p) =>
          if !Instant(p + 1) {
            return Raises;
          }
          start := Min(now, p + 1);
          if start == p {
            start := start + 1;
          }
        case None =>
          start := if startDate.Some? then Max(now, startDate.value) else now;
      }
      if CeilSeconds(start) > LAST_SECOND {
        return Raises;
      }
      var first := ToCivil(CeilSeconds(start));
      r := Search(first);
    }
  }
}
