/** Cron triggers as members of the combining triggers. */
module CronCombination {
  import opened Prelude
  import opened Calendar
  import opened CronExpressions
  import opened CronSearch
  import opened CronTriggers
  import opened Triggers
  import opened CombiningTriggers
  import opened Iteration

  datatype CronSpec = CronSpec(fields: Fields, startDate: Option<int>, endDate: Option<int>)

  /** `trigger` answers as the cron trigger `c` does. */
  ghost predicate IsCron(trigger: Trigger, c: CronSpec) {
    && ValidFields(c.fields)
    && forall p, n :: trigger(p, n) == CronNext(c.fields, c.startDate, c.endDate, p, n)
  }

  ghost predicate AllCron(triggers: seq<Trigger>, cs: seq<CronSpec>) {
    && |triggers| == |cs|
    && (forall i :: 0 <= i < |cs| ==> ValidFields(cs[i].fields))
    && (forall i :: 0 <= i < |cs| ==> IsCron(triggers[i], cs[i]))
  }

  /** The fire times of a cron trigger that has not fired yet: those from its start date on. */
  ghost function FiresFromStart(c: CronSpec): int -> bool
    requires ValidFields(c.fields)
  {
    t => CronFires(c.fields, c.endDate)(t) && (c.startDate.Some? ==> c.startDate.value <= t)
  }

  ghost function FireSets(cs: seq<CronSpec>): (fires: seq<int -> bool>)
    requires forall i :: 0 <= i < |cs| ==> ValidFields(cs[i].fields)
    ensures |fires| == |cs| && forall i :: 0 <= i < |cs| ==> fires[i] == FiresFromStart(cs[i])
  {
    seq(|cs|, i requires 0 <= i < |cs| => FiresFromStart(cs[i]))
  }

  lemma FirstAnswer(trigger: Trigger, c: CronSpec, now: int)
    requires IsCron(trigger, c)
    ensures AnswersLeast(FiresFromStart(c), now, trigger(None, now))
  {
    CronAnswersLeast(c.fields, c.startDate, c.endDate, None, now);
    assert trigger(None, now) == CronNext(c.fields, c.startDate, c.endDate, None, now);
  }

  /** Jitter-free cron triggers meet what `AndNext` asks of its members, on the first call. */
  lemma CronMembers(triggers: seq<Trigger>, cs: seq<CronSpec>)
    requires AllCron(triggers, cs)
    ensures AnswerWithLeast(triggers, None, FireSets(cs))
    ensures forall i :: 0 <= i < |cs| ==> BoundedBy(FireSets(cs)[i], LAST_SECOND * MICROS)
  {
    forall i | 0 <= i < |cs|
      ensures BoundedBy(FireSets(cs)[i], LAST_SECOND * MICROS)
    {
      forall t | FiresFromStart(cs[i])(t)
        ensures t <= LAST_SECOND * MICROS
      {
        assert CronFires(cs[i].fields, cs[i].endDate)(t);
      }
    }
    forall i, n | 0 <= i < |triggers|
      ensures AnswersLeast(FireSets(cs)[i], n, triggers[i](None, n))
    {
      FirstAnswer(triggers[i], cs[i], n);
    }
  }

  /** An and-trigger over cron triggers first fires at their least common time. */
  method FirstCommonFireTime(triggers: seq<Trigger>, ghost cs: seq<CronSpec>, now: int) returns (r: Outcome)
    requires AllCron(triggers, cs)
    ensures AnswersLeast(Common(FireSets(cs)), now, r)
    ensures r == Raises <==> triggers == [] || RaisesInAPass(triggers, None, now)
  {
    CronMembers(triggers, cs);
    assert |cs| > 0 ==> BoundedBy(FireSets(cs)[0], LAST_SECOND * MICROS);
    r := AndNext(triggers, None, now, FireSets(cs), LAST_SECOND * MICROS);
  }

  // ---- after the first fire time ----

  /** Once a fire time is given, cron answers do not depend on `now` any more, as long as it is not earlier. */
  lemma NowDoesNotMatter(triggers: seq<Trigger>, cs: seq<CronSpec>, previous: int, now: int, other: int)
    requires AllCron(triggers, cs) && previous <= now && previous <= other
    ensures Ask(triggers, Some(previous), other) == Ask(triggers, Some(previous), now)
  {
    forall i | 0 <= i < |triggers|
      ensures triggers[i](Some(previous), other) == triggers[i](Some(previous), now)
    {
      var c := cs[i];
      assert IsCron(triggers[i], c);
      SameStart(c, previous, now, other);
    }
  }

  lemma SameStart(c: CronSpec, previous: int, now: int, other: int)
    requires ValidFields(c.fields) && previous <= now && previous <= other
    ensures CronNext(c.fields, c.startDate, c.endDate, Some(previous), other)
         == CronNext(c.fields, c.startDate, c.endDate, Some(previous), now)
  {
    assert StartInstant(c.startDate, Some(previous), other) == StartInstant(c.startDate, Some(previous), now);
  }

  // From a `now` before the previous fire time the passes first climb up to it.

  /** An undecided pass before the previous fire time raises `now`; one after it stays there. */
  lemma PassClimbs(triggers: seq<Trigger>, cs: seq<CronSpec>, previous: int, n: int)
    requires AllCron(triggers, cs) && !Decided(Ask(triggers, Some(previous), n))
    ensures var m := Pass(triggers, Some(previous), n);
            if n < previous then n < m else previous < m
  {
    if previous <= n {
      AnswersAreLater(triggers, cs, previous, n);
    } else {
      AnswersAreNotEarlier(triggers, cs, previous, n);
    }
  }

  lemma AnswersAreNotEarlier(triggers: seq<Trigger>, cs: seq<CronSpec>, previous: int, n: int)
    requires AllCron(triggers, cs) && |cs| > 0
    requires n < previous && !Decided(Ask(triggers, Some(previous), n))
    ensures forall i :: 0 <= i < |triggers| ==> triggers[i](Some(previous), n).Fire?
    ensures n < Greatest(Times(Ask(triggers, Some(previous), n)))
  {
    var answers := Ask(triggers, Some(previous), n);
    forall i | 0 <= i < |triggers|
      ensures answers[i].Fire? && n <= answers[i].time
    {
      assert answers[i] in answers;
      var c := cs[i];
      assert IsCron(triggers[i], c);
      CronAnswersLeast(c.fields, c.startDate, c.endDate, Some(previous), n);
    }
    var times := Times(answers);
    var i, j :| 0 <= i < j < |answers| && answers[i] != answers[j];
    assert times[i] <= Greatest(times) && times[j] <= Greatest(times);
  }

  lemma PassesClimb(triggers: seq<Trigger>, cs: seq<CronSpec>, previous: int)
    requires AllCron(triggers, cs)
    ensures Climbing(PassFrom(triggers, Some(previous)), DecidedFrom(triggers, Some(previous)), previous)
  {
    var step, settled := PassFrom(triggers, Some(previous)), DecidedFrom(triggers, Some(previous));
    forall n | !settled(n)
      ensures if n < previous then n < step(n) else previous < step(n)
    {
      PassClimbs(triggers, cs, previous, n);
    }
    forall n | previous <= n
      ensures settled(n) <==> settled(step(n))
    {
      PassKeepsAnswers(triggers, cs, previous, n);
    }
  }

  /** After how many passes the loop has decided, if it ever does. */
  function Enough(previous: int, now: int): nat {
    Max(0, previous - now)
  }

  /** So, asked for the time after a fire time, the loop over cron triggers decides within a known number of passes,
      or never: at once, unless `now` lies before that fire time. */
  lemma AndOverCronDecidesSoonOrNever(triggers: seq<Trigger>, cs: seq<CronSpec>, previous: int, now: int)
    requires AllCron(triggers, cs)
    ensures (exists k :: DecidedAfter(triggers, Some(previous), now, k))
            <==> DecidedAfter(triggers, Some(previous), now, Enough(previous, now))
  {
    PassesClimb(triggers, cs, previous);
    var step, settled := PassFrom(triggers, Some(previous)), DecidedFrom(triggers, Some(previous));
    SoonOrNever(step, settled, previous, now);
    if k: nat :| DecidedAfter(triggers, Some(previous), now, k) {
      assert settled(After(step, now, k));
    }
  }

  /** From a `now` that is not before the fire time, one pass tells. */
  lemma AndOverCronDecidesAtOnceOrNever(triggers: seq<Trigger>, cs: seq<CronSpec>, previous: int, now: int)
    requires AllCron(triggers, cs) && previous <= now
    ensures (exists k :: DecidedAfter(triggers, Some(previous), now, k)) <==> Decided(Ask(triggers, Some(previous), now))
  {
    AndOverCronDecidesSoonOrNever(triggers, cs, previous, now);
  }

  lemma PassKeepsAnswers(triggers: seq<Trigger>, cs: seq<CronSpec>, previous: int, n: int)
    requires AllCron(triggers, cs) && previous <= n
    ensures var m := Pass(triggers, Some(previous), n);
            previous <= m && Ask(triggers, Some(previous), m) == Ask(triggers, Some(previous), n)
  {
    if !Decided(Ask(triggers, Some(previous), n)) {
      AnswersAreLater(triggers, cs, previous, n);
    }
    NowDoesNotMatter(triggers, cs, previous, n, Pass(triggers, Some(previous), n));
  }

  lemma AnswersAreLater(triggers: seq<Trigger>, cs: seq<CronSpec>, previous: int, n: int)
    requires AllCron(triggers, cs) && |cs| > 0
    requires previous <= n && !Decided(Ask(triggers, Some(previous), n))
    ensures forall i :: 0 <= i < |triggers| ==> triggers[i](Some(previous), n).Fire?
    ensures previous < Greatest(Times(Ask(triggers, Some(previous), n)))
  {
    var answers := Ask(triggers, Some(previous), n);
    forall i | 0 <= i < |triggers|
      ensures answers[i].Fire? && previous < answers[i].time
    {
      assert answers[i] in answers;
      var c := cs[i];
      assert IsCron(triggers[i], c);
      CronAnswersLeast(c.fields, c.startDate, c.endDate, Some(previous), n);
    }
    assert Times(answers)[0] <= Greatest(Times(answers));
  }

  // ---- the answer, when there is one ----

  /** The fire times of the members. */
  ghost function MatchSets(cs: seq<CronSpec>): (fires: seq<int -> bool>)
    requires forall i :: 0 <= i < |cs| ==> |cs[i].fields| == FIELD_COUNT
    ensures |fires| == |cs| && forall i :: 0 <= i < |cs| ==> fires[i] == CronFires(cs[i].fields, cs[i].endDate)
  {
    seq(|cs|, i requires 0 <= i < |cs| => CronFires(cs[i].fields, cs[i].endDate))
  }

  /** Where the members start looking. */
  function SearchFrom(previous: int, n: int): int {
    if n < previous then n else previous + 1
  }

  lemma MemberAnswersLeast(triggers: seq<Trigger>, cs: seq<CronSpec>, previous: int, n: int, i: nat)
    requires AllCron(triggers, cs) && i < |cs|
    ensures AnswersLeast(MatchSets(cs)[i], SearchFrom(previous, n), triggers[i](Some(previous), n))
  {
    var c := cs[i];
    assert IsCron(triggers[i], c);
    CronAnswersLeast(c.fields, c.startDate, c.endDate, Some(previous), n);
    assert StartInstant(c.startDate, Some(previous), n) == SearchFrom(previous, n);
  }

  /** A deciding pass answers with the least common time from where its members start looking. */
  lemma DecidedAnswerIsLeast(triggers: seq<Trigger>, cs: seq<CronSpec>, previous: int, n: int)
    requires AllCron(triggers, cs) && |cs| > 0 && Decided(Ask(triggers, Some(previous), n))
    ensures AnswersLeast(Common(MatchSets(cs)), SearchFrom(previous, n), AndAnswer(Ask(triggers, Some(previous), n)))
  {
    var answers, fires := Ask(triggers, Some(previous), n), MatchSets(cs);
    forall i | 0 <= i < |cs|
      ensures AnswersLeast(fires[i], SearchFrom(previous, n), answers[i])
    {
      MemberAnswersLeast(triggers, cs, previous, n, i);
    }
    LeastOfAgreeing(answers, fires, SearchFrom(previous, n));
  }

  lemma LeastOfAgreeing(answers: seq<Outcome>, fires: seq<int -> bool>, from: int)
    requires |answers| == |fires| > 0 && Decided(answers)
    requires forall i :: 0 <= i < |fires| ==> AnswersLeast(fires[i], from, answers[i])
    ensures AnswersLeast(Common(fires), from, AndAnswer(answers))
  {
    match AndAnswer(answers)
    case Raises =>
    case Never =>
      var i :| 0 <= i < |answers| && answers[i] == Never;
      assert AnswersLeast(fires[i], from, Never);
      forall t | from <= t
        ensures !Common(fires)(t)
      {
        assert !fires[i](t);
      }
    case Fire(m) =>
      forall i | 0 <= i < |fires|
        ensures answers[i] == Fire(m) && fires[i](m) && from <= m
      {
        assert AnswersLeast(fires[i], from, answers[i]);
        assert i == 0 || answers[0] == answers[i];
      }
      assert AnswersLeast(fires[0], from, Fire(m));
      forall t | from <= t < m
        ensures !Common(fires)(t)
      {
        assert !fires[0](t);
      }
  }

  /** As `AnswersLeast`, but the fire time `except` may have been passed over. */
  ghost predicate AnswersLeastBut(fires: int -> bool, from: int, except: int, r: Outcome) {
    match r
    case Fire(m) => from <= m && fires(m) && forall t :: from <= t < m && fires(t) ==> t == except
    case Never => forall t :: from <= t && fires(t) ==> t == except
    case Raises => true
  }

  /** No common time before where the search stands was passed over, except perhaps the previous fire time. */
  ghost predicate PassedOverNone(cs: seq<CronSpec>, previous: int, now: int, n: int)
    requires forall i :: 0 <= i < |cs| ==> |cs[i].fields| == FIELD_COUNT
  {
    && SearchFrom(previous, now) <= SearchFrom(previous, n)
    && forall t :: SearchFrom(previous, now) <= t < SearchFrom(previous, n) && Common(MatchSets(cs))(t) ==> t == previous
  }

  lemma PassSkipsNone(triggers: seq<Trigger>, cs: seq<CronSpec>, previous: int, now: int, n: int)
    requires AllCron(triggers, cs) && |cs| > 0 && PassedOverNone(cs, previous, now, n)
    ensures PassedOverNone(cs, previous, now, Pass(triggers, Some(previous), n))
  {
    var answers, m := Ask(triggers, Some(previous), n), Pass(triggers, Some(previous), n);
    if !Decided(answers) {
      PassClimbs(triggers, cs, previous, n);
      if n < previous {
        AnswersAreNotEarlier(triggers, cs, previous, n);
        var times := Times(answers);
        var i :| 0 <= i < |times| && times[i] == Greatest(times);
        MemberAnswersLeast(triggers, cs, previous, n, i);
        forall t | n <= t < m
          ensures !Common(MatchSets(cs))(t)
        {
          assert !MatchSets(cs)[i](t);
        }
      }
    }
  }

  lemma {:induction false} PassesSkipNone(triggers: seq<Trigger>, cs: seq<CronSpec>, previous: int, now: int, k: nat)
    requires AllCron(triggers, cs) && |cs| > 0
    ensures PassedOverNone(cs, previous, now, NowAfter(triggers, Some(previous), now, k))
    decreases k
  {
    if k > 0 {
      PassesSkipNone(triggers, cs, previous, now, k - 1);
      PassSkipsNone(triggers, cs, previous, now, NowAfter(triggers, Some(previous), now, k - 1));
    }
  }

  /** When the loop ends, it answers with the least common time after the previous fire time; or, from an earlier
      `now`, with the least one from there, but for the previous fire time itself. */
  lemma AndOverCronAnswer(triggers: seq<Trigger>, cs: seq<CronSpec>, previous: int, now: int, k: nat)
    requires AllCron(triggers, cs) && |cs| > 0
    requires DecidedAfter(triggers, Some(previous), now, k)
    ensures var r := AndAnswer(Ask(triggers, Some(previous), NowAfter(triggers, Some(previous), now, k)));
            && AnswersLeastBut(Common(MatchSets(cs)), SearchFrom(previous, now), previous, r)
            && (previous <= now ==> AnswersLeast(Common(MatchSets(cs)), previous + 1, r))
  {
    PassesSkipNone(triggers, cs, previous, now, k);
    DecidedAnswerIsLeast(triggers, cs, previous, NowAfter(triggers, Some(previous), now, k));
  }

  // ---- two triggers for which it never ends ----

  /** The fields `* * * * * * * *`. */
  function EverySecond(): (fs: Fields)
    ensures |fs| == FIELD_COUNT
  {
    [[All(None)], [All(None)], [All(None)], [All(None)], [All(None)], [All(None)], [All(None)], [All(None)]]
  }

  lemma StarMatches(fs: Fields, k: int, t: DateTime)
    requires |fs| == FIELD_COUNT && IsField(k) && ValidDateTime(t) && 1970 <= t.year && fs[k] == [All(None)]
    ensures FieldMatches(fs, k, t)
  {
    assert All(None) in fs[k] && Denotes(All(None), k, t.year, t.month, GetValue(k, t));
  }

  lemma EverySecondMatches(t: DateTime)
    requires ValidDateTime(t) && 1970 <= t.year
    ensures Matches(EverySecond(), t)
  {
    forall k | 0 <= k < FIELD_COUNT
      ensures FieldMatches(EverySecond(), k, t)
    {
      StarMatches(EverySecond(), k, t);
    }
  }

  lemma EveryMinuteMatches(t: DateTime)
    requires ValidDateTime(t) && 1970 <= t.year
    ensures Matches(EveryMinute(), t) <==> t.second == 0
  {
    var fs := EveryMinute();
    assert FieldMatches(fs, SECOND, t) <==> t.second == 0 by {
      assert Range(0, Some(0), None) in fs[SECOND];
    }
    forall k | 0 <= k < SECOND
      ensures FieldMatches(fs, k, t)
    {
      StarMatches(fs, k, t);
    }
  }

  lemma NextSecond(t: DateTime)
    requires ValidDateTime(t) && 1970 <= t.year && t.second == 0 && t.minute < 59
    ensures Scan(EverySecond(), Sec(t) + 1) == Some(Sec(t) + 1) && Sec(t) + 1 < LAST_SECOND
  {
    var u := t.(second := 1);
    EverySecondMatches(u);
    MatchOnTheTimeLine(EverySecond(), u);
    AtMostLast(u);
    LeastIsUnique(Matching(EverySecond()), Sec(u), Scan(EverySecond(), Sec(u)), Some(Sec(u)));
  }

  lemma NextMinute(t: DateTime)
    requires ValidDateTime(t) && 1970 <= t.year && t.second == 0 && t.minute < 59
    ensures var r := Scan(EveryMinute(), Sec(t) + 1);
            r.Some? && r.value != Sec(t) + 1
  {
    var u, v := t.(second := 1), t.(minute := t.minute + 1);
    EveryMinuteMatches(u);
    EveryMinuteMatches(v);
    MatchOnTheTimeLine(EveryMinute(), u);
    MatchOnTheTimeLine(EveryMinute(), v);
    assert Matching(EveryMinute())(Sec(v)) && !Matching(EveryMinute())(Sec(u));
  }

  function Forever(fs: Fields): CronSpec {
    CronSpec(fs, None, None)
  }

  lemma FirstPassDisagrees(triggers: seq<Trigger>, t: DateTime)
    requires AllCron(triggers, [Forever(EverySecond()), Forever(EveryMinute())])
    requires ValidDateTime(t) && 1970 <= t.year && t.second == 0 && t.minute < 59
    ensures !Decided(Ask(triggers, Some(Sec(t) * MICROS), Sec(t) * MICROS))
  {
    NextSecond(t);
    NextMinute(t);
    var p := Sec(t) * MICROS;
    AtLeastFirst(t);
    assert StartInstant(None, Some(p), p) == p + 1 && CeilSeconds(p + 1) == Sec(t) + 1 && Instant(p + 1);
    var cs := [Forever(EverySecond()), Forever(EveryMinute())];
    assert IsCron(triggers[0], cs[0]) && IsCron(triggers[1], cs[1]);
    var a, b := triggers[0](Some(p), p), triggers[1](Some(p), p);
    assert a == Fire((Sec(t) + 1) * MICROS);
    assert b == Fire(Scan(EveryMinute(), Sec(t) + 1).value * MICROS);
    var answers := Ask(triggers, Some(p), p);
    assert answers == [a, b] && answers[0] != answers[1];
  }

  /** "Every second" and "every minute" have every full minute in common; but after firing at one of them, the loop
      of the and-trigger does not end. */
  lemma AndOverCronCanRunForever(triggers: seq<Trigger>, t: DateTime, passes: nat)
    requires AllCron(triggers, [Forever(EverySecond()), Forever(EveryMinute())])
    requires ValidDateTime(t) && 1970 <= t.year && t.second == 0 && t.minute < 59
    ensures !DecidedAfter(triggers, Some(Sec(t) * MICROS), Sec(t) * MICROS, passes)
  {
    FirstPassDisagrees(triggers, t);
    var cs := [Forever(EverySecond()), Forever(EveryMinute())];
    AndOverCronDecidesAtOnceOrNever(triggers, cs, Sec(t) * MICROS, Sec(t) * MICROS);
  }
}
