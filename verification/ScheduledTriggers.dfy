/** Cron and interval jobs under the scheduler. */
module ScheduledTriggers {
  import opened Prelude
  import opened Triggers
  import opened CombiningTriggers
  import opened CronTriggers
  import opened CronCombination
  import opened IntervalTriggers
  import opened Calendar
  import opened CalendarIntervalTriggers
  import opened Jobs
  import opened JobStores
  import opened SchedulerSteps
  import opened SchedulerRuns
  import opened SchedulerTheorems

  /** A job id that the scheduler has never handled. */
  ghost predicate Unknown(s: State, id: JobId) {
    && id !in s.store.jobs && (forall d :: d in s.due ==> d.job.id != id)
    && Handled(s.trace, id) == [] && Submissions(s.trace, id) == []
  }

  /** A job that was just added, with its first run time pending. */
  lemma AddStarts(s: State, a: Action, trigger: Trigger)
    requires ValidState(s) && a.AddJob? && Unknown(s, a.id) && a.trigger == Some(trigger) && trigger(None, a.now).Fire?
    ensures Tracked(Step(s, a), a.id, Some(trigger))
    ensures ProgressOf(Step(s, a), a.id) == Progress([], [], Some(trigger(None, a.now).time))
  {
    var job := NewJob(a.id, a.trigger, a.graceSeconds, a.maxInstances, a.now).value;
    StoredIsValid(s, Add(job));
    Published(s.Stored(Add(job)), JobAdded(a.id), a.id);
    NoSnapshot(s.due, a.id);
  }

  lemma NewJobHasLostNone(s: State, a: Action, trigger: Trigger, fires: int -> bool, first: int)
    requires ValidState(s) && a.AddJob? && Unknown(s, a.id) && a.trigger == Some(trigger) && trigger(None, a.now) == Fire(first)
    requires fires(first)
    ensures var x := ProgressOf(Step(s, a), a.id);
            && Tracked(Step(s, a), a.id, Some(trigger))
            && NoneLost(x, fires, first) && EachOnce(x) && SubmittedOnce(x)
            && !Repeats(s, a, a.id)
  {
    AddStarts(s, a, trigger);
  }

  /** The life of a job from the moment it is added. */
  lemma NewJobRuns(s: State, a: Action, actions: seq<Action>, trigger: Trigger, fires: int -> bool, first: int)
    requires ValidState(s) && a.AddJob? && Unknown(s, a.id) && a.trigger == Some(trigger) && trigger(None, a.now) == Fire(first)
    requires fires(first) && Enumerates(trigger, fires) && Progressing(trigger) && AllQuiet(actions, a.id)
    ensures var s', id := RunSteps(s, [a] + actions), a.id;
            var x := ProgressOf(s', id);
            && StrictlyIncreasing(x.submitted)
            && NoneLost(x, fires, first)
            && (NeverRepeats(s, [a] + actions, id) ==> EachOnce(x))
  {
    NewJobHasLostNone(s, a, trigger, fires, first);
    assert ([a] + actions)[1..] == actions;
    DispatchedAtMostOnce(Step(s, a), actions, a.id, Some(trigger));
    NoFireTimeIsLost(Step(s, a), actions, a.id, trigger, fires, first);
    EachFireTimeOnce(Step(s, a), actions, a.id, trigger, fires, first);
  }

  /** While a run time is pending, the handled ones are exactly the fire times from the first up to it. */
  lemma HandledExactly(x: Progress, fires: int -> bool, first: int)
    requires NoneLost(x, fires, first) && EachOnce(x) && x.pending.Some?
    ensures forall t :: t in x.handled <==> fires(t) && first <= t < x.pending.value
  {
    forall t | t in x.handled
      ensures t < x.pending.value
    {
      assert t <= x.pending.value && t != x.pending.value;
    }
  }

  // ---- cron ----

  lemma CronEnumerates(trigger: Trigger, c: CronSpec)
    requires IsCron(trigger, c)
    ensures Enumerates(trigger, CronFires(c.fields, c.endDate)) && Progressing(trigger)
  {
    forall p, n | p <= n
      ensures AnswersLeast(CronFires(c.fields, c.endDate), p + 1, trigger(Some(p), n))
    {
      CronAnswersLeast(c.fields, c.startDate, c.endDate, Some(p), n);
      assert StartInstant(c.startDate, Some(p), n) == p + 1;
    }
    forall p, n | p <= n && trigger(Some(p), n).Fire?
      ensures p < trigger(Some(p), n).time
    {
      assert AnswersLeast(CronFires(c.fields, c.endDate), p + 1, trigger(Some(p), n));
    }
  }

  /** A cron job starts at its first match. Over every run, whatever `now` each step saw, its dispatched times are
      strictly increasing and no match is lost; unless a missed run could not be advanced, the dispatched and missed
      times are exactly the matches from the first up to the pending one, each once. */
  lemma CronJobRuns(s: State, a: Action, actions: seq<Action>, trigger: Trigger, c: CronSpec)
    requires ValidState(s) && a.AddJob? && Unknown(s, a.id) && a.trigger == Some(trigger) && IsCron(trigger, c)
    requires trigger(None, a.now).Fire? && AllQuiet(actions, a.id)
    ensures var first, s' := trigger(None, a.now).time, RunSteps(s, [a] + actions);
            var x, matches := ProgressOf(s', a.id), CronFires(c.fields, c.endDate);
            && IsLeast(FiresFromStart(c), a.now, Some(first))
            && StrictlyIncreasing(x.submitted)
            && NoneLost(x, matches, first)
            && (NeverRepeats(s, [a] + actions, a.id) ==>
                  && StrictlyIncreasing(x.handled)
                  && (x.pending.Some? ==> forall t :: t in x.handled <==> matches(t) && first <= t < x.pending.value))
  {
    var first, matches := trigger(None, a.now).time, CronFires(c.fields, c.endDate);
    FirstAnswer(trigger, c, a.now);
    assert FiresFromStart(c)(first);
    CronEnumerates(trigger, c);
    NewJobRuns(s, a, actions, trigger, matches, first);
    var x := ProgressOf(RunSteps(s, [a] + actions), a.id);
    if NeverRepeats(s, [a] + actions, a.id) && x.pending.Some? {
      HandledExactly(x, matches, first);
    }
  }

  // ---- interval ----

  ghost predicate IsInterval(trigger: Trigger, t: IntervalTrigger) {
    t.length > 0 && forall p, n :: trigger(p, n) == Next(t, p, n)
  }

  lemma IntervalEnumerates(trigger: Trigger, t: IntervalTrigger)
    requires IsInterval(trigger, t)
    ensures Enumerates(trigger, IntervalTriggers.Fires(t)) && Progressing(trigger)
  {
    forall p, n | IntervalTriggers.Fires(t)(p) && p <= n
      ensures AnswersLeast(IntervalTriggers.Fires(t), p + 1, trigger(Some(p), n))
    {
      AnswersWithLeast(t, Some(p), n);
    }
  }

  /** The handled times are `first`, `first + length`, and so on, and the pending one continues them. */
  ghost predicate EvenlySpaced(x: Progress, first: int, length: int) {
    && (forall i :: 0 <= i < |x.handled| ==> x.handled[i] == first + i * length)
    && (x.pending.Some? ==> x.pending.value == first + |x.handled| * length)
  }

  lemma AdvanceIsEvenlySpaced(x: Progress, y: Progress, trigger: Trigger, t: IntervalTrigger, first: int)
    requires IsInterval(trigger, t) && EvenlySpaced(x, first, t.length) && Advances(x, y, Some(trigger))
    ensures EvenlySpaced(y, first, t.length)
  {
    var n := |x.handled|;
    if y.pending.Some? {
      var now :| x.pending.value <= now && trigger(Some(x.pending.value), now) == Fire(y.pending.value);
      assert y.pending.value == first + n * t.length + t.length;
      assert (n + 1) * t.length == n * t.length + t.length;
    }
  }

  lemma StepIsEvenlySpaced(s: State, a: Action, id: JobId, trigger: Trigger, t: IntervalTrigger, first: int)
    requires Tracked(s, id, Some(trigger)) && Quiet(a, id) && !Repeats(s, a, id) && IsInterval(trigger, t)
    requires EvenlySpaced(ProgressOf(s, id), first, t.length)
    ensures Tracked(Step(s, a), id, Some(trigger)) && EvenlySpaced(ProgressOf(Step(s, a), id), first, t.length)
  {
    StepMoves(s, a, id, Some(trigger));
    var x, y := ProgressOf(s, id), ProgressOf(Step(s, a), id);
    if Advances(x, y, Some(trigger)) {
      AdvanceIsEvenlySpaced(x, y, trigger, t, first);
    }
  }

  lemma {:induction false} RunIsEvenlySpaced(s: State, actions: seq<Action>, id: JobId, trigger: Trigger,
                                             t: IntervalTrigger, first: int)
    requires Tracked(s, id, Some(trigger)) && AllQuiet(actions, id) && IsInterval(trigger, t)
    requires NeverRepeats(s, actions, id) && EvenlySpaced(ProgressOf(s, id), first, t.length)
    ensures EvenlySpaced(ProgressOf(RunSteps(s, actions), id), first, t.length)
    decreases |actions|
  {
    if actions != [] {
      StepIsEvenlySpaced(s, actions[0], id, trigger, t, first);
      RunIsEvenlySpaced(Step(s, actions[0]), actions[1..], id, trigger, t, first);
    }
  }

  /** An interval job starts at its least fire time from `now` on; its pending time is always `first + n * length`,
      where `n` is the number of runs dispatched or missed, unless a missed run could not be advanced. */
  lemma IntervalJobRuns(s: State, a: Action, actions: seq<Action>, trigger: Trigger, t: IntervalTrigger)
    requires ValidState(s) && a.AddJob? && Unknown(s, a.id) && a.trigger == Some(trigger) && IsInterval(trigger, t)
    requires trigger(None, a.now).Fire? && AllQuiet(actions, a.id)
    ensures var first, s' := trigger(None, a.now).time, RunSteps(s, [a] + actions);
            var x, fires := ProgressOf(s', a.id), IntervalTriggers.Fires(t);
            && IsLeast(fires, a.now, Some(first))
            && StrictlyIncreasing(x.submitted)
            && NoneLost(x, fires, first)
            && (NeverRepeats(s, [a] + actions, a.id) ==> EvenlySpaced(x, first, t.length))
  {
    var first := trigger(None, a.now).time;
    AnswersWithLeast(t, None, a.now);
    IntervalEnumerates(trigger, t);
    NewJobRuns(s, a, actions, trigger, IntervalTriggers.Fires(t), first);
    AddStarts(s, a, trigger);
    assert ([a] + actions)[1..] == actions;
    if NeverRepeats(s, [a] + actions, a.id) {
      RunIsEvenlySpaced(Step(s, a), actions, a.id, trigger, t, first);
    }
  }

  // ---- calendar interval ----

  /** Instant `p` lies on date `d`. */
  ghost predicate OnDate(d: Date, p: int) {
    ValidDate(d) && Ordinal(d) == p / (DAY_SECONDS * MICROS)
  }

  /** `trigger` answers as the calendar interval trigger `c` does: from the date of the previous fire time alone. */
  ghost predicate IsCalendarInterval(trigger: Trigger, c: CalendarIntervalTrigger) {
    && c.Valid() && c.ValidTime()
    && (forall n :: trigger(None, n) == c.Answer(None))
    && (forall p, n :: trigger(Some(p), n) == AnswerAfter(c, p))
  }

  ghost function AnswerAfter(c: CalendarIntervalTrigger, p: int): Outcome
    requires c.Valid()
  {
    if exists d :: OnDate(d, p) then (var d :| OnDate(d, p); c.Answer(Some(d))) else Raises
  }

  lemma OneDateIsOn(d: Date, e: Date, p: int)
    requires OnDate(d, p) && OnDate(e, p)
    ensures d == e
  {
    OrdinalMonotone(d, e);
    OrdinalMonotone(e, d);
  }

  lemma InstantIsOnDate(c: CalendarIntervalTrigger, d: Date)
    requires c.ValidTime() && ValidDate(d)
    ensures OnDate(d, c.InstantOn(d))
  {
    var s := c.hour * 3600 + c.minute * 60 + c.second;
    assert c.At(d).Day() == d;
    assert c.InstantOn(d) == Ordinal(d) * (DAY_SECONDS * MICROS) + s * MICROS;
  }

  /** The date after `d` begins after every instant of `d`. */
  lemma LaterDateIsLater(c: CalendarIntervalTrigger, d: Date, p: int)
    requires c.Valid() && c.ValidTime() && OnDate(d, p)
    ensures p < c.InstantOn(c.DateAfter(d))
  {
    c.DatesIncrease(d);
    OrdinalMonotone(d, c.DateAfter(d));
    InstantIsOnDate(c, c.DateAfter(d));
  }

  lemma AnswerOnDate(c: CalendarIntervalTrigger, p: int, d: Date)
    requires c.Valid() && OnDate(d, p)
    ensures AnswerAfter(c, p) == c.Answer(Some(d))
  {
    var e :| OnDate(e, p) && AnswerAfter(c, p) == c.Answer(Some(e));
    OneDateIsOn(d, e, p);
  }

  lemma AnswerAfterFireTime(c: CalendarIntervalTrigger, p: int)
    requires c.Valid() && c.ValidTime() && c.FireTimes()(p)
    ensures AnswersLeast(c.FireTimes(), p + 1, AnswerAfter(c, p))
  {
    var k: nat :| c.FiresAs(k, p);
    InstantIsOnDate(c, c.Nth(k));
    AnswerOnDate(c, p, c.Nth(k));
    c.AnswersNext(k);
  }

  lemma AnswerIsLater(c: CalendarIntervalTrigger, p: int)
    requires c.Valid() && c.ValidTime() && AnswerAfter(c, p).Fire?
    ensures p < AnswerAfter(c, p).time
  {
    var d :| OnDate(d, p);
    AnswerOnDate(c, p, d);
    LaterDateIsLater(c, d, p);
  }

  lemma CalendarIntervalEnumerates(trigger: Trigger, c: CalendarIntervalTrigger)
    requires IsCalendarInterval(trigger, c)
    ensures Enumerates(trigger, c.FireTimes())
  {
    var fires := c.FireTimes();
    forall p, n | fires(p) && p <= n
      ensures AnswersLeast(fires, p + 1, trigger(Some(p), n))
    {
      AnswerAfterFireTime(c, p);
    }
  }

  lemma CalendarIntervalProgresses(trigger: Trigger, c: CalendarIntervalTrigger)
    requires IsCalendarInterval(trigger, c)
    ensures Progressing(trigger)
  {
    forall p, n | p <= n && trigger(Some(p), n).Fire?
      ensures p < trigger(Some(p), n).time
    {
      AnswerIsLater(c, p);
    }
  }

  /** A calendar interval job starts at its start date, even a past one. Over every run no date is lost or dispatched
      twice; unless a missed run could not be advanced, the dispatched and missed times are exactly the enumerated
      dates before the pending one, each once. */
  lemma CalendarIntervalJobRuns(s: State, a: Action, actions: seq<Action>, trigger: Trigger, c: CalendarIntervalTrigger)
    requires ValidState(s) && a.AddJob? && Unknown(s, a.id) && a.trigger == Some(trigger) && IsCalendarInterval(trigger, c)
    requires AllQuiet(actions, a.id)
    ensures var first, s' := c.InstantOn(c.startDate), RunSteps(s, [a] + actions);
            var x := ProgressOf(s', a.id);
            && StrictlyIncreasing(x.submitted)
            && NoneLost(x, c.FireTimes(), first)
            && (NeverRepeats(s, [a] + actions, a.id) ==>
                  && StrictlyIncreasing(x.handled)
                  && (x.pending.Some? ==> forall t :: t in x.handled <==> c.FireTimes()(t) && t < x.pending.value))
  {
    var first := c.InstantOn(c.startDate);
    assert trigger(None, a.now) == Fire(first) && c.FiresAs(0, first);
    CalendarIntervalEnumerates(trigger, c);
    CalendarIntervalProgresses(trigger, c);
    NewJobRuns(s, a, actions, trigger, c.FireTimes(), first);
    var x := ProgressOf(RunSteps(s, [a] + actions), a.id);
    if NeverRepeats(s, [a] + actions, a.id) && x.pending.Some? {
      HandledExactly(x, c.FireTimes(), first);
      StartIsLeast(c);
    }
  }

  lemma StartIsLeast(c: CalendarIntervalTrigger)
    requires c.Valid() && c.ValidTime()
    ensures forall t :: c.FireTimes()(t) ==> c.InstantOn(c.startDate) <= t
  {
    forall t | c.FireTimes()(t)
      ensures c.InstantOn(c.startDate) <= t
    {
      c.FirstAnswerIsNextIff(t);
    }
  }
}
