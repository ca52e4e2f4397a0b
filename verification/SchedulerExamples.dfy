/** Two runs from an empty scheduler, at the start of 2024, that show what the general lemmas allow for. */
module SchedulerExamples {
  import opened Prelude
  import opened Calendar
  import opened Triggers
  import opened CombiningTriggers
  import opened IntervalTriggers
  import opened Jobs
  import opened JobStores
  import opened SchedulerSteps
  import opened SchedulerRuns
  import opened SchedulerTheorems

  /** 2024-01-01 00:00:00 */
  const START := 63_839_750_400 * MICROS
  const MINUTE_LENGTH := 60 * MICROS

  lemma StartIsAnInstant()
    ensures START == Sec(DateTime(2024, 1, 1, 0, 0, 0)) * MICROS && Instant(START)
  {
  }

  const EMPTY_STATE := State(Memory([], map[]), map[], [], [])

  /** An interval trigger: every minute from the start. */
  const MINUTELY: IntervalTrigger := IntervalTrigger(START, None, MINUTE_LENGTH)

  function Minutely(): Trigger {
    (previous, now) => Next(MINUTELY, previous, now)
  }

  lemma MinutelyAnswers()
    ensures Minutely()(None, START) == Fire(START)
    ensures forall now :: Minutely()(Some(START), now) == Fire(START + MINUTE_LENGTH)
  {
  }

  /** The job as `add_job` makes it at the start. */
  function MinuteJob(graceSeconds: Option<int>): Job {
    Job("minutely", Some(Minutely()), graceSeconds, 1, Running, Some(START))
  }

  function AddMinuteJob(graceSeconds: Option<int>): Action {
    AddJob("minutely", Some(Minutely()), graceSeconds, 1, false, START)
  }

  /** The scheduler holds the job and nothing else. */
  function Holding(job: Job, due: seq<Due>, trace: seq<Event>): State {
    State(Memory([job.id], map[job.id := job]), map[], due, trace)
  }

  lemma Adding(graceSeconds: Option<int>)
    ensures ValidState(EMPTY_STATE)
    ensures Step(EMPTY_STATE, AddMinuteJob(graceSeconds)) == Holding(MinuteJob(graceSeconds), [], [JobAdded("minutely")])
  {
    MinutelyAnswers();
  }

  lemma Polling(job: Job, now: int, trace: seq<Event>)
    requires job.nextRunTime.Some? && job.nextRunTime.value <= now
    ensures Step(Holding(job, [], trace), Poll(now)) == Holding(job, [Due(job, now)], trace)
  {
    var m := Holding(job, [], trace).store;
    assert DueIds(m.jobs, m.order[..0], now) == [];
    assert DueIds(m.jobs, m.order, now) == InsertByTime(m.jobs, [], job.id) == [job.id];
    assert Snapshots(MemoryDue(m, now), now) == [Due(job, now)];
  }

  // ---- a missed run that is published twice ----

  lemma FailingToAdvance(trace: seq<Event>)
    ensures var job := MinuteJob(Some(0));
            Step(Holding(job, [Due(job, START + MICROS)], trace), RunNext(true))
            == Holding(job, [], trace + [JobMissed("minutely", START)])
  {
    var job := MinuteJob(Some(0));
    assert [Due(job, START + MICROS)][1..] == [];
  }

  /** A pass one second after the run time whose write to the store fails. */
  lemma FailingPass(trace: seq<Event>, actions: seq<Action>)
    requires ValidState(Holding(MinuteJob(Some(0)), [], trace)) && |actions| >= 2
    requires actions[0] == Poll(START + MICROS) && actions[1] == RunNext(true)
    ensures ValidState(Holding(MinuteJob(Some(0)), [], trace + [JobMissed("minutely", START)]))
    ensures RunSteps(Holding(MinuteJob(Some(0)), [], trace), actions)
         == RunSteps(Holding(MinuteJob(Some(0)), [], trace + [JobMissed("minutely", START)]), actions[2..])
  {
    var s := Holding(MinuteJob(Some(0)), [], trace);
    Polling(MinuteJob(Some(0)), START + MICROS, trace);
    FailingToAdvance(trace);
    StepKeepsValid(s, actions[0]);
    StepKeepsValid(Step(s, actions[0]), actions[1]);
    assert actions[1..][0] == actions[1] && actions[1..][1..] == actions[2..];
  }

  function FailingTwice(): seq<Action> {
    [AddMinuteJob(Some(0)), Poll(START + MICROS), RunNext(true), Poll(START + MICROS), RunNext(true)]
  }

  lemma HandledTwice(trace: seq<Event>, e: Event)
    requires e.JobMissed? && Handled(trace, e.id) == []
    ensures Handled(trace + [e] + [e], e.id) == [e.runTime, e.runTime]
  {
    assert (trace + [e] + [e])[..|trace| + 1] == trace + [e] && (trace + [e])[..|trace|] == trace;
  }

  /** Without a grace time, polled a second late, and with two failing writes: the missed run is published twice. */
  lemma MissedTwice()
    ensures ValidState(EMPTY_STATE) && Instant(START)
    ensures Handled(RunSteps(EMPTY_STATE, FailingTwice()).trace, "minutely") == [START, START]
  {
    StartIsAnInstant();
    Adding(Some(0));
    var a, missed, added := FailingTwice(), JobMissed("minutely", START), [JobAdded("minutely")];
    StepKeepsValid(EMPTY_STATE, a[0]);
    FailingPass(added, a[1..]);
    FailingPass(added + [missed], a[1..][2..]);
    assert a[1..][2..][2..] == [];
    assert Handled(added, "minutely") == [] by { assert added[..0] == []; }
    HandledTwice(added, missed);
  }

  // ---- a pause that is lost ----

  function PausingInAPass(): seq<Action> {
    [AddMinuteJob(None), Poll(START), PauseJob("minutely"), RunNext(false)]
  }

  function PausedJob(): Job {
    MinuteJob(None).(status := Paused, nextRunTime := None)
  }

  lemma Pausing(trace: seq<Event>)
    ensures var due := [Due(MinuteJob(None), START)];
            Step(Holding(MinuteJob(None), due, trace), PauseJob("minutely")) == Holding(PausedJob(), due, trace + [JobPaused("minutely")])
  {
    assert map["minutely" := MinuteJob(None)]["minutely" := PausedJob()] == map["minutely" := PausedJob()];
  }

  lemma RunningThePaused(trace: seq<Event>)
    ensures var s := Step(Holding(PausedJob(), [Due(MinuteJob(None), START)], trace), RunNext(false));
            s.store.jobs == map["minutely" := MinuteJob(None).(nextRunTime := Some(START + MINUTE_LENGTH))]
  {
    MinutelyAnswers();
    var next := MinuteJob(None).(nextRunTime := Some(START + MINUTE_LENGTH));
    assert map["minutely" := PausedJob()]["minutely" := next] == map["minutely" := next];
  }

  /** A job paused between the reading and the running of its due time: the pause is accepted, and the job runs on. */
  lemma PauseIsLost()
    ensures ValidState(EMPTY_STATE)
    ensures RunSteps(EMPTY_STATE, PausingInAPass()).store.jobs
            == map["minutely" := MinuteJob(None).(nextRunTime := Some(START + MINUTE_LENGTH))]
  {
    var a := PausingInAPass();
    Adding(None);
    var s1 := Step(EMPTY_STATE, a[0]);
    Polling(MinuteJob(None), START, [JobAdded("minutely")]);
    var s2 := Step(s1, a[1]);
    Pausing(s2.trace);
    var s3 := Step(s2, a[2]);
    RunningThePaused(s3.trace);
    FourSteps(EMPTY_STATE, a);
  }

  lemma FourSteps(s: State, a: seq<Action>)
    requires ValidState(s) && |a| == 4
    ensures ValidState(Step(s, a[0])) && ValidState(Step(Step(s, a[0]), a[1])) && ValidState(Step(Step(Step(s, a[0]), a[1]), a[2]))
    ensures RunSteps(s, a) == Step(Step(Step(Step(s, a[0]), a[1]), a[2]), a[3])
  {
    StepKeepsValid(s, a[0]);
    StepKeepsValid(Step(s, a[0]), a[1]);
    StepKeepsValid(Step(Step(s, a[0]), a[1]), a[2]);
    StepKeepsValid(Step(Step(Step(s, a[0]), a[1]), a[2]), a[3]);
    OneStep(s, a);
    OneStep(Step(s, a[0]), a[1..]);
    OneStep(Step(Step(s, a[0]), a[1]), a[2..]);
    OneStep(Step(Step(Step(s, a[0]), a[1]), a[2]), a[3..]);
    assert a[1..][1..] == a[2..] && a[2..][1..] == a[3..] && a[3..][1..] == [];
  }

  lemma OneStep(s: State, a: seq<Action>)
    requires ValidState(s) && a != []
    ensures ValidState(Step(s, a[0])) && RunSteps(s, a) == RunSteps(Step(s, a[0]), a[1..])
  {
    StepKeepsValid(s, a[0]);
  }
}
