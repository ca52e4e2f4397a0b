/** The count of running instances, and its limit. */
module SchedulerInstances {
  import opened Prelude
  import opened Triggers
  import opened CombiningTriggers
  import opened Jobs
  import opened JobStores
  import opened SchedulerSteps
  import opened SchedulerRuns

  predicate IsEnd(e: Event, id: JobId) {
    (e.JobSucceeded? || e.JobFailed?) && e.id == id
  }

  /** The dispatches of a job that have not ended yet. */
  function InFlight(trace: seq<Event>, id: JobId): int {
    if trace == [] then 0
    else
      var last := trace[|trace| - 1];
      InFlight(trace[..|trace| - 1], id) + (if last.Submitted? && last.id == id then 1 else if IsEnd(last, id) then -1 else 0)
  }

  lemma PublishedInFlight(s: State, e: Event, id: JobId)
    ensures InFlight(s.Publish(e).trace, id)
         == InFlight(s.trace, id) + (if e.Submitted? && e.id == id then 1 else if IsEnd(e, id) then -1 else 0)
  {
    assert s.Publish(e).trace[..|s.trace|] == s.trace;
  }

  /** The executor reports the end of a run only while one is in flight. */
  predicate Enabled(s: State, a: Action) {
    a.Finish? ==> InFlight(s.trace, a.id) > 0
  }

  ghost predicate AllEnabled(s: State, actions: seq<Action>)
    requires ValidState(s)
    decreases |actions|
  {
    actions != [] ==>
      Enabled(s, actions[0]) && ValidState(Step(s, actions[0])) && AllEnabled(Step(s, actions[0]), actions[1..])
  }

  /** `_running` is right about the job. */
  predicate Counted(s: State, id: JobId) {
    Count(s.running, id) == InFlight(s.trace, id) && (id in s.running ==> s.running[id] > 0)
  }

  // ---- one step ----

  lemma AdvanceKeepsCount(s: State, job: Job, runTime: int, now: int, fails: bool, id: JobId)
    ensures var r := Advance(s, job, runTime, now, fails);
            r.Some? ==> r.value.running == s.running && InFlight(r.value.trace, id) == InFlight(s.trace, id)
  {
    PublishedInFlight(s.Stored(Remove(job.id)), JobRemoved(job.id), id);
  }

  lemma MissKeepsCount(s: State, job: Job, now: int, fails: bool, id: JobId)
    requires job.nextRunTime.Some?
    ensures var r := Miss(s, job, now, fails).0;
            r.running == s.running && InFlight(r.trace, id) == InFlight(s.trace, id)
  {
    var missed := JobMissed(job.id, job.nextRunTime.value);
    PublishedInFlight(s, missed, id);
    AdvanceKeepsCount(s.Publish(missed), job, job.nextRunTime.value, now, fails, id);
  }

  lemma SubmitCounts(s: State, i: JobId, t: int, count: int, id: JobId)
    ensures var r := Submit(s, i, t, count);
            && InFlight(r.trace, id) == InFlight(s.trace, id) + (if i == id then 1 else 0)
            && r.running == s.running[i := count]
  {
    var s1 := s.(running := s.running[i := count]);
    PublishedInFlight(s1, JobStarted(i, t), id);
    PublishedInFlight(s1.Publish(JobStarted(i, t)), Submitted(i, t), id);
  }

  /** A step that hands a job to the executor does so below the job's limit. */
  lemma RunDueCounts(s: State, job: Job, now: int, fails: bool, id: JobId)
    requires job.nextRunTime.Some? && Counted(s, id)
    ensures var r := RunDueJob(s, job, now, fails).0;
            && Counted(r, id)
            && (InFlight(r.trace, id) == InFlight(s.trace, id)
                || (job.id == id && InFlight(r.trace, id) == InFlight(s.trace, id) + 1 <= job.maxInstances))
  {
    var t := job.nextRunTime.value;
    if IsMissed(job, now) {
      MissKeepsCount(s, job, now, fails, id);
    } else if Count(s.running, job.id) >= job.maxInstances {
      PublishedInFlight(s, JobMaxInstances(job.id, t), id);
    } else {
      AdvanceKeepsCount(s, job, t, now, fails, id);
      var r := Advance(s, job, t, now, fails);
      if r.Some? {
        SubmitCounts(r.value, job.id, t, Count(s.running, job.id) + 1, id);
      }
    }
  }

  lemma FinishCounts(s: State, i: JobId, t: int, succeeded: bool, id: JobId)
    requires Counted(s, id) && InFlight(s.trace, i) > 0
    ensures var s' := FinishStep(s, i, t, succeeded);
            Counted(s', id) && InFlight(s'.trace, id) == InFlight(s.trace, id) - (if i == id then 1 else 0)
  {
    PublishedInFlight(s.(running := Finished(s.running, i)), if succeeded then JobSucceeded(i, t) else JobFailed(i, t), id);
  }

  /** The other operations change no counts. */
  lemma OtherStepCounts(s: State, a: Action, id: JobId)
    requires ValidState(s) && !a.RunNext? && !a.Finish?
    ensures Step(s, a).running == s.running && InFlight(Step(s, a).trace, id) == InFlight(s.trace, id)
  {
    var s' := Step(s, a);
    if s'.trace != s.trace {
      assert |s'.trace| == |s.trace| + 1 && s'.trace[..|s.trace|] == s.trace;
    }
  }

  lemma StepCounts(s: State, a: Action, id: JobId)
    requires ValidState(s) && Enabled(s, a) && Counted(s, id)
    ensures Counted(Step(s, a), id)
    ensures InFlight(Step(s, a).trace, id) > InFlight(s.trace, id) ==>
              && a.RunNext? && s.due != [] && s.due[0].job.id == id
              && InFlight(s.trace, id) < s.due[0].job.maxInstances
              && InFlight(Step(s, a).trace, id) == InFlight(s.trace, id) + 1
  {
    match a
    case RunNext(fails) =>
      if s.due != [] {
        RunDueCounts(Rest(s), s.due[0].job, s.due[0].now, fails, id);
      }
    case Finish(i, t, succeeded) => FinishCounts(s, i, t, succeeded, id);
    case _ => OtherStepCounts(s, a, id);
  }

  // ---- runs ----

  /** In every run the scheduler's count is the number of dispatches that have not ended. */
  lemma {:induction false} RunningCountsDispatches(s: State, actions: seq<Action>, id: JobId)
    requires ValidState(s) && AllEnabled(s, actions) && Counted(s, id)
    ensures Counted(RunSteps(s, actions), id) && InFlight(RunSteps(s, actions).trace, id) >= 0
    decreases |actions|
  {
    if actions != [] {
      StepCounts(s, actions[0], id);
      RunningCountsDispatches(Step(s, actions[0]), actions[1..], id);
    }
  }

  /** The action gives the job no larger limit than `cap`. */
  predicate GivesAtMost(a: Action, id: JobId, cap: int) {
    match a
    case AddJob(i, _, _, max, _, _) => i == id ==> Max(1, max) <= cap
    case UpdateJob(i, _, _, max, _) => i == id && max.Some? ==> Max(1, max.value) <= cap
    case _ => true
  }

  /** The job's limit is at most `cap`, in the store and in the pass under way, and so are its runs in flight. */
  ghost predicate Within(s: State, id: JobId, cap: int) {
    && InFlight(s.trace, id) <= cap
    && (id in s.store.jobs ==> s.store.jobs[id].maxInstances <= cap)
    && forall d :: d in s.due && d.job.id == id ==> d.job.maxInstances <= cap
  }

  /** `_advance` stores a job with the limit it read. */
  lemma AdvanceWithin(s: State, job: Job, runTime: int, now: int, fails: bool, id: JobId, cap: int)
    requires Within(s, id, cap) && (job.id == id ==> job.maxInstances <= cap)
    ensures var r := Advance(s, job, runTime, now, fails);
            r.Some? ==> r.value.due == s.due && (id in r.value.store.jobs ==> r.value.store.jobs[id].maxInstances <= cap)
  {
  }

  lemma RunDueWithin(s: State, job: Job, now: int, fails: bool, id: JobId, cap: int)
    requires job.nextRunTime.Some? && Within(s, id, cap) && (job.id == id ==> job.maxInstances <= cap)
    ensures var r := RunDueJob(s, job, now, fails).0;
            r.due == s.due && (id in r.store.jobs ==> r.store.jobs[id].maxInstances <= cap)
  {
    var t := job.nextRunTime.value;
    if IsMissed(job, now) {
      PublishedInFlight(s, JobMissed(job.id, t), id);
      AdvanceWithin(s.Publish(JobMissed(job.id, t)), job, t, now, fails, id, cap);
    } else {
      AdvanceWithin(s, job, t, now, fails, id, cap);
    }
  }

  lemma PollWithin(s: State, now: int, id: JobId, cap: int)
    requires ValidState(s) && Within(s, id, cap)
    ensures Within(PollStep(s, now), id, cap)
  {
    MemoryDueIsExact(s.store, now);
  }

  lemma StepWithin(s: State, a: Action, id: JobId, cap: int)
    requires ValidState(s) && Enabled(s, a) && Counted(s, id) && GivesAtMost(a, id, cap) && Within(s, id, cap)
    ensures Within(Step(s, a), id, cap)
  {
    StepCounts(s, a, id);
    match a
    case Poll(now) => PollWithin(s, now, id, cap);
    case RunNext(fails) =>
      if s.due != [] {
        assert s.due[0] in s.due;
        HeadIsOnce(s);
        RunDueWithin(Rest(s), s.due[0].job, s.due[0].now, fails, id, cap);
      }
    case Finish(i, t, succeeded) =>
    case _ => StoreStepWithin(s, a, id, cap);
  }

  lemma StoreStepWithin(s: State, a: Action, id: JobId, cap: int)
    requires ValidState(s) && GivesAtMost(a, id, cap) && Within(s, id, cap) && !a.Poll? && !a.RunNext? && !a.Finish?
    ensures var s' := Step(s, a);
            s'.due == s.due && (id in s'.store.jobs ==> s'.store.jobs[id].maxInstances <= cap)
  {
  }

  /** In every run a job never has more runs in flight than the largest limit it was ever given. */
  lemma {:induction false} NeverMoreThanTheLimit(s: State, actions: seq<Action>, id: JobId, cap: int)
    requires ValidState(s) && AllEnabled(s, actions) && Counted(s, id) && Within(s, id, cap)
    requires forall i :: 0 <= i < |actions| ==> GivesAtMost(actions[i], id, cap)
    ensures InFlight(RunSteps(s, actions).trace, id) <= cap
    decreases |actions|
  {
    if actions != [] {
      StepCounts(s, actions[0], id);
      StepWithin(s, actions[0], id, cap);
      NeverMoreThanTheLimit(Step(s, actions[0]), actions[1..], id, cap);
    }
  }

  // ---- what happens to a due job ----

  /** Everything that running a due job publishes, in order: it is missed exactly when it is late by more than its
      grace time, refused exactly when it is not late but at its limit, and dispatched otherwise. Its removal is
      published before its dispatch, and an exception comes before any dispatch and leaves store and counts alone. */
  lemma RunDueEvents(s: State, job: Job, now: int, fails: bool)
    requires job.nextRunTime.Some?
    ensures
      var (s', ok) := RunDueJob(s, job, now, fails);
      var id, t := job.id, job.nextRunTime.value;
      var late := job.graceSeconds.Some? && t + job.graceSeconds.value * 1_000_000 < now;
      var full := Count(s.running, id) >= job.maxInstances;
      var over := job.trigger.Some? && job.trigger.value(Some(t), now) == Never;
      && s'.trace == s.trace
           + (if late then [JobMissed(id, t)] else if full then [JobMaxInstances(id, t)] else [])
           + (if ok && over && (late || !full) then [JobRemoved(id)] else [])
           + (if ok && !late && !full then [JobStarted(id, t), Submitted(id, t)] else [])
      && (!ok ==> s'.store == s.store && s'.running == s.running)
  {
    var id, t := job.id, job.nextRunTime.value;
    AdvanceEvents(s, job, now, fails);
    AdvanceEvents(s.Publish(JobMissed(id, t)), job, now, fails);
  }

  lemma AdvanceEvents(s: State, job: Job, now: int, fails: bool)
    requires job.nextRunTime.Some?
    ensures var r := Advance(s, job, job.nextRunTime.value, now, fails);
            var over := job.trigger.Some? && job.trigger.value(job.nextRunTime, now) == Never;
            r.Some? ==> r.value.trace == s.trace + (if over then [JobRemoved(job.id)] else []) && r.value.running == s.running
  {
  }

  /** Every job may have at least one run in flight. */
  ghost predicate EachMayRun(s: State) {
    && (forall id :: id in s.store.jobs ==> s.store.jobs[id].maxInstances >= 1)
    && (forall d :: d in s.due ==> d.job.maxInstances >= 1)
  }

  lemma StepKeepsEachMayRun(s: State, a: Action)
    requires ValidState(s) && EachMayRun(s)
    ensures EachMayRun(Step(s, a))
  {
    match a
    case Poll(now) => MemoryDueIsExact(s.store, now);
    case RunNext(fails) =>
      if s.due != [] {
        assert s.due[0] in s.due;
        HeadIsOnce(s);
        RunDueKeepsEachMayRun(Rest(s), s.due[0].job, s.due[0].now, fails);
      }
    case Finish(_, _, _) =>
    case _ => StoreStepKeepsEachMayRun(s, a);
  }

  lemma StoreStepKeepsEachMayRun(s: State, a: Action)
    requires ValidState(s) && EachMayRun(s) && !a.Poll? && !a.RunNext? && !a.Finish?
    ensures EachMayRun(Step(s, a))
  {
  }

  lemma AdvanceKeepsEachMayRun(s: State, job: Job, runTime: int, now: int, fails: bool)
    requires EachMayRun(s) && job.maxInstances >= 1
    ensures var r := Advance(s, job, runTime, now, fails);
            r.Some? ==> EachMayRun(r.value)
  {
  }

  lemma RunDueKeepsEachMayRun(s: State, job: Job, now: int, fails: bool)
    requires EachMayRun(s) && job.maxInstances >= 1 && job.nextRunTime.Some?
    ensures EachMayRun(RunDueJob(s, job, now, fails).0)
  {
    AdvanceKeepsEachMayRun(s, job, job.nextRunTime.value, now, fails);
    AdvanceKeepsEachMayRun(s.Publish(JobMissed(job.id, job.nextRunTime.value)), job, job.nextRunTime.value, now, fails);
  }

  lemma {:induction false} RunKeepsEachMayRun(s: State, actions: seq<Action>)
    requires ValidState(s) && EachMayRun(s)
    ensures EachMayRun(RunSteps(s, actions))
    decreases |actions|
  {
    if actions != [] {
      StepKeepsValid(s, actions[0]);
      StepKeepsEachMayRun(s, actions[0]);
      RunKeepsEachMayRun(Step(s, actions[0]), actions[1..]);
    }
  }

  /** However a run went, a due job that is not late and has nothing in flight is dispatched when its turn comes,
      unless its trigger or the store raises: the limit never starves it. */
  lemma IdleJobIsDispatched(s: State, actions: seq<Action>, fails: bool)
    requires ValidState(s) && EachMayRun(s) && AllEnabled(s, actions) && RunSteps(s, actions).due != []
    requires Counted(s, RunSteps(s, actions).due[0].job.id)
    ensures var s' := RunSteps(s, actions);
            var job, now := s'.due[0].job, s'.due[0].now;
            InFlight(s'.trace, job.id) == 0 && !IsMissed(job, now)
            && Advance(s', job, job.nextRunTime.value, now, fails).Some? ==>
              var s'' := Step(s', RunNext(fails));
              InFlight(s''.trace, job.id) == 1
              && s''.trace[|s''.trace| - 1] == Submitted(job.id, job.nextRunTime.value)
  {
    var s' := RunSteps(s, actions);
    var head := s'.due[0];
    assert head in s'.due;
    RunKeepsEachMayRun(s, actions);
    RunningCountsDispatches(s, actions, head.job.id);
    if InFlight(s'.trace, head.job.id) == 0 && !IsMissed(head.job, head.now) {
      DispatchIsLast(Rest(s'), head.job, head.now, fails);
    }
  }

  lemma DispatchIsLast(s: State, job: Job, now: int, fails: bool)
    requires job.nextRunTime.Some? && !IsMissed(job, now) && Count(s.running, job.id) < job.maxInstances
    ensures var r := RunDueJob(s, job, now, fails);
            Advance(s, job, job.nextRunTime.value, now, fails).Some? ==>
              && r.1 && r.0.trace[|r.0.trace| - 1] == Submitted(job.id, job.nextRunTime.value)
              && InFlight(r.0.trace, job.id) == InFlight(s.trace, job.id) + 1
  {
    var t := job.nextRunTime.value;
    var r := Advance(s, job, t, now, fails);
    AdvanceKeepsCount(s, job, t, now, fails, job.id);
    if r.Some? {
      SubmitCounts(r.value, job.id, t, Count(s.running, job.id) + 1, job.id);
    }
  }

  // ---- a change during a pass ----

  /** `_advance` writes back the job as the pass read it: a pause that comes after the reading is lost exactly when
      the run is advanced to a next fire time. */
  lemma PauseDuringAPass(s: State, fails: bool)
    requires ValidState(s) && s.due != [] && s.due[0].job.id in s.store.jobs && s.due[0].job.status == Running
    ensures var id, job, now := s.due[0].job.id, s.due[0].job, s.due[0].now;
            var paused := Step(s, PauseJob(id));
            var s' := Step(paused, RunNext(fails));
            (id in s'.store.jobs && s'.store.jobs[id].nextRunTime.Some? && s'.store.jobs[id].status == Running)
            <==> && (IsMissed(job, now) || Count(s.running, id) < job.maxInstances)
                 && !fails && job.trigger.Some? && job.trigger.value(job.nextRunTime, now).Fire?
  {
    var id := s.due[0].job.id;
    StepKeepsValid(s, PauseJob(id));
    PauseLostByAdvance(Rest(Step(s, PauseJob(id))), s.due[0].job, s.due[0].now, fails);
  }

  lemma PauseLostByAdvance(s: State, job: Job, now: int, fails: bool)
    requires job.id in s.store.jobs && s.store.jobs[job.id].nextRunTime.None? && job.nextRunTime.Some? && job.status == Running
    ensures var s' := RunDueJob(s, job, now, fails).0;
            (job.id in s'.store.jobs && s'.store.jobs[job.id].nextRunTime.Some? && s'.store.jobs[job.id].status == Running)
            <==> && (IsMissed(job, now) || Count(s.running, job.id) < job.maxInstances)
                 && !fails && job.trigger.Some? && job.trigger.value(job.nextRunTime, now).Fire?
  {
  }
}
