/** Dispatching at most once over runs that also add, resume and reschedule the job. */
module SchedulerRestarts {
  import opened Prelude
  import opened Triggers
  import opened CombiningTriggers
  import opened Jobs
  import opened JobStores
  import opened SchedulerSteps
  import opened SchedulerRuns
  import opened SchedulerTheorems

  ghost predicate Progresses(trigger: Option<Trigger>) {
    trigger.Some? ==> Progressing(trigger.value)
  }

  predicate AfterAll(t: Option<int>, times: seq<int>) {
    t.Some? ==> forall u :: u in times ==> u < t.value
  }

  /** The job's trigger progresses, and the job waits for a time after all those submitted. */
  ghost predicate WaitsAhead(job: Job, submitted: seq<int>) {
    Progresses(job.trigger) && AfterAll(job.nextRunTime, submitted)
  }

  /** No time was submitted twice; what the store and the pass under way hold of the job lies ahead. */
  ghost predicate Ahead(s: State, id: JobId) {
    var submitted := Submissions(s.trace, id);
    && ValidState(s) && StrictlyIncreasing(submitted)
    && (id in s.store.jobs ==> WaitsAhead(s.store.jobs[id], submitted))
    && forall d :: d in s.due && d.job.id == id ==> WaitsAhead(d.job, submitted)
  }

  /** If the action is accepted and gives the job a new first run time, then from a progressing trigger and after all
      submitted times. */
  ghost predicate RestartsLater(s: State, a: Action, id: JobId) {
    AnswerOf(s, a) == Accepted ==>
      var submitted := Submissions(s.trace, id);
      match a
      case AddJob(i, trigger, _, _, _, now) => i == id ==> Progresses(trigger) && AfterAll(FirstRunTime(trigger, now).value, submitted)
      case UpdateJob(i, trigger, _, _, now) =>
        i == id && trigger.Some? ==> Progresses(trigger) && AfterAll(FirstRunTime(trigger, now).value, submitted)
      case ResumeJob(i, now) => i == id ==> AfterAll(FirstRunTime(s.store.jobs[id].trigger, now).value, submitted)
      case _ => true
  }

  // ---- operations on jobs ----

  lemma StoredAhead(s: State, op: Operation, e: Event, id: JobId)
    requires Ahead(s, id) && SubmittedBy(e, id) == [] && !op.Remove?
    requires op.Add? ==> op.job.id !in s.store.jobs
    requires op.Update? ==> op.job.id in s.store.jobs
    ensures Ahead(s.Stored(op).Publish(e), id) <==> (op.job.id == id ==> WaitsAhead(op.job, Submissions(s.trace, id)))
  {
    StoredIsValid(s, op);
    Published(s.Stored(op), e, id);
    var s' := s.Stored(op).Publish(e);
    assert s'.store.jobs == s.store.jobs[op.job.id := op.job] && s'.due == s.due;
    assert Submissions(s'.trace, id) == Submissions(s.trace, id);
  }

  lemma RemovedAhead(s: State, i: JobId, e: Event, id: JobId)
    requires Ahead(s, id) && SubmittedBy(e, id) == []
    ensures Ahead(s.Stored(Remove(i)).Publish(e), id)
  {
    StoredIsValid(s, Remove(i));
    Published(s.Stored(Remove(i)), e, id);
  }

  /** An operation keeps the job ahead if and only if it restarts it later than everything submitted. */
  lemma OperationStaysAhead(s: State, a: Action, id: JobId)
    requires Ahead(s, id) && !a.Poll? && !a.RunNext? && !a.Finish?
    ensures Ahead(Step(s, a), id) <==> RestartsLater(s, a, id)
  {
    if AnswerOf(s, a) == Accepted {
      match a
      case AddJob(i, t, grace, max, replace, now) =>
        var job := NewJob(i, t, grace, max, now).value;
        StoredAhead(s, if i in s.store.jobs then Update(job) else Add(job), JobAdded(i), id);
      case UpdateJob(i, t, grace, max, now) =>
        StoredAhead(s, Update(Updated(s.store.jobs[i], t, grace, max, now).value), JobUpdated(i), id);
      case PauseJob(i) =>
        StoredAhead(s, Update(s.store.jobs[i].(status := Paused, nextRunTime := None)), JobPaused(i), id);
      case ResumeJob(i, now) =>
        var first := FirstRunTime(s.store.jobs[i].trigger, now).value;
        StoredAhead(s, Update(s.store.jobs[i].(status := Running, nextRunTime := first)), JobResumed(i), id);
      case RemoveJob(i) => RemovedAhead(s, i, JobRemoved(i), id);
    } else {
      RejectedChangesNothing(s, a);
    }
  }

  // ---- steps of the main loop ----

  lemma PollStaysAhead(s: State, now: int, id: JobId)
    requires Ahead(s, id)
    ensures Ahead(PollStep(s, now), id)
  {
    PollKeepsValid(s, now);
    MemoryDueIsExact(s.store, now);
  }

  lemma FinishStaysAhead(s: State, i: JobId, t: int, succeeded: bool, id: JobId)
    requires Ahead(s, id)
    ensures Ahead(FinishStep(s, i, t, succeeded), id)
  {
    Published(s.(running := Finished(s.running, i)), if succeeded then JobSucceeded(i, t) else JobFailed(i, t), id);
  }

  /** What is known of a job whose turn has come. */
  ghost predicate HasTurn(s: State, job: Job, now: int, id: JobId) {
    && Ahead(s, id) && job.nextRunTime.Some? && job.nextRunTime.value <= now
    && (job.id == id ==> WaitsAhead(job, Submissions(s.trace, id)) && forall d :: d in s.due ==> d.job.id != id)
  }

  lemma AnswerIsAhead(job: Job, now: int, submitted: seq<int>)
    requires WaitsAhead(job, submitted) && job.trigger.Some? && job.nextRunTime.Some? && job.nextRunTime.value <= now
    requires job.trigger.value(job.nextRunTime, now).Fire?
    ensures var t := job.trigger.value(job.nextRunTime, now).time;
            job.nextRunTime.value < t && AfterAll(Some(t), submitted)
  {
    assert job.trigger.value(Some(job.nextRunTime.value), now).Fire?;
  }

  /** `_advance` has left the job, if it is still stored, with a time after the one that is handled. */
  ghost predicate Advanced(s: State, job: Job, s': State, id: JobId)
    requires job.nextRunTime.Some?
  {
    && Ahead(s', id) && s'.due == s.due && Submissions(s'.trace, id) == Submissions(s.trace, id)
    && (job.id == id && StoredTime(s', id).Some? ==> job.nextRunTime.value < StoredTime(s', id).value)
  }

  lemma AdvancedByUpdate(s: State, job: Job, now: int, next: Option<int>, id: JobId)
    requires HasTurn(s, job, now, id)
    requires next.Some? && job.id == id ==> job.nextRunTime.value < next.value && AfterAll(next, Submissions(s.trace, id))
    ensures Advanced(s, job, s.Stored(Update(job.(nextRunTime := next))), id)
  {
    StoredIsValid(s, Update(job.(nextRunTime := next)));
  }

  lemma AdvancedByRemoval(s: State, job: Job, now: int, id: JobId)
    requires HasTurn(s, job, now, id)
    ensures Advanced(s, job, s.Stored(Remove(job.id)).Publish(JobRemoved(job.id)), id)
  {
    RemovedAhead(s, job.id, JobRemoved(job.id), id);
    Published(s.Stored(Remove(job.id)), JobRemoved(job.id), id);
  }

  lemma AdvancedByAnswer(s: State, job: Job, now: int, id: JobId)
    requires HasTurn(s, job, now, id) && job.trigger.Some? && job.trigger.value(job.nextRunTime, now).Fire?
    ensures Advanced(s, job, s.Stored(Update(job.(nextRunTime := Some(job.trigger.value(job.nextRunTime, now).time)))), id)
  {
    if job.id == id {
      AnswerIsAhead(job, now, Submissions(s.trace, id));
    }
    AdvancedByUpdate(s, job, now, Some(job.trigger.value(job.nextRunTime, now).time), id);
  }

  lemma AdvanceAhead(s: State, job: Job, now: int, fails: bool, id: JobId)
    requires HasTurn(s, job, now, id)
    ensures var r := Advance(s, job, job.nextRunTime.value, now, fails);
            r.Some? ==> Advanced(s, job, r.value, id)
  {
    assert Some(job.nextRunTime.value) == job.nextRunTime;
    if job.trigger.None? {
      AdvancedByUpdate(s, job, now, None, id);
    } else if job.trigger.value(job.nextRunTime, now).Never? {
      AdvancedByRemoval(s, job, now, id);
    } else if job.trigger.value(job.nextRunTime, now).Fire? {
      AdvancedByAnswer(s, job, now, id);
    }
  }

  lemma MissAhead(s: State, job: Job, now: int, fails: bool, id: JobId)
    requires HasTurn(s, job, now, id)
    ensures Ahead(Miss(s, job, now, fails).0, id)
  {
    var missed := JobMissed(job.id, job.nextRunTime.value);
    Published(s, missed, id);
    AdvanceAhead(s.Publish(missed), job, now, fails, id);
  }

  lemma SubmitAhead(s: State, i: JobId, t: int, count: int, id: JobId)
    requires Ahead(s, id)
    requires i == id ==> AfterAll(Some(t), Submissions(s.trace, id)) && forall d :: d in s.due ==> d.job.id != id
    requires i == id && StoredTime(s, id).Some? ==> t < StoredTime(s, id).value
    ensures Ahead(Submit(s, i, t, count), id)
  {
    SubmissionsAfter(s, i, t, count, id);
    if i == id {
      AppendLater(Submissions(s.trace, id), t);
    }
  }

  lemma SubmissionsAfter(s: State, i: JobId, t: int, count: int, id: JobId)
    ensures Submissions(Submit(s, i, t, count).trace, id) == Submissions(s.trace, id) + (if i == id then [t] else [])
  {
    var s1 := s.(running := s.running[i := count]);
    Published(s1, JobStarted(i, t), id);
    Published(s1.Publish(JobStarted(i, t)), Submitted(i, t), id);
  }

  lemma DispatchAhead(s: State, job: Job, now: int, fails: bool, id: JobId)
    requires HasTurn(s, job, now, id)
    ensures Ahead(Dispatch(s, job, now, fails).0, id)
  {
    AdvanceAhead(s, job, now, fails, id);
    var r := Advance(s, job, job.nextRunTime.value, now, fails);
    if r.Some? {
      SubmitAhead(r.value, job.id, job.nextRunTime.value, Count(s.running, job.id) + 1, id);
    }
  }

  lemma RunDueAhead(s: State, job: Job, now: int, fails: bool, id: JobId)
    requires HasTurn(s, job, now, id)
    ensures Ahead(RunDueJob(s, job, now, fails).0, id)
  {
    if IsMissed(job, now) {
      MissAhead(s, job, now, fails, id);
    } else if Count(s.running, job.id) >= job.maxInstances {
      Published(s, JobMaxInstances(job.id, job.nextRunTime.value), id);
    } else {
      DispatchAhead(s, job, now, fails, id);
    }
  }

  lemma RunNextStaysAhead(s: State, fails: bool, id: JobId)
    requires Ahead(s, id)
    ensures Ahead(RunNextStep(s, fails), id)
  {
    if s.due != [] {
      var head := s.due[0];
      assert head in s.due;
      HeadIsOnce(s);
      assert HasTurn(Rest(s), head.job, head.now, id);
      RunDueAhead(Rest(s), head.job, head.now, fails, id);
    }
  }

  // ---- runs ----

  lemma StepStaysAhead(s: State, a: Action, id: JobId)
    requires Ahead(s, id) && RestartsLater(s, a, id)
    ensures Ahead(Step(s, a), id)
  {
    match a
    case Poll(now) => PollStaysAhead(s, now, id);
    case RunNext(fails) => RunNextStaysAhead(s, fails, id);
    case Finish(i, t, succeeded) => FinishStaysAhead(s, i, t, succeeded, id);
    case _ => OperationStaysAhead(s, a, id);
  }

  ghost predicate AlwaysRestartsLater(s: State, actions: seq<Action>, id: JobId)
    requires ValidState(s)
    decreases |actions|
  {
    actions != [] ==>
      RestartsLater(s, actions[0], id) && ValidState(Step(s, actions[0]))
      && AlwaysRestartsLater(Step(s, actions[0]), actions[1..], id)
  }

  /** Over every run, with writes failing at will and the job added again, replaced, resumed and rescheduled any number
      of times, no run time is dispatched twice and all dispatched ones lie before the stored one, as long as every
      such restart answers with a time after those dispatched so far. */
  lemma {:induction false} DispatchedOnceOverRestarts(s: State, actions: seq<Action>, id: JobId)
    requires Ahead(s, id) && AlwaysRestartsLater(s, actions, id)
    ensures var s' := RunSteps(s, actions);
            && Ahead(s', id)
            && StrictlyIncreasing(Submissions(s'.trace, id))
            && AfterAll(StoredTime(s', id), Submissions(s'.trace, id))
    decreases |actions|
  {
    if actions != [] {
      StepStaysAhead(s, actions[0], id);
      DispatchedOnceOverRestarts(Step(s, actions[0]), actions[1..], id);
    }
  }

  /** Nothing has happened yet. */
  lemma StartsAhead(id: JobId)
    ensures Ahead(State(Memory([], map[]), map[], [], []), id)
  {
  }
}
