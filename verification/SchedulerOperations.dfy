/** What each operation of the scheduler does to the stored jobs, the counts and the events, in full. */
module SchedulerOperations {
  import opened Prelude
  import opened Triggers
  import opened CombiningTriggers
  import opened Jobs
  import opened JobStores
  import opened SchedulerSteps

  /** The first run time that a trigger gives. */
  ghost predicate GivesFirst(trigger: Option<Trigger>, now: int, first: Option<int>) {
    match trigger
    case None => first == None
    case Some(next) => (first.Some? && next(None, now) == Fire(first.value)) || (first.None? && next(None, now) == Never)
  }

  ghost predicate RaisesFirst(trigger: Option<Trigger>, now: int) {
    trigger.Some? && trigger.value(None, now) == Raises
  }

  /** Everything but the stored jobs and one published event is as before. */
  ghost predicate OnlyStores(s: State, s': State, order: seq<JobId>, jobs: map<JobId, Job>, e: Event) {
    s' == State(Memory(order, jobs), s.running, s.due, s.trace + [e])
  }

  /** `add_job` */
  lemma AddExactly(s: State, a: Action)
    requires ValidState(s) && a.AddJob?
    ensures AnswerOf(s, a) == TriggerRaised <==> RaisesFirst(a.trigger, a.now)
    ensures AnswerOf(s, a) == JobConflict <==> !RaisesFirst(a.trigger, a.now) && a.id in s.store.jobs && !a.replace
    ensures AnswerOf(s, a) != JobUnknown && (AnswerOf(s, a) != Accepted ==> Step(s, a) == s)
    ensures AnswerOf(s, a) == Accepted ==> exists first ::
              && GivesFirst(a.trigger, a.now, first)
              && OnlyStores(s, Step(s, a), if a.id in s.store.jobs then s.store.order else s.store.order + [a.id],
                   s.store.jobs[a.id := Job(a.id, a.trigger, a.graceSeconds, if a.maxInstances >= 1 then a.maxInstances else 1, Running, first)],
                   JobAdded(a.id))
  {
    if AnswerOf(s, a) == Accepted {
      var first := FirstRunTime(a.trigger, a.now).value;
      assert GivesFirst(a.trigger, a.now, first);
    }
  }

  /** `update_job`: a new trigger reschedules the job; a new grace time and limit replace the old ones. */
  lemma UpdateExactly(s: State, a: Action)
    requires ValidState(s) && a.UpdateJob?
    ensures AnswerOf(s, a) == JobUnknown <==> a.id !in s.store.jobs
    ensures AnswerOf(s, a) == TriggerRaised <==> a.id in s.store.jobs && RaisesFirst(a.newTrigger, a.now)
    ensures AnswerOf(s, a) != JobConflict && (AnswerOf(s, a) != Accepted ==> Step(s, a) == s)
    ensures AnswerOf(s, a) == Accepted ==> exists job ::
              && UpdatedTo(s.store.jobs[a.id], a, job)
              && OnlyStores(s, Step(s, a), s.store.order, s.store.jobs[a.id := job], JobUpdated(a.id))
  {
    if AnswerOf(s, a) == Accepted {
      var job := Updated(s.store.jobs[a.id], a.newTrigger, a.newGrace, a.newMax, a.now).value;
      assert UpdatedTo(s.store.jobs[a.id], a, job);
      assert OnlyStores(s, Step(s, a), s.store.order, s.store.jobs[a.id := job], JobUpdated(a.id));
    }
  }

  ghost predicate UpdatedTo(was: Job, a: Action, job: Job)
    requires a.UpdateJob?
  {
    && job.id == was.id && job.status == was.status
    && (a.newTrigger.None? ==> job.trigger == was.trigger && job.nextRunTime == was.nextRunTime)
    && (a.newTrigger.Some? ==> job.trigger == a.newTrigger && GivesFirst(a.newTrigger, a.now, job.nextRunTime))
    && (a.newGrace.None? ==> job.graceSeconds == was.graceSeconds) && (a.newGrace.Some? ==> job.graceSeconds == a.newGrace)
    && (a.newMax.None? ==> job.maxInstances == was.maxInstances)
    && (a.newMax.Some? ==> job.maxInstances == if a.newMax.value >= 1 then a.newMax.value else 1)
  }

  /** `pause_job`, `resume_job` and `remove_job` */
  lemma PauseResumeRemoveExactly(s: State, a: Action)
    requires ValidState(s) && (a.PauseJob? || a.ResumeJob? || a.RemoveJob?)
    ensures AnswerOf(s, a) == JobUnknown <==> a.id !in s.store.jobs
    ensures AnswerOf(s, a) == TriggerRaised <==> a.id in s.store.jobs && a.ResumeJob? && RaisesFirst(s.store.jobs[a.id].trigger, a.now)
    ensures AnswerOf(s, a) != JobConflict && (AnswerOf(s, a) != Accepted ==> Step(s, a) == s)
    ensures AnswerOf(s, a) == Accepted && a.PauseJob? ==>
              OnlyStores(s, Step(s, a), s.store.order,
                         s.store.jobs[a.id := s.store.jobs[a.id].(status := Paused, nextRunTime := None)], JobPaused(a.id))
    ensures AnswerOf(s, a) == Accepted && a.ResumeJob? ==> exists first ::
              && GivesFirst(s.store.jobs[a.id].trigger, a.now, first)
              && OnlyStores(s, Step(s, a), s.store.order,
                         s.store.jobs[a.id := s.store.jobs[a.id].(status := Running, nextRunTime := first)], JobResumed(a.id))
    ensures AnswerOf(s, a) == Accepted && a.RemoveJob? ==>
              OnlyStores(s, Step(s, a), Without(s.store.order, a.id), s.store.jobs - {a.id}, JobRemoved(a.id))
  {
    if AnswerOf(s, a) == Accepted && a.ResumeJob? {
      var first := FirstRunTime(s.store.jobs[a.id].trigger, a.now).value;
      assert GivesFirst(s.store.jobs[a.id].trigger, a.now, first);
    }
  }

  /** `_on_job_finished`: the run is counted off, and its end is published as what it was. A count never falls below
      zero, and a count of zero is not kept. */
  lemma FinishExactly(s: State, id: JobId, runTime: int, succeeded: bool)
    requires s.due != [] ==> s.due[0].job.nextRunTime.Some?
    ensures var s' := Step(s, Finish(id, runTime, succeeded));
            && s'.store == s.store && s'.due == s.due
            && s'.trace == s.trace + [if succeeded then JobSucceeded(id, runTime) else JobFailed(id, runTime)]
            && (forall i :: i != id ==> (i in s'.running <==> i in s.running) && (i in s.running ==> s'.running[i] == s.running[i]))
            && (id in s'.running <==> id in s.running && s.running[id] > 1)
            && (id in s'.running ==> s'.running[id] == s.running[id] - 1)
  {
  }

  /** `_run_due_job`: what it leaves in the store and in the counts. The trigger is asked for the time after the run
      time, at the time of the pass; a job that is not stored any more stays so. */
  lemma RunDueExactly(s: State, job: Job, now: int, fails: bool)
    requires job.nextRunTime.Some?
    ensures
      var (s', ok) := RunDueJob(s, job, now, fails);
      var id, t, jobs := job.id, job.nextRunTime.value, s.store.jobs;
      var late := job.graceSeconds.Some? && t + job.graceSeconds.value * 1_000_000 < now;
      var count := if id in s.running then s.running[id] else 0;
      var refused := !late && count >= job.maxInstances;
      && s'.due == s.due
      && (ok <==> refused || !(fails || (job.trigger.Some? && job.trigger.value(Some(t), now) == Raises)))
      && (!ok || refused ==> s'.store == s.store)
      && (ok && !refused ==>
            match job.trigger
            case None => s'.store.jobs == if id in jobs then jobs[id := job.(nextRunTime := None)] else jobs
            case Some(next) =>
              match next(Some(t), now)
              case Raises => false
              case Never => s'.store.jobs == jobs - {id}
              case Fire(u) => s'.store.jobs == if id in jobs then jobs[id := job.(nextRunTime := Some(u))] else jobs)
      && s'.running == if ok && !late && !refused then s.running[id := count + 1] else s.running
  {
    var t := job.nextRunTime.value;
    AdvanceExactly(s, job, t, now, fails);
    AdvanceExactly(s.Publish(JobMissed(job.id, t)), job, t, now, fails);
  }

  lemma AdvanceExactly(s: State, job: Job, t: int, now: int, fails: bool)
    ensures
      var r, jobs, id := Advance(s, job, t, now, fails), s.store.jobs, job.id;
      && (r.None? <==> fails || (job.trigger.Some? && job.trigger.value(Some(t), now) == Raises))
      && (r.Some? ==>
            && r.value.due == s.due && r.value.running == s.running
            && match job.trigger
               case None => r.value.store.jobs == if id in jobs then jobs[id := job.(nextRunTime := None)] else jobs
               case Some(next) =>
                 match next(Some(t), now)
                 case Raises => false
                 case Never => r.value.store.jobs == jobs - {id}
                 case Fire(u) => r.value.store.jobs == if id in jobs then jobs[id := job.(nextRunTime := Some(u))] else jobs)
  {
    assert job.id !in s.store.jobs ==> s.store.jobs - {job.id} == s.store.jobs;
  }
}
