/** The scheduler itself: each method takes the step that the step machine describes. */
module Schedulers {
  import opened Prelude
  import opened Triggers
  import opened CombiningTriggers
  import opened Jobs
  import opened JobStores
  import opened SchedulerSteps
  import opened SchedulerPasses
  import Steps = SchedulerSteps

  /** Running a due job does not look at the rest of the pass. */
  lemma DueDoesNotMatter(s: State, due: seq<Due>, job: Job, now: int, fails: bool)
    requires job.nextRunTime.Some?
    ensures var r := Steps.RunDueJob(s, job, now, fails);
            Steps.RunDueJob(s.(due := due), job, now, fails) == (r.0.(due := due), r.1)
  {
  }

  class Scheduler {
    const store: MemoryJobStore
    var running: map<JobId, int>
    var trace: seq<Event>

    /** The state of the step machine, with what is left of a pass. */
    function Now(due: seq<Due>): State
      reads this, store
    {
      State(store.Value(), running, due, trace)
    }

    ghost predicate Valid()
      reads this, store
    {
      store.Valid()
    }

    constructor (store: MemoryJobStore)
      requires store.Valid()
      ensures Valid() && this.store == store && Now([]) == State(store.Value(), map[], [], [])
    {
      this.store, running, trace := store, map[], [];
    }

    method Publish(e: Event)
      modifies this
      ensures Now([]) == old(Now([])).Publish(e)
    {
      trace := trace + [e];
    }

    // ---- operations on jobs ----

    method AddJob(id: JobId, trigger: Option<Trigger>, graceSeconds: Option<int>, maxInstances: int, replace: bool, now: int)
      returns (r: Answer)
      requires Valid()
      modifies this, store
      ensures Valid() && Now([]) == Step(old(Now([])), Action.AddJob(id, trigger, graceSeconds, maxInstances, replace, now))
      ensures r == AnswerOf(old(Now([])), Action.AddJob(id, trigger, graceSeconds, maxInstances, replace, now))
    {
      var job := NewJob(id, trigger, graceSeconds, maxInstances, now);
      if job.None? {
        return TriggerRaised;
      }
      var stored: Response;
      if replace && store.Get(id).Some? {
        stored := store.Update(job.value);
      } else {
        stored := store.Add(job.value);
      }
      if stored == Conflict {
        return JobConflict;
      }
      Publish(JobAdded(id));
      r := Accepted;
    }

    method UpdateJob(id: JobId, newTrigger: Option<Trigger>, newGrace: Option<int>, newMax: Option<int>, now: int)
      returns (r: Answer)
      requires Valid()
      modifies this, store
      ensures Valid() && Now([]) == Step(old(Now([])), Action.UpdateJob(id, newTrigger, newGrace, newMax, now))
      ensures r == AnswerOf(old(Now([])), Action.UpdateJob(id, newTrigger, newGrace, newMax, now))
    {
      var found := store.Get(id);
      if found.None? {
        return JobUnknown;
      }
      var job := Updated(found.value, newTrigger, newGrace, newMax, now);
      if job.None? {
        return TriggerRaised;
      }
      var _ := store.Update(job.value);
      Publish(JobUpdated(id));
      r := Accepted;
    }

    method PauseJob(id: JobId) returns (r: Answer)
      requires Valid()
      modifies this, store
      ensures Valid() && Now([]) == Step(old(Now([])), Action.PauseJob(id))
      ensures r == AnswerOf(old(Now([])), Action.PauseJob(id))
    {
      var found := store.Get(id);
      if found.None? {
        return JobUnknown;
      }
      var _ := store.Update(found.value.(status := Paused, nextRunTime := None));
      Publish(JobPaused(id));
      r := Accepted;
    }

    method ResumeJob(id: JobId, now: int) returns (r: Answer)
      requires Valid()
      modifies this, store
      ensures Valid() && Now([]) == Step(old(Now([])), Action.ResumeJob(id, now))
      ensures r == AnswerOf(old(Now([])), Action.ResumeJob(id, now))
    {
      var found := store.Get(id);
      if found.None? {
        return JobUnknown;
      }
      var first := FirstRunTime(found.value.trigger, now);
      if first.None? {
        return TriggerRaised;
      }
      var _ := store.Update(found.value.(status := Running, nextRunTime := first.value));
      Publish(JobResumed(id));
      r := Accepted;
    }

    method RemoveJob(id: JobId) returns (r: Answer)
      requires Valid()
      modifies this, store
      ensures Valid() && Now([]) == Step(old(Now([])), Action.RemoveJob(id))
      ensures r == AnswerOf(old(Now([])), Action.RemoveJob(id))
    {
      if store.Get(id).None? {
        return JobUnknown;
      }
      var _ := store.Remove(id);
      Publish(JobRemoved(id));
      r := Accepted;
    }

    // ---- the main loop ----

    /** `_advance`. No result is an exception. */
    method Advance(job: Job, runTime: int, now: int, fails: bool) returns (ok: bool)
      requires Valid()
      modifies this, store
      ensures Valid() && running == old(running)
      ensures ok <==> Steps.Advance(old(Now([])), job, runTime, now, fails).Some?
      ensures Now([]) == if ok then Steps.Advance(old(Now([])), job, runTime, now, fails).value else old(Now([]))
    {
      var advanced := job.(nextRunTime := None);
      if job.trigger.Some? {
        var next := job.trigger.value(Some(runTime), now);
        if next.Raises? || fails {
          return false;
        } else if next.Never? {
          var _ := store.Remove(job.id);
          Publish(JobRemoved(job.id));
          return true;
        }
        advanced := job.(nextRunTime := Some(next.time));
      } else if fails {
        return false;
      }
      var _ := store.Update(advanced);
      ok := true;
    }

    /** `_run_due_job`. No result is an exception. */
    method RunDueJob(job: Job, now: int, fails: bool) returns (ok: bool)
      requires Valid() && job.nextRunTime.Some?
      modifies this, store
      ensures Valid() && (Now([]), ok) == Steps.RunDueJob(old(Now([])), job, now, fails)
    {
      var runTime := job.nextRunTime.value;
      if IsMissed(job, now) {
        Publish(JobMissed(job.id, runTime));
        ok := Advance(job, runTime, now, fails);
        return;
      }
      var count := Count(running, job.id);
      if count >= job.maxInstances {
        Publish(JobMaxInstances(job.id, runTime));
        return true;
      }
      ok := Advance(job, runTime, now, fails);
      if ok {
        running := running[job.id := count + 1];
        Publish(JobStarted(job.id, runTime));
        Publish(Submitted(job.id, runTime));
      }
    }

    /** `_process_due`: reads the due jobs and runs them until one raises. */
    method ProcessDue(now: int, fails: JobId -> bool)
      requires Valid()
      modifies this, store
      ensures Valid() && ValidState(PollStep(old(Now([])), now))
      ensures Now([]) == FinishPass(PollStep(old(Now([])), now), fails)
      ensures
        (forall id :: id in old(store.jobs) ==> !RaisesWhenRun(old(store.jobs[id]), now, fails(id))) ==>
          forall id :: Decisions(trace, id)
                    == Decisions(old(trace), id) + DecisionFor(old(store.jobs), old(running), id, now)
    {
      PollKeepsValid(Now([]), now);
      if forall id :: id in store.jobs ==> !RaisesWhenRun(store.jobs[id], now, fails(id)) {
        PassDecides(Now([]), now, fails);
      }
      var due := Snapshots(store.GetDue(now), now);
      for i := 0 to |due|
        invariant Valid() && ValidState(Now(due[i..]))
        invariant FinishPass(Now(due[i..]), fails) == FinishPass(PollStep(old(Now([])), now), fails)
      {
        ghost var before := Now([]);
        assert due[i..][0] == due[i] && due[i..][1..] == due[i + 1..];
        RunNextKeepsValid(Now(due[i..]), fails(due[i].job.id));
        DueDoesNotMatter(before, due[i + 1..], due[i].job, due[i].now, fails(due[i].job.id));
        var ok := RunDueJob(due[i].job, due[i].now, fails(due[i].job.id));
        if !ok {
          return;
        }
      }
    }

    /** `_on_job_finished` */
    method OnJobFinished(id: JobId, runTime: int, succeeded: bool)
      requires Valid()
      modifies this
      ensures Valid() && Now([]) == Step(old(Now([])), Finish(id, runTime, succeeded))
    {
      var count := (if id in running then running[id] else 1) - 1;
      if count <= 0 {
        running := running - {id};
      } else {
        running := running[id := count];
      }
      Publish(if succeeded then JobSucceeded(id, runTime) else JobFailed(id, runTime));
    }
  }
}
