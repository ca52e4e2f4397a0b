/** How each step of the scheduler moves one job along its run times. */
module SchedulerRuns {
  import opened Prelude
  import opened Triggers
  import opened CombiningTriggers
  import opened Jobs
  import opened JobStores
  import opened SchedulerSteps

  // ---- reading the trace ----

  function HandledBy(e: Event, id: JobId): seq<int> {
    if (e.Submitted? || e.JobMissed?) && e.id == id then [e.runTime] else []
  }

  function SubmittedBy(e: Event, id: JobId): seq<int> {
    if e.Submitted? && e.id == id then [e.runTime] else []
  }

  /** The run times of a job that were missed or submitted, in order. */
  function Handled(trace: seq<Event>, id: JobId): seq<int> {
    if trace == [] then [] else Handled(trace[..|trace| - 1], id) + HandledBy(trace[|trace| - 1], id)
  }

  /** The run times for which a job was handed to the executor, in order. */
  function Submissions(trace: seq<Event>, id: JobId): seq<int> {
    if trace == [] then [] else Submissions(trace[..|trace| - 1], id) + SubmittedBy(trace[|trace| - 1], id)
  }

  lemma Published(s: State, e: Event, id: JobId)
    ensures Handled(s.Publish(e).trace, id) == Handled(s.trace, id) + HandledBy(e, id)
    ensures Submissions(s.Publish(e).trace, id) == Submissions(s.trace, id) + SubmittedBy(e, id)
  {
    assert s.Publish(e).trace[..|s.trace|] == s.trace;
  }

  // ---- the pending run time ----

  function StoredTime(s: State, id: JobId): Option<int> {
    if id in s.store.jobs then s.store.jobs[id].nextRunTime else None
  }

  /** The run time of the job in the pass under way. */
  function SnapshotTime(due: seq<Due>, id: JobId): Option<int> {
    if due == [] then None
    else if due[0].job.id == id then due[0].job.nextRunTime
    else SnapshotTime(due[1..], id)
  }

  /** The run time that the scheduler will handle next: that of the pass under way, else that of the store. */
  function Pending(s: State, id: JobId): Option<int> {
    if SnapshotTime(s.due, id).Some? then SnapshotTime(s.due, id) else StoredTime(s, id)
  }

  datatype Progress = Progress(handled: seq<int>, submitted: seq<int>, pending: Option<int>)

  function ProgressOf(s: State, id: JobId): Progress {
    Progress(Handled(s.trace, id), Submissions(s.trace, id), Pending(s, id))
  }

  /** The job has this trigger, and the pass under way does not contradict the store. */
  ghost predicate Tracked(s: State, id: JobId, trigger: Option<Trigger>) {
    && ValidState(s)
    && (id in s.store.jobs ==> s.store.jobs[id].trigger == trigger)
    && forall d :: d in s.due && d.job.id == id ==>
         d.job.trigger == trigger && (StoredTime(s, id).Some? ==> StoredTime(s, id) == d.job.nextRunTime)
  }

  /** The action does not add, resume or reschedule the job. */
  predicate Quiet(a: Action, id: JobId) {
    match a
    case AddJob(i, _, _, _, _, _) => i != id
    case UpdateJob(i, trigger, _, _, _) => i == id ==> trigger.None?
    case ResumeJob(i, _) => i != id
    case _ => true
  }

  // ---- what one step does to a job ----

  predicate SameOrNone(before: Option<int>, after: Option<int>) {
    after == before || after == None
  }

  predicate Stays(x: Progress, y: Progress) {
    y.handled == x.handled && y.submitted == x.submitted && SameOrNone(x.pending, y.pending)
  }

  /** The pending time was missed, but stays pending in the store. */
  predicate MissedOnly(x: Progress, y: Progress) {
    && x.pending.Some? && y.handled == x.handled + [x.pending.value] && y.submitted == x.submitted
    && SameOrNone(x.pending, y.pending)
  }

  /** The trigger's answer after fire time `t`, at some time not before `t`. */
  ghost predicate Follows(trigger: Option<Trigger>, t: int, next: Option<int>) {
    next.Some? ==> trigger.Some? && exists now :: t <= now && trigger.value(Some(t), now) == Fire(next.value)
  }

  /** The pending time was missed or submitted, and the trigger gave the next one. */
  ghost predicate Advances(x: Progress, y: Progress, trigger: Option<Trigger>) {
    && x.pending.Some? && y.handled == x.handled + [x.pending.value]
    && (y.submitted == x.submitted || y.submitted == x.submitted + [x.pending.value])
    && Follows(trigger, x.pending.value, y.pending)
  }

  /** The step publishes a missed run of the job and then fails to advance it. */
  predicate FailedMiss(s: State, a: Action, id: JobId)
    requires s.due != [] ==> s.due[0].job.nextRunTime.Some?
  {
    && a.RunNext? && s.due != [] && s.due[0].job.id == id && IsMissed(s.due[0].job, s.due[0].now)
    && Advance(s, s.due[0].job, s.due[0].job.nextRunTime.value, s.due[0].now, a.fails).None?
  }

  lemma {:induction false} NoSnapshot(due: seq<Due>, id: JobId)
    requires forall d :: d in due ==> d.job.id != id
    ensures SnapshotTime(due, id) == None
  {
    if due != [] {
      forall d | d in due[1..] ensures d.job.id != id { assert d in due; }
      NoSnapshot(due[1..], id);
    }
  }

  lemma {:induction false} OneSnapshot(due: seq<Due>, id: JobId, k: nat)
    requires k < |due| && due[k].job.id == id
    requires forall i :: 0 <= i < k ==> due[i].job.id != id
    ensures SnapshotTime(due, id) == due[k].job.nextRunTime
  {
    if k > 0 {
      OneSnapshot(due[1..], id, k - 1);
    }
  }

  lemma {:induction false} SnapshotIsDue(due: seq<Due>, id: JobId)
    requires SnapshotTime(due, id).Some?
    ensures exists d :: d in due && d.job.id == id && d.job.nextRunTime == SnapshotTime(due, id)
  {
    if due[0].job.id == id {
      assert due[0] in due;
    } else {
      SnapshotIsDue(due[1..], id);
      var d :| d in due[1..] && d.job.id == id && d.job.nextRunTime == SnapshotTime(due[1..], id);
      assert d in due;
    }
  }

  /** Dropping the rest of a pass leaves the stored time, which is the same unless the job was paused or removed. */
  lemma PassDropped(s: State, id: JobId, trigger: Option<Trigger>)
    requires Tracked(s, id, trigger)
    ensures SameOrNone(Pending(s, id), StoredTime(s, id))
  {
    if SnapshotTime(s.due, id).Some? {
      SnapshotIsDue(s.due, id);
    }
  }

  /** The heads of a pass are distinct. */
  lemma HeadIsOnce(s: State)
    requires ValidState(s) && s.due != []
    ensures SnapshotTime(s.due[1..], s.due[0].job.id) == None
    ensures forall d :: d in s.due[1..] ==> d in s.due && d.job.id != s.due[0].job.id
  {
    NoSnapshot(s.due[1..], s.due[0].job.id);
  }

  // ---- steps on the store ----

  /** Storing a job leaves the others alone. */
  lemma StoredElsewhere(s: State, op: Operation, id: JobId, trigger: Option<Trigger>)
    requires Tracked(s, id, trigger)
    requires (match op case Add(job) => job.id != id case Update(job) => job.id != id case Remove(i) => i != id)
    ensures Tracked(s.Stored(op), id, trigger) && Pending(s.Stored(op), id) == Pending(s, id)
    ensures StoredTime(s.Stored(op), id) == StoredTime(s, id)
  {
    StoredIsValid(s, op);
  }

  /** Storing the job itself with the same trigger, and the same run time or none, does not contradict the pass. */
  lemma StoredWithSameTime(s: State, job: Job, id: JobId, trigger: Option<Trigger>)
    requires Tracked(s, id, trigger) && job.id == id && job.trigger == trigger && id in s.store.jobs
    requires SameOrNone(StoredTime(s, id), job.nextRunTime)
    ensures Tracked(s.Stored(Update(job)), id, trigger)
    ensures SameOrNone(Pending(s, id), Pending(s.Stored(Update(job)), id))
  {
    StoredIsValid(s, Update(job));
  }

  lemma RemovedFromStore(s: State, id: JobId, trigger: Option<Trigger>)
    requires Tracked(s, id, trigger)
    ensures Tracked(s.Stored(Remove(id)), id, trigger)
    ensures SameOrNone(Pending(s, id), Pending(s.Stored(Remove(id)), id))
  {
    StoredIsValid(s, Remove(id));
  }

  lemma PublishedTracked(s: State, e: Event, id: JobId, trigger: Option<Trigger>)
    requires Tracked(s, id, trigger)
    ensures Tracked(s.Publish(e), id, trigger) && Pending(s.Publish(e), id) == Pending(s, id)
    ensures StoredTime(s.Publish(e), id) == StoredTime(s, id)
  {
  }

  /** Every operation but those of the main loop leaves the job where it is, or without a run time. */
  lemma StoreStepStays(s: State, a: Action, id: JobId, trigger: Option<Trigger>)
    requires Tracked(s, id, trigger) && Quiet(a, id) && !a.Poll? && !a.RunNext? && !a.Finish?
    ensures Tracked(Step(s, a), id, trigger) && Stays(ProgressOf(s, id), ProgressOf(Step(s, a), id))
  {
    match a
    case AddJob(i, t, grace, max, replace, now) =>
      var job := NewJob(i, t, grace, max, now);
      if job.Some? {
        AddStays(s, job.value, replace, id, trigger);
      }
    case UpdateJob(i, t, grace, max, now) =>
      if i in s.store.jobs {
        var job := Updated(s.store.jobs[i], t, grace, max, now);
        if job.Some? {
          UpdateStays(s, job.value, JobUpdated(i), id, trigger);
        }
      }
    case PauseJob(i) =>
      if i in s.store.jobs {
        UpdateStays(s, s.store.jobs[i].(status := Paused, nextRunTime := None), JobPaused(i), id, trigger);
      }
    case ResumeJob(i, now) =>
      if i in s.store.jobs {
        var first := FirstRunTime(s.store.jobs[i].trigger, now);
        if first.Some? {
          UpdateStays(s, s.store.jobs[i].(status := Running, nextRunTime := first.value), JobResumed(i), id, trigger);
        }
      }
    case RemoveJob(i) =>
      if i in s.store.jobs {
        RemoveStays(s, i, id, trigger);
      }
  }

  lemma AddStays(s: State, job: Job, replace: bool, id: JobId, trigger: Option<Trigger>)
    requires Tracked(s, id, trigger) && job.id != id
    ensures var s' := AddStep(s, job, replace);
            Tracked(s', id, trigger) && Stays(ProgressOf(s, id), ProgressOf(s', id))
  {
    StoredElsewhere(s, Update(job), id, trigger);
    StoredElsewhere(s, Add(job), id, trigger);
    Published(s.Stored(Update(job)), JobAdded(job.id), id);
    Published(s.Stored(Add(job)), JobAdded(job.id), id);
  }

  lemma UpdateStays(s: State, job: Job, e: Event, id: JobId, trigger: Option<Trigger>)
    requires Tracked(s, id, trigger) && job.id in s.store.jobs && HandledBy(e, id) == []
    requires job.id == id ==> job.trigger == trigger && SameOrNone(StoredTime(s, id), job.nextRunTime)
    ensures var s' := s.Stored(Update(job)).Publish(e);
            Tracked(s', id, trigger) && Stays(ProgressOf(s, id), ProgressOf(s', id))
  {
    if job.id == id {
      StoredWithSameTime(s, job, id, trigger);
    } else {
      StoredElsewhere(s, Update(job), id, trigger);
    }
    Published(s.Stored(Update(job)), e, id);
  }

  lemma RemoveStays(s: State, i: JobId, id: JobId, trigger: Option<Trigger>)
    requires Tracked(s, id, trigger)
    ensures var s' := s.Stored(Remove(i)).Publish(JobRemoved(i));
            Tracked(s', id, trigger) && Stays(ProgressOf(s, id), ProgressOf(s', id))
  {
    if i == id {
      RemovedFromStore(s, id, trigger);
    } else {
      StoredElsewhere(s, Remove(i), id, trigger);
    }
    Published(s.Stored(Remove(i)), JobRemoved(i), id);
  }

  // ---- steps of the main loop ----

  /** Reading the due jobs takes their run times over from the store. */
  lemma PollStays(s: State, now: int, id: JobId, trigger: Option<Trigger>)
    requires Tracked(s, id, trigger)
    ensures Tracked(PollStep(s, now), id, trigger)
    ensures ProgressOf(PollStep(s, now), id) == ProgressOf(s, id)
  {
    PollKeepsValid(s, now);
    if s.due == [] {
      MemoryDueIsExact(s.store, now);
      var list := MemoryDue(s.store, now);
      var due := Snapshots(list, now);
      forall d | d in due
        ensures d.job.id in s.store.jobs && d.job == s.store.jobs[d.job.id]
      {
      }
      if k: nat :| k < |due| && due[k].job.id == id {
        OneSnapshot(due, id, k);
      } else {
        NoSnapshot(due, id);
      }
    }
  }

  /** The pass without its head. */
  function Rest(s: State): State
    requires s.due != []
  {
    s.(due := s.due[1..])
  }

  lemma RestIsTracked(s: State, id: JobId, trigger: Option<Trigger>)
    requires Tracked(s, id, trigger) && s.due != []
    ensures Tracked(Rest(s), id, trigger)
    ensures s.due[0].job.id != id ==> ProgressOf(Rest(s), id) == ProgressOf(s, id)
  {
    HeadIsOnce(s);
  }

  lemma DroppingThePassStays(s: State, id: JobId, trigger: Option<Trigger>)
    requires Tracked(s, id, trigger)
    ensures Tracked(s.(due := []), id, trigger) && Stays(ProgressOf(s, id), ProgressOf(s.(due := []), id))
  {
    PassDropped(s, id, trigger);
  }

  // ---- running another job ----

  lemma AdvanceElsewhere(s: State, job: Job, runTime: int, now: int, fails: bool, id: JobId, trigger: Option<Trigger>)
    requires Tracked(s, id, trigger) && job.id != id
    ensures var r := Advance(s, job, runTime, now, fails);
            r.Some? ==> Tracked(r.value, id, trigger) && ProgressOf(r.value, id) == ProgressOf(s, id)
  {
    match job.trigger
    case None => StoredElsewhere(s, Update(job.(nextRunTime := None)), id, trigger);
    case Some(next) =>
      match next(Some(runTime), now)
      case Raises =>
      case Never =>
        StoredElsewhere(s, Remove(job.id), id, trigger);
        Published(s.Stored(Remove(job.id)), JobRemoved(job.id), id);
      case Fire(t) => StoredElsewhere(s, Update(job.(nextRunTime := Some(t))), id, trigger);
  }

  lemma MissElsewhere(s: State, job: Job, now: int, fails: bool, id: JobId, trigger: Option<Trigger>)
    requires Tracked(s, id, trigger) && job.id != id && job.nextRunTime.Some?
    ensures var r := Miss(s, job, now, fails).0;
            Tracked(r, id, trigger) && ProgressOf(r, id) == ProgressOf(s, id)
  {
    var t := job.nextRunTime.value;
    Published(s, JobMissed(job.id, t), id);
    AdvanceElsewhere(s.Publish(JobMissed(job.id, t)), job, t, now, fails, id, trigger);
  }

  lemma DispatchElsewhere(s: State, job: Job, now: int, fails: bool, id: JobId, trigger: Option<Trigger>)
    requires Tracked(s, id, trigger) && job.id != id && job.nextRunTime.Some?
    ensures var r := Dispatch(s, job, now, fails).0;
            Tracked(r, id, trigger) && ProgressOf(r, id) == ProgressOf(s, id)
  {
    var t := job.nextRunTime.value;
    AdvanceElsewhere(s, job, t, now, fails, id, trigger);
    var r := Advance(s, job, t, now, fails);
    if r.Some? {
      SubmitReads(r.value, job.id, t, Count(s.running, job.id) + 1, id, trigger);
    }
  }

  lemma RunElsewhere(s: State, job: Job, now: int, fails: bool, id: JobId, trigger: Option<Trigger>)
    requires Tracked(s, id, trigger) && job.id != id && job.nextRunTime.Some?
    ensures var r := RunDueJob(s, job, now, fails).0;
            Tracked(r, id, trigger) && ProgressOf(r, id) == ProgressOf(s, id)
  {
    if IsMissed(job, now) {
      MissElsewhere(s, job, now, fails, id, trigger);
    } else if Count(s.running, job.id) >= job.maxInstances {
      PublishedElsewhere(s, JobMaxInstances(job.id, job.nextRunTime.value), id, trigger);
    } else {
      DispatchElsewhere(s, job, now, fails, id, trigger);
    }
  }

  /** An event that is not the handling of a run of the job. */
  lemma PublishedElsewhere(s: State, e: Event, id: JobId, trigger: Option<Trigger>)
    requires Tracked(s, id, trigger) && HandledBy(e, id) == []
    ensures Tracked(s.Publish(e), id, trigger) && ProgressOf(s.Publish(e), id) == ProgressOf(s, id)
  {
    Published(s, e, id);
  }

  lemma SubmitReads(s: State, i: JobId, t: int, count: int, id: JobId, trigger: Option<Trigger>)
    requires Tracked(s, id, trigger)
    ensures var r, extra := Submit(s, i, t, count), if i == id then [t] else [];
            && Tracked(r, id, trigger) && Pending(r, id) == Pending(s, id)
            && Handled(r.trace, id) == Handled(s.trace, id) + extra
            && Submissions(r.trace, id) == Submissions(s.trace, id) + extra
  {
    var s1 := s.(running := s.running[i := count]);
    PublishedElsewhere(s1, JobStarted(i, t), id, trigger);
    PublishedTracked(s1.Publish(JobStarted(i, t)), Submitted(i, t), id, trigger);
    Published(s1.Publish(JobStarted(i, t)), Submitted(i, t), id);
  }

  // ---- running the job itself ----

  /** `_advance` puts what the trigger answers into the store, unless the job is not there any more. */
  lemma AdvanceFollows(s: State, job: Job, now: int, fails: bool, trigger: Option<Trigger>)
    requires Tracked(s, job.id, trigger) && job.trigger == trigger && SnapshotTime(s.due, job.id) == None
    requires forall d :: d in s.due ==> d.job.id != job.id
    requires job.nextRunTime.Some? && job.nextRunTime.value <= now
    ensures var r := Advance(s, job, job.nextRunTime.value, now, fails);
            r.Some? ==>
              && Tracked(r.value, job.id, trigger)
              && Handled(r.value.trace, job.id) == Handled(s.trace, job.id)
              && Submissions(r.value.trace, job.id) == Submissions(s.trace, job.id)
              && Follows(trigger, job.nextRunTime.value, Pending(r.value, job.id))
  {
    var t := job.nextRunTime.value;
    AdvancedIsValid(s, job, t, now, fails);
    if trigger.Some? && trigger.value(Some(t), now).Never? {
      Published(s.Stored(Remove(job.id)), JobRemoved(job.id), job.id);
    }
  }

  /** What is known when a pass comes to a job: its run time is due, and not contradicted by the store. */
  ghost predicate AtHead(s: State, job: Job, now: int, trigger: Option<Trigger>) {
    && Tracked(s, job.id, trigger) && job.trigger == trigger
    && (forall d :: d in s.due ==> d.job.id != job.id) && SnapshotTime(s.due, job.id) == None
    && job.nextRunTime.Some? && job.nextRunTime.value <= now
    && SameOrNone(job.nextRunTime, StoredTime(s, job.id))
  }

  /** The progress of a job that a pass has come to. */
  function HeadProgress(s: State, job: Job): Progress {
    Progress(Handled(s.trace, job.id), Submissions(s.trace, job.id), job.nextRunTime)
  }

  lemma MissMoves(s: State, job: Job, now: int, fails: bool, trigger: Option<Trigger>)
    requires AtHead(s, job, now, trigger)
    ensures var r := Miss(s, job, now, fails);
            && Tracked(r.0, job.id, trigger)
            && (if r.1 then Advances(HeadProgress(s, job), ProgressOf(r.0, job.id), trigger)
                else MissedOnly(HeadProgress(s, job), ProgressOf(r.0, job.id)) && Pending(r.0, job.id) == StoredTime(s, job.id))
  {
    Published(s, JobMissed(job.id, job.nextRunTime.value), job.id);
    AdvanceFollows(s.Publish(JobMissed(job.id, job.nextRunTime.value)), job, now, fails, trigger);
  }

  lemma DispatchMoves(s: State, job: Job, now: int, fails: bool, trigger: Option<Trigger>)
    requires AtHead(s, job, now, trigger)
    ensures var r := Dispatch(s, job, now, fails);
            && Tracked(r.0, job.id, trigger)
            && (if r.1 then Advances(HeadProgress(s, job), ProgressOf(r.0, job.id), trigger)
                else Stays(HeadProgress(s, job), ProgressOf(r.0, job.id)))
  {
    AdvanceFollows(s, job, now, fails, trigger);
    var r := Advance(s, job, job.nextRunTime.value, now, fails);
    if r.Some? {
      SubmitReads(r.value, job.id, job.nextRunTime.value, Count(s.running, job.id) + 1, job.id, trigger);
    }
  }

  lemma HeadIsReady(s: State, trigger: Option<Trigger>)
    requires s.due != [] && Tracked(s, s.due[0].job.id, trigger)
    ensures AtHead(Rest(s), s.due[0].job, s.due[0].now, trigger)
    ensures HeadProgress(Rest(s), s.due[0].job) == ProgressOf(s, s.due[0].job.id)
    ensures StoredTime(Rest(s), s.due[0].job.id) == StoredTime(s, s.due[0].job.id)
  {
    assert s.due[0] in s.due;
    RestIsTracked(s, s.due[0].job.id, trigger);
    HeadIsOnce(s);
  }

  lemma RunHead(s: State, fails: bool, trigger: Option<Trigger>)
    requires s.due != [] && Tracked(s, s.due[0].job.id, trigger)
    ensures var id, r := s.due[0].job.id, RunDueJob(Rest(s), s.due[0].job, s.due[0].now, fails);
            && Tracked(r.0, id, trigger)
            && (if FailedMiss(s, RunNext(fails), id) then
                  MissedOnly(ProgressOf(s, id), ProgressOf(r.0, id)) && Pending(r.0, id) == StoredTime(s, id)
                else Stays(ProgressOf(s, id), ProgressOf(r.0, id)) || Advances(ProgressOf(s, id), ProgressOf(r.0, id), trigger))
  {
    var job, now, s1 := s.due[0].job, s.due[0].now, Rest(s);
    HeadIsReady(s, trigger);
    if IsMissed(job, now) {
      MissMoves(s1, job, now, fails, trigger);
      MissedFailsAlike(s, fails);
    } else if Count(s1.running, job.id) >= job.maxInstances {
      PublishedElsewhere(s1, JobMaxInstances(job.id, job.nextRunTime.value), job.id, trigger);
    } else {
      DispatchMoves(s1, job, now, fails, trigger);
    }
  }

  /** Whether `_advance` raises does not depend on the trace or the pass. */
  lemma MissedFailsAlike(s: State, fails: bool)
    requires ValidState(s) && s.due != []
    ensures var job, now := s.due[0].job, s.due[0].now;
            var t := job.nextRunTime.value;
            Advance(s, job, t, now, fails).None?
            <==> Advance(Rest(s).Publish(JobMissed(job.id, t)), job, t, now, fails).None?
  {
  }

  // ---- any step ----

  /** What a step from `s` to `s'` may do to a job. */
  ghost predicate Moves(s: State, a: Action, s': State, id: JobId, trigger: Option<Trigger>)
    requires s.due != [] ==> s.due[0].job.nextRunTime.Some?
  {
    var x, y := ProgressOf(s, id), ProgressOf(s', id);
    if FailedMiss(s, a, id) then MissedOnly(x, y) && y.pending == StoredTime(s, id)
    else Stays(x, y) || Advances(x, y, trigger)
  }

  lemma RunNextMoves(s: State, fails: bool, id: JobId, trigger: Option<Trigger>)
    requires Tracked(s, id, trigger) && s.due != []
    ensures var s' := RunNextStep(s, fails);
            Tracked(s', id, trigger) && Moves(s, RunNext(fails), s', id, trigger)
  {
    var r := RunDueJob(Rest(s), s.due[0].job, s.due[0].now, fails);
    if s.due[0].job.id == id {
      RunHead(s, fails, trigger);
    } else {
      RestIsTracked(s, id, trigger);
      RunElsewhere(Rest(s), s.due[0].job, s.due[0].now, fails, id, trigger);
    }
    if !r.1 {
      DroppingThePassStays(r.0, id, trigger);
    }
  }

  lemma FinishStays(s: State, i: JobId, t: int, succeeded: bool, id: JobId, trigger: Option<Trigger>)
    requires Tracked(s, id, trigger)
    ensures var s' := FinishStep(s, i, t, succeeded);
            Tracked(s', id, trigger) && Stays(ProgressOf(s, id), ProgressOf(s', id))
  {
    var s1 := s.(running := Finished(s.running, i));
    PublishedElsewhere(s1, if succeeded then JobSucceeded(i, t) else JobFailed(i, t), id, trigger);
  }

  lemma OtherStepStays(s: State, a: Action, id: JobId, trigger: Option<Trigger>)
    requires Tracked(s, id, trigger) && Quiet(a, id) && !(a.RunNext? && s.due != [])
    ensures Tracked(Step(s, a), id, trigger) && Stays(ProgressOf(s, id), ProgressOf(Step(s, a), id))
  {
    match a
    case Poll(now) => PollStays(s, now, id, trigger);
    case RunNext(fails) =>
    case Finish(i, t, succeeded) => FinishStays(s, i, t, succeeded, id, trigger);
    case _ => StoreStepStays(s, a, id, trigger);
  }

  /** Every step of the scheduler moves a job in one of three ways. */
  lemma StepMoves(s: State, a: Action, id: JobId, trigger: Option<Trigger>)
    requires Tracked(s, id, trigger) && Quiet(a, id)
    ensures Tracked(Step(s, a), id, trigger) && Moves(s, a, Step(s, a), id, trigger)
  {
    if a.RunNext? && s.due != [] {
      RunNextMoves(s, a.fails, id, trigger);
    } else {
      OtherStepStays(s, a, id, trigger);
    }
  }
}
