/**
  The scheduler as a step machine (src/schedflow/core/scheduler.py), over one job store that hands out copies.

  A pass of the main loop reads the due jobs in one step and runs them one by one; calls of the other operations, and
  the ends of runs, may come between.
 */
module SchedulerSteps {
  import opened Prelude
  import opened Triggers
  import opened CombiningTriggers
  import opened Jobs
  import opened JobStores

  datatype Event =
    | JobAdded(id: JobId)
    | JobUpdated(id: JobId)
    | JobRemoved(id: JobId)
    | JobPaused(id: JobId)
    | JobResumed(id: JobId)
    | JobMissed(id: JobId, runTime: int)
    | JobMaxInstances(id: JobId, runTime: int)
    | JobStarted(id: JobId, runTime: int)
    /** the call of `executor.submit` */
    | Submitted(id: JobId, runTime: int)
    | JobSucceeded(id: JobId, runTime: int)
    | JobFailed(id: JobId, runTime: int)

  /** A job that a pass has read from the store, and the time of the pass. */
  datatype Due = Due(job: Job, now: int)

  /** `due` is what is left of the pass under way. */
  datatype State = State(store: Memory, running: map<JobId, int>, due: seq<Due>, trace: seq<Event>) {
    function Publish(e: Event): State { this.(trace := trace + [e]) }

    function Stored(op: Operation): State { this.(store := MemoryStep(store, op)) }
  }

  datatype Action =
    | AddJob(id: JobId, trigger: Option<Trigger>, graceSeconds: Option<int>, maxInstances: int, replace: bool, now: int)
    | UpdateJob(id: JobId, newTrigger: Option<Trigger>, newGrace: Option<int>, newMax: Option<int>, now: int)
    | PauseJob(id: JobId)
    | ResumeJob(id: JobId, now: int)
    | RemoveJob(id: JobId)
    | Poll(now: int)
    /** the write to the store fails, or does not */
    | RunNext(fails: bool)
    | Finish(id: JobId, runTime: int, succeeded: bool)

  // ---- jobs ----

  function AddStep(s: State, job: Job, replace: bool): State {
    if replace && job.id in s.store.jobs then s.Stored(Update(job)).Publish(JobAdded(job.id))
    else if job.id in s.store.jobs then s
    else s.Stored(Add(job)).Publish(JobAdded(job.id))
  }

  /** The job after `update_job`, unless the new trigger raises. */
  function Updated(job: Job, newTrigger: Option<Trigger>, newGrace: Option<int>, newMax: Option<int>, now: int): Option<Job> {
    var first := if newTrigger.Some? then FirstRunTime(newTrigger, now) else Some(job.nextRunTime);
    if first.None? then None
    else
      Some(job.(trigger := if newTrigger.Some? then newTrigger else job.trigger,
                nextRunTime := first.value,
                graceSeconds := if newGrace.Some? then newGrace else job.graceSeconds,
                maxInstances := if newMax.Some? then Max(1, newMax.value) else job.maxInstances))
  }

  // ---- a pass of the main loop ----

  function Count(running: map<JobId, int>, id: JobId): int {
    if id in running then running[id] else 0
  }

  /** The run is later than the job's grace time allows. */
  predicate IsMissed(job: Job, now: int)
    requires job.nextRunTime.Some?
  {
    job.graceSeconds.Some? && now - job.nextRunTime.value > job.graceSeconds.value * MICROS
  }

  /** `_advance`. `None` is an exception, of the trigger or of the store. A job that is not stored any more stays so. */
  function Advance(s: State, job: Job, runTime: int, now: int, fails: bool): Option<State> {
    match job.trigger
    case None => if fails then None else Some(s.Stored(Update(job.(nextRunTime := None))))
    case Some(next) =>
      match next(Some(runTime), now)
      case Raises => None
      case Never => if fails then None else Some(s.Stored(Remove(job.id)).Publish(JobRemoved(job.id)))
      case Fire(t) => if fails then None else Some(s.Stored(Update(job.(nextRunTime := Some(t)))))
  }

  /** A missed run: published, then advanced. The second result is whether `_run_due_job` returns normally. */
  function Miss(s: State, job: Job, now: int, fails: bool): (State, bool)
    requires job.nextRunTime.Some?
  {
    var missed := s.Publish(JobMissed(job.id, job.nextRunTime.value));
    var r := Advance(missed, job, job.nextRunTime.value, now, fails);
    if r.None? then (missed, false) else (r.value, true)
  }

  /** The next fire time is persisted before the run is dispatched. */
  function Dispatch(s: State, job: Job, now: int, fails: bool): (State, bool)
    requires job.nextRunTime.Some?
  {
    var r := Advance(s, job, job.nextRunTime.value, now, fails);
    if r.None? then (s, false)
    else (Submit(r.value, job.id, job.nextRunTime.value, Count(s.running, job.id) + 1), true)
  }

  function Submit(s: State, id: JobId, t: int, count: int): State {
    s.(running := s.running[id := count]).Publish(JobStarted(id, t)).Publish(Submitted(id, t))
  }

  /** `_run_due_job` */
  function RunDueJob(s: State, job: Job, now: int, fails: bool): (State, bool)
    requires job.nextRunTime.Some?
  {
    if IsMissed(job, now) then Miss(s, job, now, fails)
    else if Count(s.running, job.id) >= job.maxInstances then
      (s.Publish(JobMaxInstances(job.id, job.nextRunTime.value)), true)
    else Dispatch(s, job, now, fails)
  }

  function Snapshots(jobs: seq<Job>, now: int): (due: seq<Due>)
    ensures |due| == |jobs| && forall i :: 0 <= i < |due| ==> due[i] == Due(jobs[i], now)
  {
    seq(|jobs|, i requires 0 <= i < |jobs| => Due(jobs[i], now))
  }

  /** A pass begins when the one before has ended. */
  function PollStep(s: State, now: int): State {
    if s.due != [] then s else s.(due := Snapshots(MemoryDue(s.store, now), now))
  }

  /** An exception ends the pass. */
  function RunNextStep(s: State, fails: bool): State
    requires s.due != [] ==> s.due[0].job.nextRunTime.Some?
  {
    if s.due == [] then s
    else
      var (s', ok) := RunDueJob(s.(due := s.due[1..]), s.due[0].job, s.due[0].now, fails);
      if ok then s' else s'.(due := [])
  }

  // ---- ends of runs ----

  /** `_on_job_finished` */
  function Finished(running: map<JobId, int>, id: JobId): map<JobId, int> {
    var count := (if id in running then running[id] else 1) - 1;
    if count <= 0 then running - {id} else running[id := count]
  }

  function FinishStep(s: State, id: JobId, runTime: int, succeeded: bool): State {
    s.(running := Finished(s.running, id)).Publish(if succeeded then JobSucceeded(id, runTime) else JobFailed(id, runTime))
  }

  // ---- runs ----

  ghost predicate ValidState(s: State) {
    && ValidMemory(s.store)
    && (forall i :: 0 <= i < |s.due| ==> s.due[i].job.nextRunTime.Some? && s.due[i].job.nextRunTime.value <= s.due[i].now)
    && (forall i, j :: 0 <= i < j < |s.due| ==> s.due[i].job.id != s.due[j].job.id)
  }

  function Step(s: State, a: Action): State
    requires s.due != [] ==> s.due[0].job.nextRunTime.Some?
  {
    match a
    case AddJob(id, trigger, grace, max, replace, now) =>
      var job := NewJob(id, trigger, grace, max, now);
      if job.None? then s else AddStep(s, job.value, replace)
    case UpdateJob(id, trigger, grace, max, now) =>
      if id !in s.store.jobs then s
      else
        var job := Updated(s.store.jobs[id], trigger, grace, max, now);
        if job.None? then s else s.Stored(Update(job.value)).Publish(JobUpdated(id))
    case PauseJob(id) =>
      if id !in s.store.jobs then s
      else s.Stored(Update(s.store.jobs[id].(status := Paused, nextRunTime := None))).Publish(JobPaused(id))
    case ResumeJob(id, now) =>
      if id !in s.store.jobs then s
      else
        var first := FirstRunTime(s.store.jobs[id].trigger, now);
        if first.None? then s
        else s.Stored(Update(s.store.jobs[id].(status := Running, nextRunTime := first.value))).Publish(JobResumed(id))
    case RemoveJob(id) => if id !in s.store.jobs then s else s.Stored(Remove(id)).Publish(JobRemoved(id))
    case Poll(now) => PollStep(s, now)
    case RunNext(fails) => RunNextStep(s, fails)
    case Finish(id, runTime, succeeded) => FinishStep(s, id, runTime, succeeded)
  }

  /** What the caller of an operation gets back: nothing wrong, or one of the exceptions. */
  datatype Answer = Accepted | JobConflict | JobUnknown | TriggerRaised

  function AnswerOf(s: State, a: Action): Answer {
    match a
    case AddJob(id, trigger, grace, max, replace, now) =>
      if NewJob(id, trigger, grace, max, now).None? then TriggerRaised
      else if id in s.store.jobs && !replace then JobConflict
      else Accepted
    case UpdateJob(id, trigger, grace, max, now) =>
      if id !in s.store.jobs then JobUnknown
      else if Updated(s.store.jobs[id], trigger, grace, max, now).None? then TriggerRaised
      else Accepted
    case PauseJob(id) => if id in s.store.jobs then Accepted else JobUnknown
    case ResumeJob(id, now) =>
      if id !in s.store.jobs then JobUnknown
      else if FirstRunTime(s.store.jobs[id].trigger, now).None? then TriggerRaised
      else Accepted
    case RemoveJob(id) => if id in s.store.jobs then Accepted else JobUnknown
    case _ => Accepted
  }

  /** An operation on jobs changes nothing and publishes nothing exactly when it raises. */
  lemma RejectedChangesNothing(s: State, a: Action)
    requires ValidState(s) && !a.Poll? && !a.RunNext? && !a.Finish?
    ensures AnswerOf(s, a) != Accepted ==> Step(s, a) == s
    ensures AnswerOf(s, a) == Accepted ==> |Step(s, a).trace| == |s.trace| + 1
  {
  }

  lemma StoredIsValid(s: State, op: Operation)
    requires ValidState(s)
    ensures ValidState(s.Stored(op))
  {
    MemoryStaysValid(s.store, op);
  }

  lemma AdvancedIsValid(s: State, job: Job, runTime: int, now: int, fails: bool)
    requires ValidState(s)
    ensures var r := Advance(s, job, runTime, now, fails);
            r.Some? ==> ValidState(r.value) && r.value.due == s.due && r.value.running == s.running
  {
    MemoryStaysValid(s.store, Remove(job.id));
    MemoryStaysValid(s.store, Update(job.(nextRunTime := None)));
    if job.trigger.Some? && job.trigger.value(Some(runTime), now).Fire? {
      MemoryStaysValid(s.store, Update(job.(nextRunTime := Some(job.trigger.value(Some(runTime), now).time))));
    }
  }

  lemma RunNextKeepsValid(s: State, fails: bool)
    requires ValidState(s)
    ensures ValidState(RunNextStep(s, fails))
  {
    if s.due != [] {
      var rest, head := s.(due := s.due[1..]), s.due[0];
      var t := head.job.nextRunTime.value;
      AdvancedIsValid(rest, head.job, t, head.now, fails);
      AdvancedIsValid(rest.Publish(JobMissed(head.job.id, t)), head.job, t, head.now, fails);
    }
  }

  lemma PollKeepsValid(s: State, now: int)
    requires ValidState(s)
    ensures ValidState(PollStep(s, now))
  {
    MemoryDueIsExact(s.store, now);
    var list := MemoryDue(s.store, now);
    forall i, j | 0 <= i < j < |list|
      ensures list[i].id != list[j].id
    {
      assert Ids(list)[i] != Ids(list)[j];
    }
    forall i | 0 <= i < |list|
      ensures list[i].nextRunTime.Some? && list[i].nextRunTime.value <= now
    {
      assert Ids(list)[i] in Ids(list);
    }
  }

  lemma StepKeepsValid(s: State, a: Action)
    requires ValidState(s)
    ensures ValidState(Step(s, a))
  {
    match a
    case Poll(now) => PollKeepsValid(s, now);
    case RunNext(fails) => RunNextKeepsValid(s, fails);
    case Finish(_, _, _) =>
    case _ => StoreStepKeepsValid(s, a);
  }

  lemma StoreStepKeepsValid(s: State, a: Action)
    requires ValidState(s) && !a.Poll? && !a.RunNext? && !a.Finish?
    ensures ValidState(Step(s, a))
  {
    forall op: Operation | true
      ensures ValidMemory(MemoryStep(s.store, op))
    {
      MemoryStaysValid(s.store, op);
    }
  }

  ghost function RunSteps(s: State, actions: seq<Action>): (r: State)
    requires ValidState(s)
    ensures ValidState(r)
    decreases |actions|
  {
    if actions == [] then s
    else
      StepKeepsValid(s, actions[0]);
      RunSteps(Step(s, actions[0]), actions[1..])
  }
}
