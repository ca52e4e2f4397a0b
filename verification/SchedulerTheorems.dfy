/**
  Safety over every run of the scheduler: what is dispatched is dispatched once, and no fire time is lost.

  A run is any sequence of steps that does not add, resume or reschedule the job again; store writes and triggers may
  fail in any of them.
 */
module SchedulerTheorems {
  import opened Prelude
  import opened Triggers
  import opened CombiningTriggers
  import opened Jobs
  import opened JobStores
  import opened SchedulerSteps
  import opened SchedulerRuns

  predicate StrictlyIncreasing(s: seq<int>) {
    forall i, j :: 0 <= i < j < |s| ==> s[i] < s[j]
  }

  predicate NonDecreasing(s: seq<int>) {
    forall i, j :: 0 <= i < j < |s| ==> s[i] <= s[j]
  }

  lemma AppendInOrder(s: seq<int>, t: int)
    requires NonDecreasing(s) && forall x :: x in s ==> x <= t
    ensures NonDecreasing(s + [t])
  {
    forall i | 0 <= i < |s| ensures s[i] <= t { assert s[i] in s; }
  }

  lemma AppendLater(s: seq<int>, t: int)
    requires StrictlyIncreasing(s) && forall x :: x in s ==> x < t
    ensures StrictlyIncreasing(s + [t])
  {
    forall i | 0 <= i < |s| ensures s[i] < t { assert s[i] in s; }
  }

  ghost predicate AllQuiet(actions: seq<Action>, id: JobId) {
    forall i :: 0 <= i < |actions| ==> Quiet(actions[i], id)
  }

  // ---- at most once ----

  /** After a fire time the trigger answers with a later one. */
  ghost predicate Progressing(trigger: Trigger) {
    forall p, n :: p <= n && trigger(Some(p), n).Fire? ==> p < trigger(Some(p), n).time
  }

  /** No run time was submitted twice, and the next one to be handled was not submitted yet. */
  predicate SubmittedOnce(x: Progress) {
    StrictlyIncreasing(x.submitted) && (x.pending.Some? ==> forall t :: t in x.submitted ==> t < x.pending.value)
  }

  lemma AdvanceSubmitsOnce(x: Progress, y: Progress, trigger: Option<Trigger>)
    requires SubmittedOnce(x) && Advances(x, y, trigger) && (trigger.Some? ==> Progressing(trigger.value))
    ensures SubmittedOnce(y)
  {
    var p := x.pending.value;
    AppendLater(x.submitted, p);
    if y.pending.Some? {
      var now :| p <= now && trigger.value(Some(p), now) == Fire(y.pending.value);
      assert p < trigger.value(Some(p), now).time;
    }
  }

  lemma MoveSubmitsOnce(s: State, a: Action, id: JobId, trigger: Option<Trigger>)
    requires Tracked(s, id, trigger) && Quiet(a, id) && (trigger.Some? ==> Progressing(trigger.value))
    requires SubmittedOnce(ProgressOf(s, id))
    ensures Tracked(Step(s, a), id, trigger) && SubmittedOnce(ProgressOf(Step(s, a), id))
  {
    StepMoves(s, a, id, trigger);
    var x, y := ProgressOf(s, id), ProgressOf(Step(s, a), id);
    if Advances(x, y, trigger) {
      AdvanceSubmitsOnce(x, y, trigger);
    }
  }

  /** Persisting before dispatching: in every run no (job, run time) pair is dispatched twice, and every dispatched
      run time lies before the one in the store. */
  lemma {:induction false} DispatchedAtMostOnce(s: State, actions: seq<Action>, id: JobId, trigger: Option<Trigger>)
    requires Tracked(s, id, trigger) && AllQuiet(actions, id) && (trigger.Some? ==> Progressing(trigger.value))
    requires SubmittedOnce(ProgressOf(s, id))
    ensures var s' := RunSteps(s, actions);
            && Tracked(s', id, trigger)
            && StrictlyIncreasing(Submissions(s'.trace, id))
            && forall t :: t in Submissions(s'.trace, id) && StoredTime(s', id).Some? ==> t < StoredTime(s', id).value
    decreases |actions|
  {
    if actions == [] {
      PassDropped(s, id, trigger);
    } else {
      MoveSubmitsOnce(s, actions[0], id, trigger);
      DispatchedAtMostOnce(Step(s, actions[0]), actions[1..], id, trigger);
    }
  }

  // ---- paused and removed jobs ----

  /** A job without a pending run time, be it paused, removed or without a trigger, is not run again, whatever happens
      to the other jobs. */
  lemma {:induction false} NothingPendingNothingRuns(s: State, actions: seq<Action>, id: JobId, trigger: Option<Trigger>)
    requires Tracked(s, id, trigger) && AllQuiet(actions, id) && Pending(s, id) == None
    ensures Tracked(RunSteps(s, actions), id, trigger)
    ensures ProgressOf(RunSteps(s, actions), id) == ProgressOf(s, id)
    decreases |actions|
  {
    if actions != [] {
      StepMoves(s, actions[0], id, trigger);
      NothingPendingNothingRuns(Step(s, actions[0]), actions[1..], id, trigger);
    }
  }

  /** Outside a pass, pausing a job or removing it stops it at once and for good. */
  lemma StoppedForGood(s: State, a: Action, actions: seq<Action>, id: JobId, trigger: Option<Trigger>)
    requires Tracked(s, id, trigger) && SnapshotTime(s.due, id) == None
    requires a == PauseJob(id) || a == RemoveJob(id)
    requires AllQuiet(actions, id)
    ensures var s' := RunSteps(s, [a] + actions);
            && Handled(s'.trace, id) == Handled(s.trace, id) && Submissions(s'.trace, id) == Submissions(s.trace, id)
            && Tracked(s', id, trigger) && Pending(s', id) == None
  {
    StepMoves(s, a, id, trigger);
    StoppingClears(s, a, id, trigger);
    assert ([a] + actions)[1..] == actions;
    NothingPendingNothingRuns(Step(s, a), actions, id, trigger);
  }

  lemma StoppingClears(s: State, a: Action, id: JobId, trigger: Option<Trigger>)
    requires Tracked(s, id, trigger) && SnapshotTime(s.due, id) == None
    requires a == PauseJob(id) || a == RemoveJob(id)
    ensures Pending(Step(s, a), id) == None && Stays(ProgressOf(s, id), ProgressOf(Step(s, a), id))
  {
    StoreStepStays(s, a, id, trigger);
  }

  /** Resuming undoes pausing, but for the run time, which starts anew from the trigger. */
  lemma PauseThenResume(s: State, id: JobId, now: int)
    requires ValidState(s) && id in s.store.jobs && FirstRunTime(s.store.jobs[id].trigger, now).Some?
    ensures var s' := Step(Step(s, PauseJob(id)), ResumeJob(id, now));
            var job := s.store.jobs[id].(status := Running, nextRunTime := FirstRunTime(s.store.jobs[id].trigger, now).value);
            && s'.store == Memory(s.store.order, s.store.jobs[id := job])
            && s'.due == s.due && s'.running == s.running
  {
    var paused := Step(s, PauseJob(id));
    assert paused.store.jobs[id].trigger == s.store.jobs[id].trigger;
  }

  /** However long a job stays paused and whatever happens meanwhile, resuming it continues exactly where it was
      paused, with the first answer of its trigger pending; if it was removed meanwhile, resuming is refused. */
  lemma ResumedAfterPause(s: State, actions: seq<Action>, id: JobId, trigger: Option<Trigger>, now: int)
    requires Tracked(s, id, trigger) && SnapshotTime(s.due, id) == None && AllQuiet(actions, id)
    ensures ValidState(RunSteps(s, [PauseJob(id)] + actions))
    ensures var paused := RunSteps(s, [PauseJob(id)] + actions);
            var s', first := Step(paused, ResumeJob(id, now)), FirstRunTime(trigger, now);
            && (id !in paused.store.jobs ==> AnswerOf(paused, ResumeJob(id, now)) == JobUnknown && s' == paused)
            && (id in paused.store.jobs && first.Some? ==>
                  ProgressOf(s', id) == Progress(Handled(s.trace, id), Submissions(s.trace, id), first.value))
  {
    StoppedForGood(s, PauseJob(id), actions, id, trigger);
    var paused := RunSteps(s, [PauseJob(id)] + actions);
    if id in paused.store.jobs && FirstRunTime(trigger, now).Some? {
      ResumingWaits(paused, id, trigger, now);
    }
  }

  lemma ResumingWaits(s: State, id: JobId, trigger: Option<Trigger>, now: int)
    requires Tracked(s, id, trigger) && Pending(s, id) == None && id in s.store.jobs && FirstRunTime(trigger, now).Some?
    ensures ProgressOf(Step(s, ResumeJob(id, now)), id)
         == Progress(Handled(s.trace, id), Submissions(s.trace, id), FirstRunTime(trigger, now).value)
  {
    var job := s.store.jobs[id].(status := Running, nextRunTime := FirstRunTime(trigger, now).value);
    Published(s.Stored(Update(job)), JobResumed(id), id);
  }

  // ---- no fire time is lost ----

  /** After each of its fire times the trigger answers with the next one. */
  ghost predicate Enumerates(trigger: Trigger, fires: int -> bool) {
    forall p, n :: fires(p) && p <= n ==> AnswersLeast(fires, p + 1, trigger(Some(p), n))
  }

  /** The handled times are fire times in order. They are all of those from `first` up to the pending one; once
      nothing is pending, all of those up to the last handled one. */
  ghost predicate NoneLost(x: Progress, fires: int -> bool, first: int) {
    && NonDecreasing(x.handled)
    && (forall t :: t in x.handled ==> fires(t) && first <= t)
    && match x.pending
       case Some(q) =>
         && fires(q) && first <= q && (forall t :: t in x.handled ==> t <= q)
         && forall t :: fires(t) && first <= t < q ==> t in x.handled
       case None => forall t, u :: u in x.handled && fires(t) && first <= t <= u ==> t in x.handled
  }

  lemma StaysLosesNone(x: Progress, y: Progress, fires: int -> bool, first: int)
    requires NoneLost(x, fires, first) && Stays(x, y)
    ensures NoneLost(y, fires, first)
  {
  }

  lemma MissedOnlyLosesNone(x: Progress, y: Progress, fires: int -> bool, first: int)
    requires NoneLost(x, fires, first) && MissedOnly(x, y)
    ensures NoneLost(y, fires, first)
  {
    AppendInOrder(x.handled, x.pending.value);
    assert forall t :: t in y.handled <==> t in x.handled || t == x.pending.value;
  }

  lemma AdvanceLosesNone(x: Progress, y: Progress, trigger: Trigger, fires: int -> bool, first: int)
    requires NoneLost(x, fires, first) && Advances(x, y, Some(trigger)) && Enumerates(trigger, fires)
    ensures NoneLost(y, fires, first)
  {
    var p := x.pending.value;
    AppendInOrder(x.handled, p);
    assert forall t :: t in y.handled <==> t in x.handled || t == p;
    if y.pending.Some? {
      var q := y.pending.value;
      var now :| p <= now && trigger(Some(p), now) == Fire(q);
      assert AnswersLeast(fires, p + 1, Fire(q));
    }
  }

  lemma MoveLosesNone(s: State, a: Action, id: JobId, trigger: Trigger, fires: int -> bool, first: int)
    requires Tracked(s, id, Some(trigger)) && Quiet(a, id) && Enumerates(trigger, fires)
    requires NoneLost(ProgressOf(s, id), fires, first)
    ensures Tracked(Step(s, a), id, Some(trigger)) && NoneLost(ProgressOf(Step(s, a), id), fires, first)
  {
    StepMoves(s, a, id, Some(trigger));
    var x, y := ProgressOf(s, id), ProgressOf(Step(s, a), id);
    if FailedMiss(s, a, id) {
      MissedOnlyLosesNone(x, y, fires, first);
    } else if Stays(x, y) {
      StaysLosesNone(x, y, fires, first);
    } else {
      AdvanceLosesNone(x, y, trigger, fires, first);
    }
  }

  /** In every run, whatever fails, the scheduler handles the fire times of a job in order and skips none. */
  lemma {:induction false} NoFireTimeIsLost(s: State, actions: seq<Action>, id: JobId, trigger: Trigger,
                                            fires: int -> bool, first: int)
    requires Tracked(s, id, Some(trigger)) && AllQuiet(actions, id) && Enumerates(trigger, fires)
    requires NoneLost(ProgressOf(s, id), fires, first)
    ensures Tracked(RunSteps(s, actions), id, Some(trigger))
    ensures NoneLost(ProgressOf(RunSteps(s, actions), id), fires, first)
    decreases |actions|
  {
    if actions != [] {
      MoveLosesNone(s, actions[0], id, trigger, fires, first);
      NoFireTimeIsLost(Step(s, actions[0]), actions[1..], id, trigger, fires, first);
    }
  }

  // ---- no fire time is repeated ----

  /** Every handled time was handled once, and the pending one not yet. */
  predicate EachOnce(x: Progress) {
    StrictlyIncreasing(x.handled) && (x.pending.Some? ==> x.pending.value !in x.handled)
  }

  /** A missed run is published although the job could not be advanced and is still stored with that run time. */
  predicate Repeats(s: State, a: Action, id: JobId)
    requires s.due != [] ==> s.due[0].job.nextRunTime.Some?
  {
    FailedMiss(s, a, id) && StoredTime(s, id).Some?
  }

  lemma AdvanceKeepsOrder(x: Progress, y: Progress, trigger: Trigger, fires: int -> bool, first: int)
    requires NoneLost(x, fires, first) && EachOnce(x) && Advances(x, y, Some(trigger)) && Enumerates(trigger, fires)
    ensures EachOnce(y)
  {
    var p := x.pending.value;
    forall t | t in x.handled ensures t < p { assert t <= p && t != p; }
    AppendLater(x.handled, p);
    if y.pending.Some? {
      var q := y.pending.value;
      var now :| p <= now && trigger(Some(p), now) == Fire(q);
      assert AnswersLeast(fires, p + 1, Fire(q));
    }
  }

  lemma MissedOnlyOrder(x: Progress, y: Progress, fires: int -> bool, first: int)
    requires NoneLost(x, fires, first) && EachOnce(x) && MissedOnly(x, y)
    ensures EachOnce(y) <==> y.pending.None?
  {
    var p := x.pending.value;
    forall t | t in x.handled ensures t < p { assert t <= p && t != p; }
    AppendLater(x.handled, p);
    if x.pending.Some? && y.pending == x.pending {
      assert y.handled[|x.handled|] == p;
    }
  }

  /** A step repeats a fire time if and only if it publishes a missed run and then fails to store the next time. */
  lemma StepRepeatsExactly(s: State, a: Action, id: JobId, trigger: Trigger, fires: int -> bool, first: int)
    requires Tracked(s, id, Some(trigger)) && Quiet(a, id) && Enumerates(trigger, fires)
    requires NoneLost(ProgressOf(s, id), fires, first) && EachOnce(ProgressOf(s, id))
    ensures EachOnce(ProgressOf(Step(s, a), id)) <==> !Repeats(s, a, id)
  {
    StepMoves(s, a, id, Some(trigger));
    var x, y := ProgressOf(s, id), ProgressOf(Step(s, a), id);
    if FailedMiss(s, a, id) {
      MissedOnlyOrder(x, y, fires, first);
    } else if !Stays(x, y) {
      AdvanceKeepsOrder(x, y, trigger, fires, first);
    }
  }

  ghost predicate EachOnceThroughout(s: State, actions: seq<Action>, id: JobId)
    requires ValidState(s)
    decreases |actions|
  {
    && EachOnce(ProgressOf(s, id))
    && (actions != [] ==>
          ValidState(Step(s, actions[0])) && EachOnceThroughout(Step(s, actions[0]), actions[1..], id))
  }

  ghost predicate NeverRepeats(s: State, actions: seq<Action>, id: JobId)
    requires ValidState(s)
    decreases |actions|
  {
    actions != [] ==>
      !Repeats(s, actions[0], id) && ValidState(Step(s, actions[0])) && NeverRepeats(Step(s, actions[0]), actions[1..], id)
  }

  /** All along a run every fire time is handled once, if and only if no step fails to advance a missed run. */
  lemma {:induction false} EachFireTimeOnce(s: State, actions: seq<Action>, id: JobId, trigger: Trigger,
                                            fires: int -> bool, first: int)
    requires Tracked(s, id, Some(trigger)) && AllQuiet(actions, id) && Enumerates(trigger, fires)
    requires NoneLost(ProgressOf(s, id), fires, first) && EachOnce(ProgressOf(s, id))
    ensures EachOnceThroughout(s, actions, id) <==> NeverRepeats(s, actions, id)
    ensures NeverRepeats(s, actions, id) ==> EachOnce(ProgressOf(RunSteps(s, actions), id))
    decreases |actions|
  {
    if actions != [] {
      var s' := Step(s, actions[0]);
      MoveLosesNone(s, actions[0], id, trigger, fires, first);
      StepRepeatsExactly(s, actions[0], id, trigger, fires, first);
      if EachOnce(ProgressOf(s', id)) {
        EachFireTimeOnce(s', actions[1..], id, trigger, fires, first);
      }
    }
  }

  // ---- the end of a schedule ----

  lemma LastAdvance(s: State, job: Job, now: int, trigger: Trigger)
    requires AtHead(s, job, now, Some(trigger)) && trigger(job.nextRunTime, now) == Never
    ensures Miss(s, job, now, false).1 && job.id !in Miss(s, job, now, false).0.store.jobs
    ensures Dispatch(s, job, now, false).1 && job.id !in Dispatch(s, job, now, false).0.store.jobs
  {
  }

  lemma LastRun(s: State, job: Job, now: int, trigger: Trigger)
    requires AtHead(s, job, now, Some(trigger)) && trigger(job.nextRunTime, now) == Never
    requires IsMissed(job, now) || Count(s.running, job.id) < job.maxInstances
    ensures var (s', ok) := RunDueJob(s, job, now, false);
            ok && job.id !in s'.store.jobs && Handled(s'.trace, job.id) == Handled(s.trace, job.id) + [job.nextRunTime.value]
  {
    LastAdvance(s, job, now, trigger);
    if IsMissed(job, now) {
      MissMoves(s, job, now, false, Some(trigger));
    } else {
      DispatchMoves(s, job, now, false, Some(trigger));
    }
  }

  /** When the trigger has nothing more to give, the job is removed and all its fire times have been handled. */
  lemma LastRunCompletes(s: State, trigger: Trigger, fires: int -> bool, first: int)
    requires s.due != [] && Tracked(s, s.due[0].job.id, Some(trigger)) && Enumerates(trigger, fires)
    requires NoneLost(ProgressOf(s, s.due[0].job.id), fires, first)
    requires trigger(s.due[0].job.nextRunTime, s.due[0].now) == Never
    requires IsMissed(s.due[0].job, s.due[0].now) || Count(s.running, s.due[0].job.id) < s.due[0].job.maxInstances
    ensures var id, s' := s.due[0].job.id, Step(s, RunNext(false));
            && id !in s'.store.jobs
            && forall t :: t in Handled(s'.trace, id) <==> fires(t) && first <= t
  {
    HeadIsReady(s, Some(trigger));
    LastRun(Rest(s), s.due[0].job, s.due[0].now, trigger);
    NothingIsLeft(ProgressOf(s, s.due[0].job.id), s.due[0].now, trigger, fires, first);
  }

  lemma NothingIsLeft(x: Progress, now: int, trigger: Trigger, fires: int -> bool, first: int)
    requires NoneLost(x, fires, first) && x.pending.Some? && x.pending.value <= now
    requires Enumerates(trigger, fires) && trigger(x.pending, now) == Never
    ensures forall t :: t in x.handled + [x.pending.value] <==> fires(t) && first <= t
  {
    assert AnswersLeast(fires, x.pending.value + 1, trigger(Some(x.pending.value), now));
    assert forall t :: t in x.handled + [x.pending.value] <==> t in x.handled || t == x.pending.value;
  }
}
