/** A whole pass of the main loop, from the store it begins with to the events it leaves. */
module SchedulerPasses {
  import opened Prelude
  import opened Graph
  import opened Triggers
  import opened CombiningTriggers
  import opened Jobs
  import opened JobStores
  import opened SchedulerSteps
  import opened SchedulerRuns
  import opened SchedulerInstances

  // ---- what a pass reads ----

  /** A pass reads exactly the jobs that have a run time that has come, each once, as they are stored, in the order of
      their run times. */
  lemma PollExactly(s: State, now: int)
    requires ValidState(s) && s.due == []
    ensures
      var s' := Step(s, Poll(now));
      && s' == s.(due := s'.due)
      && (forall id :: (exists i :: 0 <= i < |s'.due| && s'.due[i].job.id == id) <==>
            id in s.store.jobs && s.store.jobs[id].nextRunTime.Some? && s.store.jobs[id].nextRunTime.value <= now)
      && (forall i :: 0 <= i < |s'.due| ==>
            s'.due[i].job.id in s.store.jobs && s'.due[i] == Due(s.store.jobs[s'.due[i].job.id], now))
      && (forall i, j :: 0 <= i < j < |s'.due| ==>
            && s'.due[i].job.id != s'.due[j].job.id
            && s'.due[i].job.nextRunTime.value <= s'.due[j].job.nextRunTime.value)
  {
    MemoryDueIsExact(s.store, now);
    PollKeepsValid(s, now);
    var list, due := MemoryDue(s.store, now), PollStep(s, now).due;
    forall id
      ensures (exists i :: 0 <= i < |due| && due[i].job.id == id) <==> IsDue(s.store.jobs, id, now)
    {
      if id in Ids(list) {
        var i :| 0 <= i < |list| && Ids(list)[i] == id;
        assert due[i].job.id == id;
      }
      if i :| 0 <= i < |due| && due[i].job.id == id {
        assert Ids(list)[i] == id;
      }
    }
    forall i, j | 0 <= i < j < |due|
      ensures due[i].job.nextRunTime.value <= due[j].job.nextRunTime.value
    {
      assert Ids(list)[i] == due[i].job.id && Ids(list)[j] == due[j].job.id;
    }
  }

  // ---- running it to the end ----

  /** The rest of a pass without interruption; `fails` says whose write to the store fails. */
  ghost function FinishPass(s: State, fails: JobId -> bool): (r: State)
    requires ValidState(s)
    ensures ValidState(r) && r.due == []
    decreases |s.due|
  {
    if s.due == [] then s
    else
      var next := RunNextStep(s, fails(s.due[0].job.id));
      RunNextKeepsValid(s, fails(s.due[0].job.id));
      PassShrinks(s, fails(s.due[0].job.id));
      FinishPass(next, fails)
  }

  lemma RunDueKeepsDue(s: State, job: Job, now: int, fails: bool)
    requires job.nextRunTime.Some?
    ensures RunDueJob(s, job, now, fails).0.due == s.due
  {
  }

  lemma PassShrinks(s: State, fails: bool)
    requires ValidState(s) && s.due != []
    ensures |RunNextStep(s, fails).due| < |s.due|
  {
    RunDueKeepsDue(s.(due := s.due[1..]), s.due[0].job, s.due[0].now, fails);
  }

  ghost function PassActions(s: State, fails: JobId -> bool): seq<Action>
    requires ValidState(s)
    decreases |s.due|
  {
    if s.due == [] then []
    else
      var a := RunNext(fails(s.due[0].job.id));
      StepKeepsValid(s, a);
      PassShrinks(s, a.fails);
      [a] + PassActions(Step(s, a), fails)
  }

  /** An uninterrupted pass is a run of the step machine. */
  lemma {:induction false} PassIsARun(s: State, fails: JobId -> bool)
    requires ValidState(s)
    ensures RunSteps(s, PassActions(s, fails)) == FinishPass(s, fails)
    decreases |s.due|
  {
    if s.due != [] {
      var a := RunNext(fails(s.due[0].job.id));
      StepKeepsValid(s, a);
      PassShrinks(s, a.fails);
      PassIsARun(Step(s, a), fails);
      assert ([a] + PassActions(Step(s, a), fails))[1..] == PassActions(Step(s, a), fails);
    }
  }

  // ---- what a pass decides ----

  /** The decisions on the runs of a job: missed, refused or submitted. */
  function Decisions(trace: seq<Event>, id: JobId): seq<Event> {
    if trace == [] then []
    else
      var last := trace[|trace| - 1];
      Decisions(trace[..|trace| - 1], id)
      + (if (last.JobMissed? || last.JobMaxInstances? || last.Submitted?) && last.id == id then [last] else [])
  }

  /** The decision on a job that a pass at time `now` reads: missed if it is late by more than its grace time, else
      refused if it has as many runs in flight as it may have, else submitted. */
  function DecisionOn(job: Job, running: map<JobId, int>, now: int): Event
    requires job.nextRunTime.Some?
  {
    var t := job.nextRunTime.value;
    if job.graceSeconds.Some? && t + job.graceSeconds.value * 1_000_000 < now then JobMissed(job.id, t)
    else if (if job.id in running then running[job.id] else 0) >= job.maxInstances then JobMaxInstances(job.id, t)
    else Submitted(job.id, t)
  }

  /** One decision for every job whose run time has come, and none for any other. */
  function DecisionFor(jobs: map<JobId, Job>, running: map<JobId, int>, id: JobId, now: int): seq<Event> {
    if id in jobs && jobs[id].nextRunTime.Some? && jobs[id].nextRunTime.value <= now then [DecisionOn(jobs[id], running, now)]
    else []
  }

  /** Running the job raises: its trigger does, or the write to the store. */
  predicate RaisesWhenRun(job: Job, now: int, fails: bool) {
    fails || (job.trigger.Some? && job.nextRunTime.Some? && job.trigger.value(job.nextRunTime, now) == Raises)
  }

  /** The same for what is left of a pass. */
  function DecisionLeft(due: seq<Due>, running: map<JobId, int>, id: JobId): seq<Event>
    requires forall i :: 0 <= i < |due| ==> due[i].job.nextRunTime.Some?
  {
    if due == [] then []
    else (if due[0].job.id == id then [DecisionOn(due[0].job, running, due[0].now)] else []) + DecisionLeft(due[1..], running, id)
  }

  lemma DecisionPublished(s: State, e: Event, id: JobId)
    ensures Decisions(s.Publish(e).trace, id)
         == Decisions(s.trace, id) + (if (e.JobMissed? || e.JobMaxInstances? || e.Submitted?) && e.id == id then [e] else [])
  {
    assert s.Publish(e).trace[..|s.trace|] == s.trace;
  }

  lemma AdvanceDecidesNothing(s: State, job: Job, now: int, fails: bool, id: JobId)
    requires job.nextRunTime.Some?
    ensures var r := Advance(s, job, job.nextRunTime.value, now, fails);
            && (r.None? <==> RaisesWhenRun(job, now, fails))
            && (r.Some? ==> r.value.running == s.running && r.value.due == s.due && Decisions(r.value.trace, id) == Decisions(s.trace, id))
  {
    RaisesAlike(job, now, fails);
    AdvanceReads(s, job, job.nextRunTime.value, now, fails, id);
  }

  lemma RaisesAlike(job: Job, now: int, fails: bool)
    requires job.nextRunTime.Some?
    ensures RaisesWhenRun(job, now, fails)
            <==> fails || (job.trigger.Some? && job.trigger.value(Some(job.nextRunTime.value), now) == Raises)
  {
    assert job.nextRunTime == Some(job.nextRunTime.value);
  }

  lemma AdvanceReads(s: State, job: Job, t: int, now: int, fails: bool, id: JobId)
    ensures var r := Advance(s, job, t, now, fails);
            && (r.None? <==> fails || (job.trigger.Some? && job.trigger.value(Some(t), now) == Raises))
            && (r.Some? ==> r.value.running == s.running && r.value.due == s.due && Decisions(r.value.trace, id) == Decisions(s.trace, id))
  {
    DecisionPublished(s.Stored(Remove(job.id)), JobRemoved(job.id), id);
  }

  /** Running the job ends the pass. A refused job is not advanced, so nothing can raise. */
  predicate Breaks(job: Job, running: map<JobId, int>, now: int, fails: bool)
    requires job.nextRunTime.Some?
  {
    RaisesWhenRun(job, now, fails) && !DecisionOn(job, running, now).JobMaxInstances?
  }

  /** The decision on the job is published; if the pass breaks on it, only when it was missed. */
  function DecisionPublishedOn(job: Job, running: map<JobId, int>, now: int, fails: bool): seq<Event>
    requires job.nextRunTime.Some?
  {
    var e := DecisionOn(job, running, now);
    if Breaks(job, running, now, fails) && !e.JobMissed? then [] else [e]
  }

  /** A job whose turn has come is decided once, and nothing else is. */
  lemma OneDecision(s: State, job: Job, now: int, fails: bool, id: JobId)
    requires job.nextRunTime.Some?
    ensures
      var (s', ok) := RunDueJob(s, job, now, fails);
      && (ok <==> !Breaks(job, s.running, now, fails)) && s'.due == s.due
      && (forall i :: i != job.id ==> (i in s'.running <==> i in s.running) && (i in s.running ==> s'.running[i] == s.running[i]))
      && Decisions(s'.trace, id) == Decisions(s.trace, id) + (if job.id == id then DecisionPublishedOn(job, s.running, now, fails) else [])
  {
    var t := job.nextRunTime.value;
    if IsMissed(job, now) {
      DecisionPublished(s, JobMissed(job.id, t), id);
      AdvanceDecidesNothing(s.Publish(JobMissed(job.id, t)), job, now, fails, id);
    } else if Count(s.running, job.id) >= job.maxInstances {
      DecisionPublished(s, JobMaxInstances(job.id, t), id);
    } else {
      AdvanceDecidesNothing(s, job, now, fails, id);
      var r := Advance(s, job, t, now, fails);
      if r.Some? {
        SubmissionDecided(r.value, job.id, t, Count(s.running, job.id) + 1, id);
      }
    }
  }

  lemma SubmissionDecided(s: State, i: JobId, t: int, count: int, id: JobId)
    ensures Decisions(Submit(s, i, t, count).trace, id) == Decisions(s.trace, id) + (if i == id then [Submitted(i, t)] else [])
  {
    var s1 := s.(running := s.running[i := count]);
    DecisionPublished(s1, JobStarted(i, t), id);
    DecisionPublished(s1.Publish(JobStarted(i, t)), Submitted(i, t), id);
  }

  /** The decisions on a job in what is left of a pass, up to the job that breaks it. */
  function DecisionReached(due: seq<Due>, running: map<JobId, int>, fails: JobId -> bool, id: JobId): seq<Event>
    requires forall i :: 0 <= i < |due| ==> due[i].job.nextRunTime.Some?
  {
    if due == [] then []
    else
      var job, now := due[0].job, due[0].now;
      (if job.id == id then DecisionPublishedOn(job, running, now, fails(job.id)) else [])
      + (if Breaks(job, running, now, fails(job.id)) then [] else DecisionReached(due[1..], running, fails, id))
  }

  /** Only the counts of the jobs in it matter to a pass. */
  lemma {:induction false} SameCountsSameDecisions(due: seq<Due>, running: map<JobId, int>, running': map<JobId, int>,
                                                   fails: JobId -> bool, id: JobId)
    requires forall i :: 0 <= i < |due| ==> due[i].job.nextRunTime.Some?
    requires forall i :: 0 <= i < |due| ==>
               var j := due[i].job.id; (j in running <==> j in running') && (j in running ==> running[j] == running'[j])
    ensures DecisionReached(due, running, fails, id) == DecisionReached(due, running', fails, id)
  {
    if due != [] {
      assert DecisionOn(due[0].job, running, due[0].now) == DecisionOn(due[0].job, running', due[0].now);
      SameCountsSameDecisions(due[1..], running, running', fails, id);
    }
  }

  lemma HeadDecides(s: State, fails: JobId -> bool, id: JobId)
    requires ValidState(s) && s.due != []
    ensures
      var head, next := s.due[0], RunNextStep(s, fails(s.due[0].job.id));
      var f := fails(head.job.id);
      && next.due == (if Breaks(head.job, s.running, head.now, f) then [] else s.due[1..])
      && (forall i :: i != head.job.id ==>
            (i in next.running <==> i in s.running) && (i in s.running ==> next.running[i] == s.running[i]))
      && Decisions(next.trace, id) == Decisions(s.trace, id)
           + (if head.job.id == id then DecisionPublishedOn(head.job, s.running, head.now, f) else [])
  {
    OneDecision(Rest(s), s.due[0].job, s.due[0].now, fails(s.due[0].job.id), id);
  }

  lemma RestReached(s: State, fails: JobId -> bool, id: JobId)
    requires ValidState(s) && s.due != []
    ensures ValidState(RunNextStep(s, fails(s.due[0].job.id)))
    ensures
      var head, next := s.due[0], RunNextStep(s, fails(s.due[0].job.id));
      var f := fails(head.job.id);
      DecisionReached(s.due, s.running, fails, id)
      == (if head.job.id == id then DecisionPublishedOn(head.job, s.running, head.now, f) else [])
         + DecisionReached(next.due, next.running, fails, id)
  {
    var next := RunNextStep(s, fails(s.due[0].job.id));
    RunNextKeepsValid(s, fails(s.due[0].job.id));
    HeadDecides(s, fails, id);
    if next.due != [] {
      SameCountsSameDecisions(s.due[1..], s.running, next.running, fails, id);
    }
  }

  lemma OneMoreDecision(s: State, fails: JobId -> bool, id: JobId) returns (next: State, e: seq<Event>)
    requires ValidState(s) && s.due != []
    ensures ValidState(next) && |next.due| < |s.due| && FinishPass(s, fails) == FinishPass(next, fails)
    ensures Decisions(next.trace, id) == Decisions(s.trace, id) + e
    ensures DecisionReached(s.due, s.running, fails, id) == e + DecisionReached(next.due, next.running, fails, id)
  {
    var head := s.due[0];
    next := RunNextStep(s, fails(head.job.id));
    e := if head.job.id == id then DecisionPublishedOn(head.job, s.running, head.now, fails(head.job.id)) else [];
    PassShrinks(s, fails(head.job.id));
    RestReached(s, fails, id);
    HeadDecides(s, fails, id);
  }

  ghost predicate DecidesAsReached(s: State, fails: JobId -> bool, id: JobId)
    requires ValidState(s)
  {
    Decisions(FinishPass(s, fails).trace, id) == Decisions(s.trace, id) + DecisionReached(s.due, s.running, fails, id)
  }

  lemma NothingLeft(s: State, fails: JobId -> bool, id: JobId)
    requires ValidState(s) && s.due == []
    ensures DecidesAsReached(s, fails, id)
  {
  }

  lemma DecidesOneMore(s: State, next: State, e: seq<Event>, fails: JobId -> bool, id: JobId)
    requires ValidState(s) && ValidState(next) && DecidesAsReached(next, fails, id)
    requires FinishPass(s, fails) == FinishPass(next, fails) && Decisions(next.trace, id) == Decisions(s.trace, id) + e
    requires DecisionReached(s.due, s.running, fails, id) == e + DecisionReached(next.due, next.running, fails, id)
    ensures DecidesAsReached(s, fails, id)
  {
    Regroup(Decisions(s.trace, id), e, DecisionReached(next.due, next.running, fails, id));
  }

  lemma Regroup(a: seq<Event>, b: seq<Event>, c: seq<Event>)
    ensures (a + b) + c == a + (b + c)
  {
  }

  /** What the rest of a pass decides: on each of its jobs once, from the counts at its beginning, until one raises. */
  lemma {:induction false} RestDecides(s: State, fails: JobId -> bool, id: JobId)
    requires ValidState(s)
    ensures DecidesAsReached(s, fails, id)
    decreases |s.due|
  {
    if s.due == [] {
      NothingLeft(s, fails, id);
    } else {
      var next, e := OneMoreDecision(s, fails, id);
      RestDecides(next, fails, id);
      DecidesOneMore(s, next, e, fails, id);
    }
  }

  lemma {:induction false} NothingBreaks(due: seq<Due>, running: map<JobId, int>, fails: JobId -> bool, id: JobId)
    requires forall i :: 0 <= i < |due| ==> due[i].job.nextRunTime.Some? && !RaisesWhenRun(due[i].job, due[i].now, fails(due[i].job.id))
    ensures DecisionReached(due, running, fails, id) == DecisionLeft(due, running, id)
  {
    if due != [] {
      NothingBreaks(due[1..], running, fails, id);
    }
  }

  lemma {:induction false} OneLeft(due: seq<Due>, running: map<JobId, int>, id: JobId, k: nat)
    requires forall i :: 0 <= i < |due| ==> due[i].job.nextRunTime.Some?
    requires forall i, j :: 0 <= i < j < |due| ==> due[i].job.id != due[j].job.id
    requires k < |due| && due[k].job.id == id
    ensures DecisionLeft(due, running, id) == [DecisionOn(due[k].job, running, due[k].now)]
  {
    if k == 0 {
      NoneLeft(due[1..], running, id);
    } else {
      OneLeft(due[1..], running, id, k - 1);
    }
  }

  lemma {:induction false} NoneLeft(due: seq<Due>, running: map<JobId, int>, id: JobId)
    requires forall i :: 0 <= i < |due| ==> due[i].job.nextRunTime.Some? && due[i].job.id != id
    ensures DecisionLeft(due, running, id) == []
  {
    if due != [] {
      NoneLeft(due[1..], running, id);
    }
  }

  lemma LeftIsDecisionFor(s: State, now: int, id: JobId)
    requires ValidState(s) && s.due == []
    ensures ValidState(PollStep(s, now))
    ensures DecisionLeft(PollStep(s, now).due, s.running, id) == DecisionFor(s.store.jobs, s.running, id, now)
  {
    PollKeepsValid(s, now);
    PollExactly(s, now);
    var due := PollStep(s, now).due;
    if k: nat :| k < |due| && due[k].job.id == id {
      OneLeft(due, s.running, id, k);
    } else {
      NoneLeft(due, s.running, id);
    }
  }

  /** If no trigger and no write raises, a pass decides exactly once on every job whose run time has come, from what the
      store and the counts said when it began, and on no other. */
  lemma PassDecides(s: State, now: int, fails: JobId -> bool)
    requires ValidState(s) && s.due == []
    requires forall id :: id in s.store.jobs ==> !RaisesWhenRun(s.store.jobs[id], now, fails(id))
    ensures ValidState(PollStep(s, now))
    ensures forall id :: Decisions(FinishPass(PollStep(s, now), fails).trace, id)
                      == Decisions(s.trace, id) + DecisionFor(s.store.jobs, s.running, id, now)
  {
    PollKeepsValid(s, now);
    PollExactly(s, now);
    forall id: JobId | true
      ensures Decisions(FinishPass(PollStep(s, now), fails).trace, id)
           == Decisions(s.trace, id) + DecisionFor(s.store.jobs, s.running, id, now)
    {
      RestDecides(PollStep(s, now), fails, id);
      NothingBreaks(PollStep(s, now).due, s.running, fails, id);
      LeftIsDecisionFor(s, now, id);
    }
  }
}
