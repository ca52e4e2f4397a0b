/** Execution records and the log of one run (src/schedflow/core/log.py), without times. */
module ExecutionLogs {
  import opened Prelude
  import opened Graph
  import opened TaskSpecs
  import opened WorkflowMeaning

  /** The states a record has gone through by the time it has the given status. */
  function Course(s: Status): seq<Status> {
    match s
    case Pending => []
    case Running => [Running]
    case Succeeded => [Running, Succeeded]
    case Failed => [Running, Failed]
    case Skipped => [Skipped]
  }

  /** The marks on record `n`, in order. */
  function CourseOf(history: seq<(Id, Status)>, n: Id): seq<Status> {
    if history == [] then []
    else
      var last := history[|history| - 1];
      CourseOf(history[..|history| - 1], n) + (if last.0 == n then [last.1] else [])
  }

  lemma CourseGrows(history: seq<(Id, Status)>, n: Id, s: Status)
    ensures CourseOf(history + [(n, s)], n) == CourseOf(history, n) + [s]
    ensures forall m :: m != n ==> CourseOf(history + [(n, s)], m) == CourseOf(history, m)
  {
    assert (history + [(n, s)])[..|history|] == history;
  }

  class ExecutionLog {
    var records: Records
    ghost var history: seq<(Id, Status)>

    /** Every record has gone through the states that lead to its status, and through no others. */
    ghost predicate Valid()
      reads this
    {
      forall n :: n in records ==> records[n].nodeId == n && CourseOf(history, n) == Course(records[n].status)
    }

    /** Every record has been started and has succeeded or failed, or has been skipped, once each. */
    ghost predicate Finished()
      reads this
    {
      forall n :: n in records ==> CourseOf(history, n) in {[Running, Succeeded], [Running, Failed], [Skipped]}
    }

    lemma FinalStatusesFinish()
      requires Valid() && forall n :: n in records ==> records[n].status in {Succeeded, Failed, Skipped}
      ensures Finished()
    {
    }

    constructor (ids: seq<Id>)
      ensures Valid() && history == [] && records == map n | n in ids :: FreshRecord(n)
    {
      records := map n | n in ids :: FreshRecord(n);
      history := [];
    }

    ghost predicate Marked(before: Records, history0: seq<(Id, Status)>, n: Id, record: TaskRecord)
      reads this
    {
      records == before[n := record] && history == history0 + [(n, record.status)]
    }

    method MarkStarted(n: Id)
      requires n in records
      modifies this
      ensures Marked(old(records), old(history), n, old(records)[n].(status := Running))
      ensures old(Valid()) && old(records)[n].status == Pending ==> Valid()
    {
      CourseGrows(history, n, Running);
      records := records[n := records[n].(status := Running)];
      history := history + [(n, Running)];
    }

    method MarkSucceeded(n: Id, result: Option<Value>)
      requires n in records
      modifies this
      ensures Marked(old(records), old(history), n, old(records)[n].(status := Succeeded, result := result))
      ensures old(Valid()) && old(records)[n].status == Running ==> Valid()
    {
      CourseGrows(history, n, Succeeded);
      records := records[n := records[n].(status := Succeeded, result := result)];
      history := history + [(n, Succeeded)];
    }

    method MarkFailed(n: Id, error: string)
      requires n in records
      modifies this
      ensures Marked(old(records), old(history), n, old(records)[n].(status := Failed, error := Some(error)))
      ensures old(Valid()) && old(records)[n].status == Running ==> Valid()
    {
      CourseGrows(history, n, Failed);
      records := records[n := records[n].(status := Failed, error := Some(error))];
      history := history + [(n, Failed)];
    }

    method MarkSkipped(n: Id, reasons: seq<Reason>)
      requires n in records
      modifies this
      ensures Marked(old(records), old(history), n, old(records)[n].(status := Skipped, skipReasons := reasons))
      ensures old(Valid()) && old(records)[n].status == Pending ==> Valid()
    {
      CourseGrows(history, n, Skipped);
      records := records[n := records[n].(status := Skipped, skipReasons := reasons)];
      history := history + [(n, Skipped)];
    }

    /** `_apply_result` (workflow.py:287-302), without the callbacks. */
    method Apply(n: Id, result: TaskResult)
      requires n in records
      modifies this
      ensures records == old(records)[n := ApplyResult(old(records)[n], result)]
      ensures history == old(history) + [(n, if result.succeeded then Succeeded else Failed)]
      ensures old(Valid()) && old(records)[n].status == Running ==> Valid()
    {
      if result.succeeded {
        MarkSucceeded(n, result.result);
      } else {
        MarkFailed(n, if Given(result.error) then result.error.value else "Task failed");
      }
      records := records[n := records[n].(stdout := result.stdout, stderr := result.stderr, exitCode := result.exitCode)];
    }

    /** `succeeded`: no node failed. */
    predicate HasSucceeded()
      reads this
    {
      forall n :: n in records ==> records[n].status != Failed
    }
  }
}
