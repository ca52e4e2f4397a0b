/** What the recursive meaning of a workflow implies for its records. */
module WorkflowTheorems {
  import opened Prelude
  import opened Graph
  import opened Ancestry
  import opened TaskSpecs
  import opened WorkflowMeaning

  /** The meanings of all nodes. */
  ghost function MeaningRecords(f: Flow, env: Env): Records
    requires ValidFlow(f)
  {
    map n | n in f.nodes :: Meaning(f, env, n)
  }

  ghost predicate UpstreamMeant(f: Flow, env: Env, n: Id, records: Records)
    requires ValidFlow(f)
  {
    forall e :: e in f.edges && e.target == n ==> e.source in f.nodes && e.source in records && records[e.source] == Meaning(f, env, e.source)
  }

  /** The meaning of a node is its record over any records that give its predecessors their meanings. */
  lemma MeaningOver(f: Flow, env: Env, n: Id, records: Records)
    requires ValidFlow(f) && n in f.nodes && UpstreamMeant(f, env, n, records)
    ensures Informed(f, n, records) && Meaning(f, env, n) == NodeRecord(f, env, n, records)
  {
    SourcesKnown(f, n);
    var upstream := map u | u in f.nodes && (u, n) in ToGraph(f).edges :: (EdgesAddAncestors(ToGraph(f), u, n); Meaning(f, env, u));
    SameRecord(f, env, n, upstream, records);
  }

  lemma MeaningOfAll(f: Flow, env: Env, n: Id)
    requires ValidFlow(f) && n in f.nodes
    ensures Informed(f, n, MeaningRecords(f, env))
    ensures Meaning(f, env, n) == NodeRecord(f, env, n, MeaningRecords(f, env))
  {
    SourcesKnown(f, n);
    MeaningOver(f, env, n, MeaningRecords(f, env));
  }

  /** Records in which every node's record follows from those of its predecessors are the meanings: there is only
      one way to run a workflow. */
  lemma {:induction false} OnlyOneOutcome(f: Flow, env: Env, records: Records, n: Id)
    requires ValidFlow(f) && n in f.nodes
    requires forall m :: m in f.nodes ==> m in records && Informed(f, m, records) && records[m] == NodeRecord(f, env, m, records)
    ensures records[n] == Meaning(f, env, n)
    decreases Ancestors(ToGraph(f), n)
  {
    SourcesKnown(f, n);
    forall e | e in f.edges && e.target == n
      ensures records[e.source] == Meaning(f, env, e.source)
    {
      EdgesAddAncestors(ToGraph(f), e.source, n);
      OnlyOneOutcome(f, env, records, e.source);
    }
    MeaningOver(f, env, n, records);
  }

  // ---- skipping ----

  lemma FinalStatus(f: Flow, env: Env, n: Id)
    requires ValidFlow(f) && n in f.nodes
    ensures Meaning(f, env, n).status in {Succeeded, Failed, Skipped}
    ensures Meaning(f, env, n).nodeId == n
  {
    MeaningOfAll(f, env, n);
  }

  /** The task at `u` failed, or it succeeded and an edge from it to `v` has a condition that is not met. */
  ghost predicate FaultAt(f: Flow, env: Env, u: Id, v: Id)
    requires ValidFlow(f)
  {
    && u in f.nodes
    && var record := Meaning(f, env, u);
       || record.status == Failed
       || (record.status == Succeeded && exists e :: ConditionFails(f, env, u, v, record, e))
  }

  ghost predicate ConditionFails(f: Flow, env: Env, u: Id, v: Id, record: TaskRecord, e: Edge) {
    e in f.edges && e.source == u && e.target == v && e.condition.Some? && !env.holds(e.condition.value, record)
  }

  /** A path to `n` that begins with a fault. */
  ghost predicate Blocking(f: Flow, env: Env, p: seq<Id>, n: Id)
    requires ValidFlow(f)
  {
    IsPath(ToGraph(f), p) && |p| > 1 && p[|p| - 1] == n && FaultAt(f, env, p[0], p[1])
  }

  ghost predicate Blocked(f: Flow, env: Env, n: Id)
    requires ValidFlow(f)
  {
    exists p :: Blocking(f, env, p, n)
  }

  /** A node is skipped exactly when some path leads to it from a failed task, or through an edge whose source
      succeeded and whose condition was not met. */
  lemma SkippedIffBlocked(f: Flow, env: Env, n: Id)
    requires ValidFlow(f) && n in f.nodes
    ensures Meaning(f, env, n).status == Skipped <==> Blocked(f, env, n)
  {
    if Meaning(f, env, n).status == Skipped {
      var p := SkippedIsBlocked(f, env, n);
    }
    if Blocked(f, env, n) {
      var p :| Blocking(f, env, p, n);
      BlockedIsSkipped(f, env, p, n);
    }
  }

  lemma {:induction false} SkippedIsBlocked(f: Flow, env: Env, n: Id) returns (p: seq<Id>)
    requires ValidFlow(f) && n in f.nodes && Meaning(f, env, n).status == Skipped
    ensures Blocking(f, env, p, n)
    decreases Ancestors(ToGraph(f), n)
  {
    var e := FaultyEdge(f, env, n);
    FinalStatus(f, env, e.source);
    if Meaning(f, env, e.source).status == Skipped {
      EdgesAddAncestors(ToGraph(f), e.source, n);
      var q := SkippedIsBlocked(f, env, e.source);
      p := ExtendBlocking(f, env, q, e.source, n);
    } else {
      p := DirectlyBlocked(f, env, e);
    }
  }

  lemma DirectlyBlocked(f: Flow, env: Env, e: Edge) returns (p: seq<Id>)
    requires ValidFlow(f) && e in f.edges && e.source in f.nodes && e.target in f.nodes
    requires !EdgeHolds(env, e, Meaning(f, env, e.source)) && Meaning(f, env, e.source).status in {Succeeded, Failed}
    ensures Blocking(f, env, p, e.target)
  {
    var record := Meaning(f, env, e.source);
    assert record.status == Succeeded ==> ConditionFails(f, env, e.source, e.target, record, e);
    PairOfEdge(f, e);
    p := [e.source, e.target];
  }

  lemma FaultyEdge(f: Flow, env: Env, n: Id) returns (e: Edge)
    requires ValidFlow(f) && n in f.nodes && Meaning(f, env, n).status == Skipped
    ensures e in f.edges && e.target == n && e.source in f.nodes && !EdgeHolds(env, e, Meaning(f, env, e.source))
    ensures ValidGraph(ToGraph(f)) && (e.source, n) in ToGraph(f).edges
  {
    MeaningOfAll(f, env, n);
    SourcesKnown(f, n);
    e :| e in f.edges && e.target == n && !EdgeHolds(env, e, Meaning(f, env, e.source));
  }

  lemma ExtendBlocking(f: Flow, env: Env, q: seq<Id>, u: Id, n: Id) returns (p: seq<Id>)
    requires ValidFlow(f) && n in f.nodes && Blocking(f, env, q, u) && (u, n) in ToGraph(f).edges
    ensures Blocking(f, env, p, n)
  {
    p := q + [n];
    Extended(ToGraph(f), q, n);
  }

  lemma Extended(g: Graph, p: seq<Id>, n: Id)
    requires IsPath(g, p) && n in g.nodes && (p[|p| - 1], n) in g.edges
    ensures IsPath(g, p + [n])
  {
  }

  /** A node one of whose incoming edges does not hold is skipped. */
  lemma SkippedBy(f: Flow, env: Env, e: Edge)
    requires ValidFlow(f) && e in f.edges
    ensures ValidEdge(f, e)
    ensures !EdgeHolds(env, e, Meaning(f, env, e.source)) ==> Meaning(f, env, e.target).status == Skipped
  {
    assert ValidEdge(f, e);
    MeaningOfAll(f, env, e.target);
  }

  lemma {:induction false} BlockedIsSkipped(f: Flow, env: Env, p: seq<Id>, n: Id)
    requires ValidFlow(f) && n in f.nodes && Blocking(f, env, p, n)
    ensures Meaning(f, env, n).status == Skipped
    decreases |p|
  {
    var k := |p| - 2;
    assert (p[k], p[k + 1]) in ToGraph(f).edges;
    if k == 0 && Meaning(f, env, p[0]).status == Succeeded {
      var e :| ConditionFails(f, env, p[0], p[1], Meaning(f, env, p[0]), e);
      SkippedBy(f, env, e);
    } else {
      if k > 0 {
        BlockedIsSkipped(f, env, p[..k + 1], p[k]);
      }
      var e := EdgeOfPair(f, p[k], p[k + 1]);
      SkippedBy(f, env, e);
    }
  }

  /** In a run without failures only unmet conditions skip tasks: on the way to a skipped task lies an edge whose
      source succeeded and whose condition was not met. */
  lemma OnlyConditionsSkip(f: Flow, env: Env, n: Id) returns (e: Edge)
    requires ValidFlow(f) && n in f.nodes && Meaning(f, env, n).status == Skipped
    requires forall m :: m in f.nodes ==> Meaning(f, env, m).status != Failed
    ensures e in f.edges && e.source in f.nodes && e.condition.Some?
    ensures Meaning(f, env, e.source).status == Succeeded && !env.holds(e.condition.value, Meaning(f, env, e.source))
    ensures Reachable(ToGraph(f), e.target, n)
  {
    var p := SkippedIsBlocked(f, env, n);
    var u := p[0];
    assert FaultAt(f, env, u, p[1]);
    e :| ConditionFails(f, env, u, p[1], Meaning(f, env, u), e);
    RestOfPath(ToGraph(f), p);
  }

  lemma RestOfPath(g: Graph, p: seq<Id>)
    requires IsPath(g, p) && |p| > 1
    ensures Reachable(g, p[1], p[|p| - 1])
  {
    assert PathFromTo(g, p[1..], p[1], p[|p| - 1]);
  }

  /** The reasons recorded for a skipped node are those of the edges at fault if and only if no condition on an edge
      into it was met. */
  lemma RecordedReasons(f: Flow, env: Env, n: Id)
    requires ValidFlow(f) && n in f.nodes && Meaning(f, env, n).status == Skipped
    ensures Informed(f, n, MeaningRecords(f, env))
    ensures Meaning(f, env, n).skipReasons == Faults(env, f.edges, n, MeaningRecords(f, env))
            <==> NoConditionMet(env, f.edges, n, MeaningRecords(f, env))
  {
    MeaningOfAll(f, env, n);
    ReasonsAreFaultsIff(env, f.edges, n, MeaningRecords(f, env));
  }

  // ---- running ----

  lemma RunsWithResultsOfAll(f: Flow, env: Env, n: Id)
    requires ValidFlow(f) && n in f.nodes && Meaning(f, env, n).status != Skipped
    ensures
      var records, before := MeaningRecords(f, env), Predecessors(ToGraph(f), n);
      && Informed(f, n, records)
      && (forall u :: u in before ==> u in records && records[u].status == Succeeded)
      && BuildKwargs(f, env, n, records) == WithResults(env, records, before)
  {
    SourcesAreAll(f, env, n);
  }

  /** What a task that is not skipped is called with: every workflow input, and under `_pre_results` the result of each
      of its predecessors, if it has any, each once, however many parallel edges lead from it. An input of that name
      gives way to the results. */
  lemma RunsWithAllPredecessors(f: Flow, env: Env, n: Id)
    requires ValidFlow(f) && n in f.nodes && Meaning(f, env, n).status != Skipped
    ensures Informed(f, n, MeaningRecords(f, env))
    ensures
      var kwargs, before := BuildKwargs(f, env, n, MeaningRecords(f, env)), Predecessors(ToGraph(f), n);
      && (forall u :: u in before ==> u in f.nodes && Meaning(f, env, u).status == Succeeded)
      && CalledWith(kwargs, env.inputs, before, MeaningRecords(f, env))
  {
    RunsWithResultsOfAll(f, env, n);
    PredecessorsAreNodes(f, n);
    CalledWithResults(env, MeaningRecords(f, env), Predecessors(ToGraph(f), n));
  }

  lemma PredecessorsAreNodes(f: Flow, n: Id)
    requires ValidFlow(f)
    ensures forall u :: u in Predecessors(ToGraph(f), n) <==> u in f.nodes && (u, n) in ToGraph(f).edges
  {
    GraphIsValid(f);
  }

  /** What the record of a task that ran says: it comes from the first attempt that succeeded, or from the last one. */
  lemma RecordExactly(f: Flow, env: Env, n: Id) returns (i: nat)
    requires ValidFlow(f) && n in f.nodes && Meaning(f, env, n).status != Skipped
    ensures Informed(f, n, MeaningRecords(f, env))
    ensures
      var record, kwargs := Meaning(f, env, n), BuildKwargs(f, env, n, MeaningRecords(f, env));
      var spec, retries, result := f.nodes[n].spec, f.nodes[n].retries, env.run(f.nodes[n].spec, kwargs, i);
      && i < retries && (forall j :: 0 <= j < i ==> !env.run(spec, kwargs, j).succeeded)
      && (result.succeeded || i == retries - 1)
      && (result.succeeded ==> record.status == Succeeded && record.result == result.result && record.error == None)
      && (!result.succeeded ==>
            && record.status == Failed && record.result == None
            && record.error == (if result.error.Some? && result.error.value != "" then result.error else Some("Task failed")))
      && record.stdout == result.stdout && record.stderr == result.stderr && record.exitCode == result.exitCode
      && record.nodeId == n && record.skipReasons == []
  {
    MeaningOfAll(f, env, n);
    var kwargs, spec, retries := BuildKwargs(f, env, n, MeaningRecords(f, env)), f.nodes[n].spec, f.nodes[n].retries;
    assert CheckPreconditions(f, env, n, MeaningRecords(f, env));
    i := AttemptOf(env, spec, kwargs, 0, retries);
  }

  lemma AttemptOf(env: Env, spec: TaskSpec, kwargs: Kwargs, from: nat, retries: nat) returns (i: nat)
    requires from < retries
    ensures from <= i < retries && Attempts(env, spec, kwargs, from, retries) == env.run(spec, kwargs, i)
    ensures forall j :: from <= j < i ==> !env.run(spec, kwargs, j).succeeded
    ensures env.run(spec, kwargs, i).succeeded || i == retries - 1
    decreases retries - from
  {
    if env.run(spec, kwargs, from).succeeded || from + 1 == retries {
      i := from;
    } else {
      i := AttemptOf(env, spec, kwargs, from + 1, retries);
    }
  }

  /** The record of a skipped node holds the reasons and nothing else. */
  lemma SkippedRecordExactly(f: Flow, env: Env, n: Id)
    requires ValidFlow(f) && n in f.nodes && Meaning(f, env, n).status == Skipped
    ensures Informed(f, n, MeaningRecords(f, env))
    ensures var reasons := SkipReasons(f.edges, n, MeaningRecords(f, env));
            Meaning(f, env, n) == TaskRecord(n, Skipped, None, None, reasons, None, None, None)
  {
    MeaningOfAll(f, env, n);
  }

  /** A node runs exactly when every edge into it comes from a task that succeeded and has no condition, or one that
      holds of that task's record. */
  lemma RunsExactly(f: Flow, env: Env, n: Id)
    requires ValidFlow(f) && n in f.nodes
    ensures Meaning(f, env, n).status != Skipped <==>
              forall e :: e in f.edges && e.target == n ==>
                && e.source in f.nodes && Meaning(f, env, e.source).status == Succeeded
                && (e.condition.Some? ==> env.holds(e.condition.value, Meaning(f, env, e.source)))
  {
    MeaningOfAll(f, env, n);
    SourcesKnown(f, n);
  }

  lemma SourcesAreAll(f: Flow, env: Env, n: Id)
    requires ValidFlow(f) && n in f.nodes && Meaning(f, env, n).status != Skipped
    ensures Informed(f, n, MeaningRecords(f, env))
    ensures SucceededSources(f, n, MeaningRecords(f, env)) == Predecessors(ToGraph(f), n)
  {
    var records, before := MeaningRecords(f, env), Predecessors(ToGraph(f), n);
    MeaningOfAll(f, env, n);
    assert CheckPreconditions(f, env, n, records);
    forall u | u in before
      ensures u in SucceededSources(f, n, records)
    {
      var e := EdgeOfPair(f, u, n);
      assert EdgeHolds(env, e, records[e.source]);
    }
    forall u | u in SucceededSources(f, n, records)
      ensures u in before
    {
      var e :| e in f.edges && e.target == n && records[e.source].status == Succeeded && e.source == u;
      PairOfEdge(f, e);
    }
  }
}
