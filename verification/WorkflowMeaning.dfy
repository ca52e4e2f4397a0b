/**
  What running a workflow means: a recursive reading of the DAG, without layers, threads or an order of completion.

  The runner and the conditions are functions of what the program passes to them: a task's result depends on its
  specification, its keyword arguments and the number of the attempt, a condition on the upstream record. Records
  are without their times.
 */
module WorkflowMeaning {
  import opened Prelude
  import opened Graph
  import opened Layering
  import opened Ancestry
  import opened TaskSpecs

  type Value = string

  // ---- definitions ----

  datatype Node = Node(
    spec: TaskSpec,
    name: Option<string>,
    description: Option<string>,
    retries: int,
    onSuccess: Option<TaskSpec>,
    onFailure: Option<TaskSpec>)

  datatype Edge = Edge(
    source: Id,
    target: Id,
    condition: Option<TaskSpec>,
    name: Option<string>,
    description: Option<string>)

  /** The nodes in insertion order, and the edges. */
  datatype Flow = Flow(order: seq<Id>, nodes: map<Id, Node>, edges: seq<Edge>)

  function Pairs(edges: seq<Edge>): (r: seq<(Id, Id)>)
    ensures |r| == |edges|
    ensures forall i :: 0 <= i < |r| ==> r[i] == (edges[i].source, edges[i].target)
  {
    seq(|edges|, i requires 0 <= i < |edges| => (edges[i].source, edges[i].target))
  }

  /** `_to_graph` */
  function ToGraph(f: Flow): Graph {
    Graph(f.order, Pairs(f.edges))
  }

  lemma PairOfEdge(f: Flow, e: Edge)
    requires e in f.edges
    ensures (e.source, e.target) in ToGraph(f).edges
  {
    var i :| 0 <= i < |f.edges| && f.edges[i] == e;
    assert Pairs(f.edges)[i] == (e.source, e.target);
  }

  lemma EdgeOfPair(f: Flow, u: Id, v: Id) returns (e: Edge)
    requires (u, v) in ToGraph(f).edges
    ensures e in f.edges && e.source == u && e.target == v
  {
    var i :| 0 <= i < |f.edges| && Pairs(f.edges)[i] == (u, v);
    e := f.edges[i];
  }

  predicate ValidNode(id: Id, node: Node) {
    && id != "" && node.retries >= 1 && Acceptable(node.spec)
    && (node.onSuccess.Some? ==> Acceptable(node.onSuccess.value))
    && (node.onFailure.Some? ==> Acceptable(node.onFailure.value))
  }

  predicate ValidEdge(f: Flow, e: Edge) {
    e.source in f.nodes && e.target in f.nodes && (e.condition.Some? ==> Acceptable(e.condition.value))
  }

  /** Everything about a flow but the absence of cycles. */
  ghost predicate WellFormed(f: Flow) {
    && NoDuplicates(f.order) && (forall n :: n in f.order <==> n in f.nodes)
    && (forall n :: n in f.nodes ==> ValidNode(n, f.nodes[n]))
    && (forall e :: e in f.edges ==> ValidEdge(f, e))
  }

  ghost predicate ValidFlow(f: Flow) {
    WellFormed(f) && Acyclic(ToGraph(f))
  }

  lemma GraphIsValid(f: Flow)
    requires WellFormed(f)
    ensures ValidGraph(ToGraph(f))
  {
    forall p | p in ToGraph(f).edges
      ensures p.0 in f.order && p.1 in f.order
    {
      var e := EdgeOfPair(f, p.0, p.1);
      assert ValidEdge(f, e);
    }
  }

  // ---- records ----

  datatype Status = Pending | Running | Succeeded | Failed | Skipped

  datatype Reason = DidNotSucceed(source: Id) | ConditionNotMet(source: Id)

  datatype TaskRecord = TaskRecord(
    nodeId: Id,
    status: Status,
    result: Option<Value>,
    error: Option<string>,
    skipReasons: seq<Reason>,
    stdout: Option<string>,
    stderr: Option<string>,
    exitCode: Option<int>)

  function FreshRecord(n: Id): TaskRecord {
    TaskRecord(n, Pending, None, None, [], None, None, None)
  }

  datatype TaskResult = TaskResult(
    succeeded: bool,
    result: Option<Value>,
    error: Option<string>,
    stdout: Option<string>,
    stderr: Option<string>,
    exitCode: Option<int>)

  /** A keyword argument: a workflow input, or the `_pre_results` of the predecessors. */
  datatype Argument = Input(value: Value) | PreResults(results: map<Id, Option<Value>>)

  type Kwargs = map<string, Argument>

  type Records = map<Id, TaskRecord>

  datatype Env = Env(
    run: (TaskSpec, Kwargs, nat) -> TaskResult,
    holds: (TaskSpec, TaskRecord) -> bool,
    inputs: map<string, Value>)

  // ---- one node ----

  /** The records of the sources of all edges into `n` are there. */
  predicate Informed(f: Flow, n: Id, records: Records) {
    forall e :: e in f.edges && e.target == n ==> e.source in records
  }

  predicate EdgeHolds(env: Env, e: Edge, upstream: TaskRecord) {
    upstream.status == Succeeded && (e.condition.Some? ==> env.holds(e.condition.value, upstream))
  }

  /** `_check_preconditions` */
  predicate CheckPreconditions(f: Flow, env: Env, n: Id, records: Records)
    requires Informed(f, n, records)
  {
    forall e :: e in f.edges && e.target == n ==> EdgeHolds(env, e, records[e.source])
  }

  /** `_skip_reason`. A condition that was met is listed as well, when another edge is at fault. */
  function SkipReasons(edges: seq<Edge>, n: Id, records: Records): seq<Reason>
    requires forall e :: e in edges && e.target == n ==> e.source in records
  {
    if edges == [] then []
    else
      var e := edges[0];
      (if e.target != n then [] else ReasonOf(e, records[e.source])) + SkipReasons(edges[1..], n, records)
  }

  /** The reasons of the edges that do not hold, and of no others. */
  function Faults(env: Env, edges: seq<Edge>, n: Id, records: Records): seq<Reason>
    requires forall e :: e in edges && e.target == n ==> e.source in records
  {
    if edges == [] then []
    else
      var e := edges[0];
      (if e.target != n then [] else FaultOf(e, env, records[e.source])) + Faults(env, edges[1..], n, records)
  }

  /** No edge into `n` with a condition holds. */
  predicate NoConditionMet(env: Env, edges: seq<Edge>, n: Id, records: Records)
    requires forall e :: e in edges && e.target == n ==> e.source in records
  {
    forall e :: e in edges && e.target == n && e.condition.Some? ==> !EdgeHolds(env, e, records[e.source])
  }

  /** `_skip_reason` lists exactly the edges at fault if and only if no edge with a condition holds. */
  lemma {:induction false} ReasonsAreFaultsIff(env: Env, edges: seq<Edge>, n: Id, records: Records)
    requires forall e :: e in edges && e.target == n ==> e.source in records
    ensures |Faults(env, edges, n, records)| <= |SkipReasons(edges, n, records)|
    ensures SkipReasons(edges, n, records) == Faults(env, edges, n, records) <==> NoConditionMet(env, edges, n, records)
    decreases |edges|
  {
    if edges != [] {
      assert edges[0] in edges && forall e :: e in edges <==> e == edges[0] || e in edges[1..];
      ReasonsAreFaultsIff(env, edges[1..], n, records);
      OneMoreCondition(env, edges, n, records);
      if edges[0].target != n {
        assert SkipReasons(edges, n, records) == SkipReasons(edges[1..], n, records);
        assert Faults(env, edges, n, records) == Faults(env, edges[1..], n, records);
      } else {
        OneMoreReason(edges[0], env, records[edges[0].source], SkipReasons(edges[1..], n, records), Faults(env, edges[1..], n, records));
      }
    }
  }

  lemma OneMoreCondition(env: Env, edges: seq<Edge>, n: Id, records: Records)
    requires edges != [] && forall e :: e in edges && e.target == n ==> e.source in records
    ensures forall e :: e in edges[1..] && e.target == n ==> e.source in records
    ensures edges[0].target == n ==> edges[0].source in records
    ensures NoConditionMet(env, edges, n, records)
            <==> && (edges[0].target == n && edges[0].condition.Some? ==> !EdgeHolds(env, edges[0], records[edges[0].source]))
                 && NoConditionMet(env, edges[1..], n, records)
  {
    assert edges[0] in edges && forall e :: e in edges <==> e == edges[0] || e in edges[1..];
  }

  /** The reason that `_skip_reason` gives for an edge, and the one the edge deserves. */
  function ReasonOf(e: Edge, upstream: TaskRecord): seq<Reason> {
    if upstream.status != Succeeded then [DidNotSucceed(e.source)]
    else if e.condition.Some? then [ConditionNotMet(e.source)]
    else []
  }

  function FaultOf(e: Edge, env: Env, upstream: TaskRecord): seq<Reason> {
    if EdgeHolds(env, e, upstream) then []
    else if upstream.status != Succeeded then [DidNotSucceed(e.source)]
    else [ConditionNotMet(e.source)]
  }

  lemma OneMoreReason(e: Edge, env: Env, upstream: TaskRecord, reasons: seq<Reason>, faults: seq<Reason>)
    requires |faults| <= |reasons|
    ensures |FaultOf(e, env, upstream) + faults| <= |ReasonOf(e, upstream) + reasons|
    ensures ReasonOf(e, upstream) + reasons == FaultOf(e, env, upstream) + faults
            <==> reasons == faults && !(e.condition.Some? && EdgeHolds(env, e, upstream))
  {
    var a, c := ReasonOf(e, upstream), FaultOf(e, env, upstream);
    if a == c {
      assert (a + reasons)[|a|..] == reasons && (c + faults)[|a|..] == faults;
    }
  }

  /** A node behind a failed task `a`, and behind a task `b` that succeeded and whose condition was met: the reasons
      blame the condition, which is not at fault. */
  lemma MetConditionIsBlamed()
    ensures
      var always := TaskSpec("python_callable", Reference("m:f"), None, None, None, [], map[], None);
      var edges := [Edge("a", "n", None, None, None), Edge("b", "n", Some(always), None, None)];
      var records := map["a" := FreshRecord("a").(status := Failed), "b" := FreshRecord("b").(status := Succeeded)];
      var env := Env((s, k, i) => TaskResult(true, None, None, None, None, None), (s, r) => true, map[]);
      && SkipReasons(edges, "n", records) == [DidNotSucceed("a"), ConditionNotMet("b")]
      && Faults(env, edges, "n", records) == [DidNotSucceed("a")]
  {
    var always := TaskSpec("python_callable", Reference("m:f"), None, None, None, [], map[], None);
    var first, second := Edge("a", "n", None, None, None), Edge("b", "n", Some(always), None, None);
    var records := map["a" := FreshRecord("a").(status := Failed), "b" := FreshRecord("b").(status := Succeeded)];
    var env := Env((s, k, i) => TaskResult(true, None, None, None, None, None), (s, r) => true, map[]);
    assert [first, second][1..] == [second] && [second][1..] == [];
    assert records["a"].status == Failed && records["b"].status == Succeeded;
    assert SkipReasons([second], "n", records) == [ConditionNotMet("b")] + SkipReasons([], "n", records);
    assert EdgeHolds(env, second, records["b"]);
    assert Faults(env, [second], "n", records) == [] + Faults(env, [], "n", records);
    assert SkipReasons([first, second], "n", records) == [DidNotSucceed("a")] + SkipReasons([second], "n", records);
    assert Faults(env, [first, second], "n", records) == [DidNotSucceed("a")] + Faults(env, [second], "n", records);
  }

  /** The predecessors whose tasks succeeded. */
  function SucceededSources(f: Flow, n: Id, records: Records): set<Id>
    requires Informed(f, n, records)
  {
    set e | e in f.edges && e.target == n && records[e.source].status == Succeeded :: e.source
  }

  /** The inputs, and under `_pre_results` the results of `sources`, if there are any. */
  function WithResults(env: Env, records: Records, sources: set<Id>): Kwargs
    requires forall s :: s in sources ==> s in records
  {
    var kwargs := map k | k in env.inputs :: Input(env.inputs[k]);
    if sources == {} then kwargs
    else kwargs["_pre_results" := PreResults(map s | s in sources :: records[s].result)]
  }

  /** The arguments are every input, and under `_pre_results` the result of each of the predecessors `before`, if there
      are any. An input of that name gives way to the results. */
  ghost predicate CalledWith(kwargs: Kwargs, inputs: map<string, Value>, before: set<Id>, records: Records) {
    && (forall key :: key in kwargs <==> key in inputs || (key == "_pre_results" && before != {}))
    && (forall key :: key in inputs && (key != "_pre_results" || before == {}) ==> kwargs[key] == Input(inputs[key]))
    && (before != {} ==> kwargs["_pre_results"].PreResults? && ResultsOf(kwargs["_pre_results"].results, before, records))
  }

  ghost predicate ResultsOf(results: map<Id, Option<Value>>, before: set<Id>, records: Records) {
    && (forall u :: u in results <==> u in before)
    && (forall u :: u in before ==> u in records && results[u] == records[u].result)
  }

  lemma CalledWithResults(env: Env, records: Records, sources: set<Id>)
    requires forall s :: s in sources ==> s in records
    ensures CalledWith(WithResults(env, records, sources), env.inputs, sources, records)
  {
  }

  /** `_build_kwargs` */
  function BuildKwargs(f: Flow, env: Env, n: Id, records: Records): Kwargs
    requires Informed(f, n, records)
  {
    WithResults(env, records, SucceededSources(f, n, records))
  }

  /** The attempts of a node from number `i` on: the first that succeeds, or else the last. */
  function Attempts(env: Env, spec: TaskSpec, kwargs: Kwargs, i: nat, retries: nat): (r: TaskResult)
    requires i < retries
    ensures r.succeeded <==> exists j :: i <= j < retries && env.run(spec, kwargs, j).succeeded
    ensures r.succeeded ==> exists j :: i <= j < retries && r == env.run(spec, kwargs, j) && FailsBefore(env, spec, kwargs, i, j)
    ensures !r.succeeded ==> r == env.run(spec, kwargs, retries - 1)
    decreases retries - i
  {
    var r := env.run(spec, kwargs, i);
    if r.succeeded || i + 1 == retries then
      assert FailsBefore(env, spec, kwargs, i, i);
      r
    else
      var rest := Attempts(env, spec, kwargs, i + 1, retries);
      assert forall j :: i + 1 <= j < retries && FailsBefore(env, spec, kwargs, i + 1, j) ==> FailsBefore(env, spec, kwargs, i, j);
      rest
  }

  predicate FailsBefore(env: Env, spec: TaskSpec, kwargs: Kwargs, i: nat, j: nat) {
    forall h :: i <= h < j ==> !env.run(spec, kwargs, h).succeeded
  }

  /** `_apply_result` on the record of a running node. */
  function ApplyResult(record: TaskRecord, result: TaskResult): TaskRecord {
    var r :=
      if result.succeeded then record.(status := Succeeded, result := result.result)
      else record.(status := Failed, error := Some(if Given(result.error) then result.error.value else "Task failed"));
    r.(stdout := result.stdout, stderr := result.stderr, exitCode := result.exitCode)
  }

  /** The final record of a node, from the final records of its predecessors. */
  function NodeRecord(f: Flow, env: Env, n: Id, records: Records): TaskRecord
    requires n in f.nodes && ValidNode(n, f.nodes[n]) && Informed(f, n, records)
  {
    if CheckPreconditions(f, env, n, records) then
      var result := Attempts(env, f.nodes[n].spec, BuildKwargs(f, env, n, records), 0, f.nodes[n].retries);
      ApplyResult(FreshRecord(n).(status := Running), result)
    else
      FreshRecord(n).(status := Skipped, skipReasons := SkipReasons(f.edges, n, records))
  }

  /** The records agree on the sources of the edges into `n`. */
  predicate AgreeAbove(f: Flow, n: Id, r: Records, s: Records) {
    forall e :: e in f.edges && e.target == n ==> e.source in r && e.source in s && r[e.source] == s[e.source]
  }

  lemma {:induction false} SameReasons(edges: seq<Edge>, n: Id, r: Records, s: Records)
    requires forall e :: e in edges && e.target == n ==> e.source in r && e.source in s && r[e.source] == s[e.source]
    ensures SkipReasons(edges, n, r) == SkipReasons(edges, n, s)
    decreases |edges|
  {
    if edges != [] {
      assert edges[0] in edges;
      SameReasons(edges[1..], n, r, s);
    }
  }

  lemma SameKwargs(f: Flow, env: Env, n: Id, r: Records, s: Records)
    requires AgreeAbove(f, n, r, s)
    ensures BuildKwargs(f, env, n, r) == BuildKwargs(f, env, n, s)
  {
    assert SucceededSources(f, n, r) == SucceededSources(f, n, s);
    var sources := SucceededSources(f, n, r);
    assert (map u | u in sources :: r[u].result) == (map u | u in sources :: s[u].result);
  }

  /** The record of a node depends on nothing but the records of its predecessors. */
  lemma SameRecord(f: Flow, env: Env, n: Id, r: Records, s: Records)
    requires n in f.nodes && ValidNode(n, f.nodes[n]) && AgreeAbove(f, n, r, s)
    ensures NodeRecord(f, env, n, r) == NodeRecord(f, env, n, s)
  {
    SameReasons(f.edges, n, r, s);
    SameKwargs(f, env, n, r, s);
  }

  // ---- the meaning ----

  /** The final record of a node: that of its predecessors' meanings. */
  ghost function Meaning(f: Flow, env: Env, n: Id): (r: TaskRecord)
    requires ValidFlow(f) && n in f.nodes
    decreases Ancestors(ToGraph(f), n)
  {
    SourcesKnown(f, n);
    NodeRecord(f, env, n,
               map u | u in f.nodes && (u, n) in ToGraph(f).edges ::
                 (EdgesAddAncestors(ToGraph(f), u, n); Meaning(f, env, u)))
  }

  lemma SourcesKnown(f: Flow, n: Id)
    requires WellFormed(f)
    ensures ValidGraph(ToGraph(f))
    ensures forall e :: e in f.edges && e.target == n ==> e.source in f.nodes && (e.source, n) in ToGraph(f).edges
  {
    GraphIsValid(f);
    forall e | e in f.edges && e.target == n
      ensures e.source in f.nodes && (e.source, n) in ToGraph(f).edges
    {
      assert ValidEdge(f, e);
      PairOfEdge(f, e);
    }
  }
}
