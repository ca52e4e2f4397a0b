/**
  The workflow object (src/schedflow/core/workflow.py): building the DAG and running it layer by layer.
 */
module Workflows {
  import opened Prelude
  import opened Graph
  import opened Layering
  import opened TaskSpecs
  import opened WorkflowMeaning
  import opened WorkflowTheorems
  import opened ExecutionLogs

  datatype EdgeOutcome = Added | UnknownNode | CycleError

  /** `networkx.is_directed_acyclic_graph`: by its generations. */
  method IsDag(g: Graph) returns (b: bool)
    requires ValidGraph(g)
    ensures b <==> Acyclic(g)
  {
    var layers := Generations(g);
    CoversAllIffAcyclic(g, layers);
    b := Below(layers, |layers|) == Elements(g.nodes);
  }

  /** A node without edges closes no cycle. */
  lemma NewNodeKeepsAcyclic(g: Graph, n: Id)
    requires ValidGraph(g) && Acyclic(g)
    ensures Acyclic(g.(nodes := g.nodes + [n]))
  {
    var h := g.(nodes := g.nodes + [n]);
    forall p | IsCycle(h, p)
      ensures false
    {
      forall i | 0 <= i < |p|
        ensures p[i] in g.nodes
      {
        if i < |p| - 1 {
          assert (p[i], p[i + 1]) in g.edges;
        } else {
          assert (p[i - 1], p[i - 1 + 1]) in g.edges;
        }
      }
      assert IsCycle(g, p);
    }
  }

  lemma NewEdgePair(f: Flow, e: Edge)
    ensures ToGraph(f.(edges := f.edges + [e])) == WithEdge(ToGraph(f), e.source, e.target)
  {
    assert Pairs(f.edges + [e]) == Pairs(f.edges) + [(e.source, e.target)];
  }

  function Retries(retries: int): (n: int)
    ensures n >= 1 && (retries >= 1 ==> n == retries) && (retries < 1 ==> n == 1)
  {
    Max(1, if retries == 0 then 1 else retries)
  }

  // ---- one generation ----

  /** The nodes of a generation have not been touched, and their predecessors are not among them. */
  ghost predicate Untouched(f: Flow, generation: seq<Id>, records: Records) {
    && NoDuplicates(generation)
    && (forall n :: n in f.nodes <==> n in records)
    && (forall n :: n in generation ==> n in f.nodes && records[n] == FreshRecord(n) && Informed(f, n, records))
    && (forall e :: e in f.edges && e.target in generation ==> e.source !in generation)
  }

  function RunningRecord(n: Id): TaskRecord {
    FreshRecord(n).(status := Running)
  }

  /** What the records at the start of a generation decide: which nodes run, with which arguments, and the final
      record of each node. */
  datatype Plan = Plan(arguments: map<Id, Kwargs>, finals: Records)

  ghost function PlanOf(f: Flow, env: Env, generation: seq<Id>, r0: Records): Plan
    requires WellFormed(f) && Untouched(f, generation, r0)
  {
    Plan(map n | n in generation && CheckPreconditions(f, env, n, r0) :: BuildKwargs(f, env, n, r0),
         map n | n in generation :: NodeRecord(f, env, n, r0))
  }

  /** The state of the submitting loop when the nodes in `seen` have been looked at. */
  ghost predicate Submitting(plan: Plan, seen: set<Id>, r0: Records, r: Records, futures: map<Id, Kwargs>) {
    && r.Keys == r0.Keys
    && (forall n :: n in r && n !in seen ==> r[n] == r0[n])
    && (forall n :: n in r && n in seen ==>
          if n in plan.arguments then r[n] == RunningRecord(n) else n in plan.finals && r[n] == plan.finals[n])
    && (forall n :: n in futures <==> n in plan.arguments && n in seen)
    && (forall n :: n in futures ==> futures[n] == plan.arguments[n])
  }

  lemma SubmitRunning(plan: Plan, seen: set<Id>, r0: Records, r: Records, futures: map<Id, Kwargs>, n: Id)
    requires Submitting(plan, seen, r0, r, futures) && n in r && n in plan.arguments
    ensures Submitting(plan, seen + {n}, r0, r[n := RunningRecord(n)], futures[n := plan.arguments[n]])
  {
  }

  lemma SubmitSkipped(plan: Plan, seen: set<Id>, r0: Records, r: Records, futures: map<Id, Kwargs>, n: Id)
    requires Submitting(plan, seen, r0, r, futures) && n in r && n !in plan.arguments && n in plan.finals
    ensures Submitting(plan, seen + {n}, r0, r[n := plan.finals[n]], futures)
  {
  }

  lemma OneMoreSeen(generation: seq<Id>, i: nat)
    requires i < |generation|
    ensures Elements(generation[..i + 1]) == Elements(generation[..i]) + {generation[i]}
  {
    assert generation[..i + 1] == generation[..i] + [generation[i]];
  }

  /** A node sees its predecessors' records as they were at the start of the generation. */
  lemma SeesTheStart(f: Flow, env: Env, generation: seq<Id>, i: nat, r0: Records, r: Records, futures: map<Id, Kwargs>)
    requires WellFormed(f) && Untouched(f, generation, r0) && i < |generation|
    requires Submitting(PlanOf(f, env, generation, r0), Elements(generation[..i]), r0, r, futures)
    ensures var n, plan := generation[i], PlanOf(f, env, generation, r0);
            && n in f.nodes && ValidNode(n, f.nodes[n]) && Informed(f, n, r) && n in r && r[n] == FreshRecord(n)
            && n in plan.finals && (n in plan.arguments <==> CheckPreconditions(f, env, n, r))
            && (n in plan.arguments ==> plan.arguments[n] == BuildKwargs(f, env, n, r))
            && (n !in plan.arguments ==>
                  plan.finals[n] == FreshRecord(n).(status := Skipped, skipReasons := SkipReasons(f.edges, n, r)))
  {
    var n := generation[i];
    assert n in generation && n !in generation[..i];
    forall e | e in f.edges && e.target == n
      ensures e.source in r && e.source in r0 && r[e.source] == r0[e.source]
    {
      assert e.target in generation;
    }
    SameReasons(f.edges, n, r, r0);
    SameKwargs(f, env, n, r, r0);
  }

  /** The state of the collecting loop. */
  ghost predicate Collecting(plan: Plan, generation: seq<Id>, r0: Records, r: Records, futures: map<Id, Kwargs>,
                             pending: set<Id>)
  {
    && r.Keys == r0.Keys && futures == plan.arguments && pending <= futures.Keys
    && (forall n :: n in r && n !in generation ==> r[n] == r0[n])
    && (forall n :: n in r && n in generation ==>
          if n in pending then r[n] == RunningRecord(n) else n in plan.finals && r[n] == plan.finals[n])
  }

  lemma AllSubmitted(plan: Plan, generation: seq<Id>, r0: Records, r: Records, futures: map<Id, Kwargs>)
    requires Submitting(plan, Elements(generation), r0, r, futures)
    requires forall n :: n in plan.arguments ==> n in generation
    ensures Collecting(plan, generation, r0, r, futures, futures.Keys)
  {
  }

  /** The planned final record of a node that runs is that of its attempts. */
  lemma PlannedResult(f: Flow, env: Env, generation: seq<Id>, r0: Records, n: Id)
    requires WellFormed(f) && Untouched(f, generation, r0) && n in PlanOf(f, env, generation, r0).arguments
    ensures var plan := PlanOf(f, env, generation, r0);
            && n in generation && n in f.nodes && ValidNode(n, f.nodes[n]) && n in plan.finals
            && plan.finals[n] ==
                 ApplyResult(RunningRecord(n), Attempts(env, f.nodes[n].spec, plan.arguments[n], 0, f.nodes[n].retries))
  {
  }

  lemma CollectOne(plan: Plan, generation: seq<Id>, r0: Records, r: Records, futures: map<Id, Kwargs>,
                   pending: set<Id>, n: Id, result: TaskResult)
    requires Collecting(plan, generation, r0, r, futures, pending) && n in pending && n in generation && n in r
    requires n in plan.finals && plan.finals[n] == ApplyResult(RunningRecord(n), result)
    ensures r[n] == RunningRecord(n)
    ensures Collecting(plan, generation, r0, r[n := ApplyResult(r[n], result)], futures, pending - {n})
  {
  }

  /** The nodes of the generation have their final records; no other record has changed. */
  ghost predicate GenerationRan(f: Flow, env: Env, generation: seq<Id>, r0: Records, r: Records)
    requires WellFormed(f) && Untouched(f, generation, r0)
  {
    && r.Keys == r0.Keys
    && (forall n :: n in r && n !in generation ==> r[n] == r0[n])
    && (forall n :: n in generation ==> r[n] == NodeRecord(f, env, n, r0))
  }

  lemma AllCollected(f: Flow, env: Env, generation: seq<Id>, r0: Records, r: Records, futures: map<Id, Kwargs>)
    requires WellFormed(f) && Untouched(f, generation, r0)
    requires Collecting(PlanOf(f, env, generation, r0), generation, r0, r, futures, {})
    ensures GenerationRan(f, env, generation, r0, r)
  {
  }

  // ---- the workflow ----

  class Workflow {
    const flowId: Option<string>
    const projectRoot: Option<string>
    var order: seq<Id>
    var nodes: map<Id, Node>
    var edges: seq<Edge>

    function Value(): Flow
      reads this
    {
      Flow(order, nodes, edges)
    }

    ghost predicate Valid()
      reads this
    {
      ValidFlow(Value())
    }

    constructor (flowId: Option<string>, projectRoot: Option<string>)
      ensures Valid() && Value() == Flow([], map[], [])
      ensures this.flowId == flowId && this.projectRoot == projectRoot
    {
      this.flowId := flowId;
      this.projectRoot := projectRoot;
      order, nodes, edges := [], map[], [];
      new;
      EmptyIsAcyclic(ToGraph(Value()));
    }

    /** `add_task` */
    method AddTask(nodeId: Id, func: Func, kind: string, command: Option<string>, scriptPath: Option<string>,
                   script: Option<string>, args: Option<seq<string>>, kwargs: Option<map<string, string>>,
                   timeout: Option<int>, name: Option<string>, description: Option<string>, retries: int,
                   onSuccess: Option<TaskSpec>, onFailure: Option<TaskSpec>) returns (r: Result<Id>)
      requires Valid() && (onSuccess.Some? ==> Acceptable(onSuccess.value)) && (onFailure.Some? ==> Acceptable(onFailure.value))
      modifies this
      ensures Valid()
      ensures
        var spec := MakeSpec(func, kind, command, scriptPath, script, args, kwargs, timeout);
        if nodeId == "" || nodeId in old(nodes) || spec.Err? then r.Err? && Value() == old(Value())
        else
          && r == Ok(nodeId)
          && Value() == WithTask(old(Value()), nodeId, Node(spec.value, name, description, Retries(retries), onSuccess, onFailure))
          && order == old(order) + [nodeId] && edges == old(edges)
          && nodes == old(nodes)[nodeId := Node(spec.value, name, description, if retries >= 1 then retries else 1, onSuccess, onFailure)]
    {
      if nodeId == "" {
        return Err("node_id must be a non-empty string");
      }
      if nodeId in nodes {
        return Err("Task node already exists");
      }
      var made := MakeSpec(func, kind, command, scriptPath, script, args, kwargs, timeout);
      if made.Err? {
        return Err(made.message);
      }
      MadeIsAcceptable(func, kind, command, scriptPath, script, args, kwargs, timeout);
      var node := Node(made.value, name, description, Retries(retries), onSuccess, onFailure);
      NewTaskIsValid(Value(), nodeId, node);
      order := order + [nodeId];
      nodes := nodes[nodeId := node];
      r := Ok(nodeId);
    }

    /** `add_edge`: refuses an edge exactly when an end is unknown or its source is reachable from its target. */
    method AddEdge(source: Id, target: Id, condition: Option<TaskSpec>, name: Option<string>, description: Option<string>)
      returns (r: EdgeOutcome)
      requires Valid() && (condition.Some? ==> Acceptable(condition.value))
      modifies this
      ensures Valid()
      ensures r == UnknownNode <==> source !in old(nodes) || target !in old(nodes)
      ensures r == CycleError <==>
                source in old(nodes) && target in old(nodes) && Reachable(ToGraph(old(Value())), target, source)
      ensures order == old(order) && nodes == old(nodes)
      ensures edges == if r == Added then old(edges) + [Edge(source, target, condition, name, description)] else old(edges)
      ensures Value() == if r == Added then WithFlowEdge(old(Value()), Edge(source, target, condition, name, description)) else old(Value())
    {
      if source !in nodes || target !in nodes {
        return UnknownNode;
      }
      var edge := Edge(source, target, condition, name, description);
      var flow := WithFlowEdge(Value(), edge);
      NewEdgeIsWellFormed(Value(), edge);
      var acyclic := IsDag(ToGraph(flow));
      if !acyclic {
        return CycleError;
      }
      edges := edges + [edge];
      r := Added;
    }

    // ---- execution ----

    /** `_execute_node`: attempts the task until it succeeds or its attempts are used up. */
    method ExecuteNode(env: Env, n: Id, kwargs: Kwargs) returns (last: TaskResult)
      requires Valid() && n in nodes
      ensures nodes[n].retries >= 1 && last == Attempts(env, nodes[n].spec, kwargs, 0, nodes[n].retries)
    {
      var node := nodes[n];
      assert ValidNode(n, node);
      last := env.run(node.spec, kwargs, 0);
      var attempt := 1;
      while !last.succeeded && attempt < node.retries
        invariant 1 <= attempt <= node.retries
        invariant last == env.run(node.spec, kwargs, attempt - 1)
        invariant Attempts(env, node.spec, kwargs, 0, node.retries) == Attempts(env, node.spec, kwargs, attempt - 1, node.retries)
      {
        last := env.run(node.spec, kwargs, attempt);
        attempt := attempt + 1;
      }
    }

    /** The first loop of `_execute_generation`: skips a node or marks it as started and submits it. */
    method SubmitGeneration(env: Env, generation: seq<Id>, log: ExecutionLog) returns (futures: map<Id, Kwargs>)
      requires Valid() && log.Valid() && Untouched(Value(), generation, log.records)
      modifies log
      ensures log.Valid()
      ensures Submitting(old(PlanOf(Value(), env, generation, log.records)), Elements(generation), old(log.records), log.records, futures)
    {
      ghost var r0 := log.records;
      ghost var plan := PlanOf(Value(), env, generation, r0);
      futures := map[];
      for i := 0 to |generation|
        invariant log.Valid() && Submitting(plan, Elements(generation[..i]), r0, log.records, futures)
      {
        var n := generation[i];
        SeesTheStart(Value(), env, generation, i, r0, log.records, futures);
        OneMoreSeen(generation, i);
        if !CheckPreconditions(Value(), env, n, log.records) {
          SubmitSkipped(plan, Elements(generation[..i]), r0, log.records, futures, n);
          log.MarkSkipped(n, SkipReasons(edges, n, log.records));
        } else {
          SubmitRunning(plan, Elements(generation[..i]), r0, log.records, futures, n);
          var kwargs := BuildKwargs(Value(), env, n, log.records);
          log.MarkStarted(n);
          futures := futures[n := kwargs];
        }
      }
      assert generation[..|generation|] == generation;
    }

    /** The second loop of `_execute_generation`: applies the results in whatever order they come in. */
    method CollectResults(env: Env, generation: seq<Id>, log: ExecutionLog, futures: map<Id, Kwargs>, ghost r0: Records)
      requires Valid() && log.Valid() && Untouched(Value(), generation, r0)
      requires Collecting(PlanOf(Value(), env, generation, r0), generation, r0, log.records, futures, futures.Keys)
      modifies log
      ensures log.Valid()
      ensures Collecting(PlanOf(Value(), env, generation, r0), generation, r0, log.records, futures, {})
    {
      ghost var plan := PlanOf(Value(), env, generation, r0);
      var pending := futures.Keys;
      while pending != {}
        invariant log.Valid() && Collecting(plan, generation, r0, log.records, futures, pending)
        decreases pending
      {
        var n :| n in pending;
        PlannedResult(Value(), env, generation, r0, n);
        var result := ExecuteNode(env, n, futures[n]);
        CollectOne(plan, generation, r0, log.records, futures, pending, n, result);
        log.Apply(n, result);
        pending := pending - {n};
      }
    }

    /** `_execute_generation` */
    method ExecuteGeneration(env: Env, generation: seq<Id>, log: ExecutionLog)
      requires Valid() && log.Valid() && Untouched(Value(), generation, log.records)
      modifies log
      ensures log.Valid() && GenerationRan(Value(), env, generation, old(log.records), log.records)
    {
      ghost var r0 := log.records;
      var futures := SubmitGeneration(env, generation, log);
      AllSubmitted(PlanOf(Value(), env, generation, r0), generation, r0, log.records, futures);
      CollectResults(env, generation, log, futures, r0);
      AllCollected(Value(), env, generation, r0, log.records, futures);
    }

    /** `run`: every record ends up as the meaning of its node, whatever the order in which tasks complete. */
    method Run(env: Env) returns (log: ExecutionLog)
      requires Valid()
      ensures fresh(log) && log.Valid() && log.records == MeaningRecords(Value(), env)
      ensures log.Finished()
      ensures log.HasSucceeded() <==> forall n :: n in nodes ==> Meaning(Value(), env, n).status != Failed
    {
      log := new ExecutionLog(order);
      GraphIsValid(Value());
      var layers := Generations(ToGraph(Value()));
      Beginning(Value(), env, layers, log.records);
      for k := 0 to |layers|
        invariant log.Valid() && Progressed(Value(), env, layers, k, log.records)
      {
        RunLayer(env, layers, k, log);
      }
      CoversAllIffAcyclic(ToGraph(Value()), layers);
      Ending(Value(), env, layers, log.records);
      log.FinalStatusesFinish();
      assert forall n :: n in nodes ==> log.records[n] == Meaning(Value(), env, n);
    }

    method RunLayer(env: Env, layers: seq<seq<Id>>, k: nat, log: ExecutionLog)
      requires Valid() && log.Valid() && k < |layers| && Layers(ToGraph(Value()), layers)
      requires Progressed(Value(), env, layers, k, log.records)
      modifies log
      ensures log.Valid() && Progressed(Value(), env, layers, k + 1, log.records)
    {
      NextGeneration(Value(), env, layers, k, log.records);
      ghost var r0 := log.records;
      ExecuteGeneration(env, layers[k], log);
      GenerationDone(Value(), env, layers, k, r0, log.records);
    }
  }

  // ---- layer by layer ----

  /** The first `k` layers have their meanings, the others have not been touched. */
  ghost predicate Progressed(f: Flow, env: Env, layers: seq<seq<Id>>, k: nat, r: Records)
    requires ValidFlow(f) && k <= |layers|
  {
    && (forall n :: n in f.nodes <==> n in r)
    && (forall n :: n in f.nodes ==> r[n] == if n in Below(layers, k) then Meaning(f, env, n) else FreshRecord(n))
  }

  lemma Beginning(f: Flow, env: Env, layers: seq<seq<Id>>, r: Records)
    requires ValidFlow(f) && r == map n | n in f.order :: FreshRecord(n)
    ensures Progressed(f, env, layers, 0, r)
  {
  }

  /** The predecessors of a node of the next layer have their meanings and are not in that layer. */
  lemma NextGeneration(f: Flow, env: Env, layers: seq<seq<Id>>, k: nat, r: Records)
    requires ValidFlow(f) && Layers(ToGraph(f), layers) && k < |layers| && Progressed(f, env, layers, k, r)
    ensures Untouched(f, layers[k], r)
    ensures forall n :: n in layers[k] ==> n in f.nodes && UpstreamMeant(f, env, n, r)
  {
    assert IsLayer(ToGraph(f), layers, k);
    forall n | n in layers[k]
      ensures n in f.nodes && n !in Below(layers, k)
    {
      InLayer(ToGraph(f), layers, k, n);
    }
    forall e | e in f.edges && e.target in layers[k]
      ensures e.source in f.nodes && e.source in Below(layers, k) && e.source !in layers[k]
    {
      InLayer(ToGraph(f), layers, k, e.target);
      SourcesKnown(f, e.target);
      assert e.source in Predecessors(ToGraph(f), e.target);
      if e.source in layers[k] {
        InLayer(ToGraph(f), layers, k, e.source);
      }
    }
  }

  lemma GenerationDone(f: Flow, env: Env, layers: seq<seq<Id>>, k: nat, r0: Records, r: Records)
    requires ValidFlow(f) && k < |layers| && Progressed(f, env, layers, k, r0)
    requires Untouched(f, layers[k], r0) && GenerationRan(f, env, layers[k], r0, r)
    requires forall n :: n in layers[k] ==> UpstreamMeant(f, env, n, r0)
    ensures Progressed(f, env, layers, k + 1, r)
  {
    LayerMeant(f, env, layers[k], r0, r);
    assert Below(layers, k + 1) == Below(layers, k) + Elements(layers[k]);
  }

  lemma LayerMeant(f: Flow, env: Env, layer: seq<Id>, r0: Records, r: Records)
    requires ValidFlow(f) && Untouched(f, layer, r0) && GenerationRan(f, env, layer, r0, r)
    requires forall n :: n in layer ==> UpstreamMeant(f, env, n, r0)
    ensures forall n :: n in layer ==> r[n] == Meaning(f, env, n)
  {
    forall n | n in layer
      ensures r[n] == Meaning(f, env, n)
    {
      MeaningOver(f, env, n, r0);
    }
  }

  lemma Ending(f: Flow, env: Env, layers: seq<seq<Id>>, r: Records)
    requires ValidFlow(f) && Progressed(f, env, layers, |layers|, r) && CoversAll(ToGraph(f), layers)
    ensures r == MeaningRecords(f, env)
    ensures forall n :: n in r ==> r[n].status in {Succeeded, Failed, Skipped}
  {
    forall n | n in f.nodes
      ensures r[n] == Meaning(f, env, n) && r[n].status in {Succeeded, Failed, Skipped}
    {
      assert n in Elements(ToGraph(f).nodes);
      FinalStatus(f, env, n);
    }
  }

  function WithTask(f: Flow, n: Id, node: Node): Flow {
    Flow(f.order + [n], f.nodes[n := node], f.edges)
  }

  function WithFlowEdge(f: Flow, e: Edge): Flow {
    f.(edges := f.edges + [e])
  }

  lemma EmptyIsAcyclic(g: Graph)
    requires g.nodes == []
    ensures Acyclic(g)
  {
    forall p: seq<Id>
      ensures !IsCycle(g, p)
    {
      assert |p| > 0 ==> p[0] !in g.nodes;
    }
  }

  lemma NewTaskIsValid(f: Flow, n: Id, node: Node)
    requires ValidFlow(f) && n !in f.nodes && ValidNode(n, node)
    ensures ValidFlow(WithTask(f, n, node))
  {
    var h := WithTask(f, n, node);
    GraphIsValid(f);
    NewNodeKeepsAcyclic(ToGraph(f), n);
    forall e | e in h.edges
      ensures ValidEdge(h, e)
    {
      assert ValidEdge(f, e);
    }
  }

  /** The flow with the new edge is well-formed, and acyclic unless the edge closes a cycle. */
  lemma NewEdgeIsWellFormed(f: Flow, e: Edge)
    requires ValidFlow(f) && ValidEdge(f, e)
    ensures WellFormed(WithFlowEdge(f, e)) && ValidGraph(ToGraph(WithFlowEdge(f, e)))
    ensures Acyclic(ToGraph(WithFlowEdge(f, e))) <==> !Reachable(ToGraph(f), e.target, e.source)
  {
    var h := WithFlowEdge(f, e);
    forall d | d in h.edges
      ensures ValidEdge(h, d)
    {
      assert d != e ==> ValidEdge(f, d);
    }
    GraphIsValid(h);
    GraphIsValid(f);
    NewEdgePair(f, e);
    EdgeClosesCycle(ToGraph(f), e.source, e.target);
  }
}
