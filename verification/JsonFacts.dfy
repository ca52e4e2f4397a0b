/** The JSON forms in full: what each key holds, what a missing key means, and which types are known. */
module JsonFacts {
  import opened Prelude
  import opened Graph
  import opened TaskSpecs
  import opened WorkflowMeaning
  import opened WorkflowJson
  import opened TriggerTrees

  // ---- specifications ----

  /** The keys of a specification: its type, arguments and timeout, and the one field of its type. */
  lemma SpecJsonExactly(s: TaskSpec, refOf: RefOf)
    requires Acceptable(s) && HasReference(s, refOf)
    ensures
      var ref := if s.kind != "python_callable" then None else if s.func.Reference? then Some(s.func.ref) else refOf(s.func.handle);
      ToJson(s, refOf) == Ok(SpecJson(
        Some(s.kind), ref,
        if s.kind == "bash" then s.command else None,
        if s.kind == "python" then s.scriptPath else None,
        if s.kind == "python_script" then s.script else None,
        Some(s.args), Some(s.kwargs), s.timeout))
  {
  }

  /** A missing type is that of a callable; missing arguments are none. */
  lemma MissingSpecKeys(j: SpecJson)
    ensures j.kind.None? ==> FromJson(j) == FromJson(j.(kind := Some("python_callable")))
    ensures j.args.None? ==> FromJson(j) == FromJson(j.(args := Some([])))
    ensures j.kwargs.None? ==> FromJson(j) == FromJson(j.(kwargs := Some(map[])))
  {
  }

  /** The constructor refuses exactly an unknown type, and a known one without its own field; an empty text counts as
      missing, an empty reference does not. */
  lemma RefusedExactly(func: Func, kind: string, command: Option<string>, scriptPath: Option<string>,
                       script: Option<string>, args: Option<seq<string>>, kwargs: Option<map<string, string>>,
                       timeout: Option<int>)
    ensures MakeSpec(func, kind, command, scriptPath, script, args, kwargs, timeout).Ok? <==>
              || (kind == "python_callable" && func != NoFunc)
              || (kind == "bash" && command.Some? && command.value != "")
              || (kind == "python" && scriptPath.Some? && scriptPath.value != "")
              || (kind == "python_script" && script.Some? && script.value != "")
  {
  }

  // ---- workflows ----

  /** The JSON form of an optional specification is that of the specification, or null. */
  ghost predicate IsJsonOf(s: Option<TaskSpec>, j: Option<SpecJson>, refOf: RefOf) {
    (s.None? <==> j.None?) && (s.Some? ==> ToJson(s.value, refOf) == Ok(j.value))
  }

  lemma NodeJsonExactly(id: Id, node: Node, refOf: RefOf)
    requires NodeToJson(id, node, refOf).Ok?
    ensures var j := NodeToJson(id, node, refOf).value;
            && j.nodeId == id && ToJson(node.spec, refOf) == Ok(j.task) && j.name == node.name && j.description == node.description
            && j.retries == Some(node.retries)
            && IsJsonOf(node.onSuccess, j.onSuccess, refOf) && IsJsonOf(node.onFailure, j.onFailure, refOf)
  {
  }

  lemma EdgeJsonExactly(e: Edge, refOf: RefOf)
    requires EdgeToJson(e, refOf).Ok?
    ensures var j := EdgeToJson(e, refOf).value;
            && j.source == e.source && j.target == e.target && IsJsonOf(e.condition, j.condition, refOf)
            && j.name == e.name && j.description == e.description
  {
  }

  /** The JSON form lists the nodes in insertion order and the edges in theirs. */
  lemma FlowJsonExactly(flowId: Option<string>, projectRoot: Option<string>, f: Flow, refOf: RefOf)
    requires forall n :: n in f.order ==> n in f.nodes
    requires FlowToJson(flowId, projectRoot, f, refOf).Ok?
    ensures var j := FlowToJson(flowId, projectRoot, f, refOf).value;
            && j.flowId == flowId && j.projectRoot == projectRoot
            && |j.nodes| == |f.order| && |j.edges| == |f.edges|
            && (forall i :: 0 <= i < |f.order| ==> NodeToJson(f.order[i], f.nodes[f.order[i]], refOf) == Ok(j.nodes[i]))
            && (forall i :: 0 <= i < |f.edges| ==> EdgeToJson(f.edges[i], refOf) == Ok(j.edges[i]))
  {
    NodesInOrder(f.order, f.nodes, refOf);
    EdgesInOrder(f.edges, refOf);
  }

  lemma {:induction false} NodesInOrder(order: seq<Id>, nodes: map<Id, Node>, refOf: RefOf)
    requires (forall n :: n in order ==> n in nodes) && NodesToJson(order, nodes, refOf).Ok?
    ensures var js := NodesToJson(order, nodes, refOf).value;
            |js| == |order| && forall i :: 0 <= i < |order| ==> NodeToJson(order[i], nodes[order[i]], refOf) == Ok(js[i])
  {
    if order != [] {
      NodesInOrder(order[1..], nodes, refOf);
    }
  }

  lemma {:induction false} EdgesInOrder(edges: seq<Edge>, refOf: RefOf)
    requires EdgesToJson(edges, refOf).Ok?
    ensures var js := EdgesToJson(edges, refOf).value;
            |js| == |edges| && forall i :: 0 <= i < |edges| ==> EdgeToJson(edges[i], refOf) == Ok(js[i])
  {
    if edges != [] {
      EdgesInOrder(edges[1..], refOf);
    }
  }

  /** A missing number of attempts is one. */
  lemma MissingRetries(j: NodeJson)
    requires j.retries.None?
    ensures ReplayedNode(j) == ReplayedNode(j.(retries := Some(1)))
  {
  }

  // ---- triggers ----

  /** The types that are always known; any other one but those of the combining triggers must have been registered. */
  lemma KnownTypes<A, J>(m: Models<A, J>, kind: string)
    ensures IsPlain(m, kind) <==>
              || kind == "calendarinterval" || kind == "date" || kind == "interval" || kind == "cron"
              || (kind in m.registered && kind != "and" && kind != "or")
  {
  }

  lemma UnknownTypesAreRefused<A, J>(m: Models<A, J>, j: TriggerJson<J>)
    requires !IsPlain(m, j.kind) && j.kind != "and" && j.kind != "or"
    ensures TreeFromJson(m, j).Err?
  {
  }

  /** The JSON form of a trigger, key by key. */
  lemma TreeJsonExactly<A, J>(m: Models<A, J>, t: TriggerTree<A>)
    ensures t.Plain? ==> TreeToJson(m, t) == PlainJson(t.kind, m.dump(t.kind, t.fields))
    ensures t.Combined? ==>
              var j := TreeToJson(m, t);
              && j.NestedJson? && j.kind == (if t.combination == And then "and" else "or") && j.jitter == t.jitter
              && |j.triggers| == |t.triggers|
              && forall i :: 0 <= i < |t.triggers| ==> j.triggers[i] == TreeToJson(m, t.triggers[i])
  {
  }
}
