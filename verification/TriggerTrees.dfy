/** The JSON form of nested triggers (src/schedflow/triggers/combining.py and base.py). */
module TriggerTrees {
  import opened Prelude

  datatype Combination = And | Or

  /** A trigger: a plain one with the fields of its model, or a combining one. */
  datatype TriggerTree<A> =
    | Plain(kind: string, fields: A)
    | Combined(combination: Combination, triggers: seq<TriggerTree<A>>, jitter: Option<int>)

  /** `{"type": ..., "args": {...}}`: arguments without, or with, a list of triggers. */
  datatype TriggerJson<J> =
    | PlainJson(kind: string, args: J)
    | NestedJson(kind: string, triggers: seq<TriggerJson<J>>, jitter: Option<int>)

  /** What the plain triggers bring along: their models write arguments (`model_dump`) and read them, or reject them
      with a validation error; `registered` are the types added at run time. */
  datatype Models<!A, !J> = Models(
    registered: set<string>,
    dump: (string, A) -> J,
    build: (string, J) -> Result<A>,
    jitterOf: J -> Option<int>)

  /** The plain trigger types of the static registry. */
  const PLAIN_TYPES: set<string> := {"calendarinterval", "date", "interval", "cron"}

  function TypeName(c: Combination): string {
    match c
    case And => "and"
    case Or => "or"
  }

  /** The static registry comes first, so nothing registered later takes the place of a combining trigger. */
  predicate IsPlain<A, J>(m: Models<A, J>, kind: string) {
    kind != "and" && kind != "or" && (kind in PLAIN_TYPES || kind in m.registered)
  }

  // ---- to_dict ----

  function TreeToJson<A, J>(m: Models<A, J>, t: TriggerTree<A>): TriggerJson<J>
    decreases t
  {
    match t
    case Plain(kind, fields) => PlainJson(kind, m.dump(kind, fields))
    case Combined(c, triggers, jitter) => NestedJson(TypeName(c), TreesToJson(m, triggers), jitter)
  }

  function TreesToJson<A, J>(m: Models<A, J>, triggers: seq<TriggerTree<A>>): (r: seq<TriggerJson<J>>)
    ensures |r| == |triggers|
    ensures forall i :: 0 <= i < |r| ==> r[i] == TreeToJson(m, triggers[i])
    decreases triggers
  {
    if triggers == [] then [] else [TreeToJson(m, triggers[0])] + TreesToJson(m, triggers[1..])
  }

  // ---- from_dict ----

  /** `Trigger.from_dict`: dispatches on the type name and rebuilds nested triggers first. A combining trigger reads
      only the list of triggers, empty when it is missing, and the jitter; a plain one forbids the list. */
  function TreeFromJson<A, J>(m: Models<A, J>, j: TriggerJson<J>): Result<TriggerTree<A>>
    decreases j
  {
    if IsPlain(m, j.kind) then
      match j
      case NestedJson(_, _, _) => Err("Extra inputs are not permitted")
      case PlainJson(kind, args) =>
        match m.build(kind, args)
        case Ok(fields) => Ok(Plain(kind, fields))
        case Err(message) => Err(message)
    else if j.kind != "and" && j.kind != "or" then Err("Unknown trigger type")
    else
      var c := if j.kind == "and" then And else Or;
      match j
      case PlainJson(_, args) => Ok(Combined(c, [], m.jitterOf(args)))
      case NestedJson(_, items, jitter) =>
        match TreesFromJson(m, items)
        case Err(message) => Err(message)
        case Ok(triggers) => Ok(Combined(c, triggers, jitter))
  }

  function TreesFromJson<A, J>(m: Models<A, J>, items: seq<TriggerJson<J>>): (r: Result<seq<TriggerTree<A>>>)
    ensures r.Ok? ==> |r.value| == |items| && forall i :: 0 <= i < |items| ==> TreeFromJson(m, items[i]) == Ok(r.value[i])
    ensures r.Err? ==> exists i :: 0 <= i < |items| && TreeFromJson(m, items[i]).Err?
    decreases items
  {
    if items == [] then Ok([])
    else
      match TreeFromJson(m, items[0])
      case Err(message) => Err(message)
      case Ok(first) =>
        match TreesFromJson(m, items[1..])
        case Err(message) =>
          assert exists i :: 0 <= i < |items[1..]| && TreeFromJson(m, items[1..][i]).Err?;
          Err(message)
        case Ok(rest) => Ok([first] + rest)
  }

  // ---- round trip ----

  /** The model of the type reads back what it wrote. */
  ghost predicate Survives<A, J>(m: Models<A, J>, kind: string, fields: A) {
    m.build(kind, m.dump(kind, fields)) == Ok(fields)
  }

  /** Every plain trigger in the tree is of a known type, and its fields survive its own model. */
  ghost predicate AllSurvive<A, J>(m: Models<A, J>, t: TriggerTree<A>) {
    match t
    case Plain(kind, fields) => IsPlain(m, kind) && Survives(m, kind, fields)
    case Combined(_, triggers, _) => forall i :: 0 <= i < |triggers| ==> AllSurvive(m, triggers[i])
  }

  /** Nesting adds no loss: a tree comes back from its JSON form if and only if each of its plain triggers does. */
  lemma {:induction false} TreeRoundTrip<A, J>(m: Models<A, J>, t: TriggerTree<A>)
    ensures TreeFromJson(m, TreeToJson(m, t)) == Ok(t) <==> AllSurvive(m, t)
    decreases t
  {
    if t.Combined? {
      forall i | 0 <= i < |t.triggers|
        ensures TreeFromJson(m, TreeToJson(m, t.triggers[i])) == Ok(t.triggers[i]) <==> AllSurvive(m, t.triggers[i])
      {
        TreeRoundTrip(m, t.triggers[i]);
      }
      var r := TreesFromJson(m, TreesToJson(m, t.triggers));
      if AllSurvive(m, t) {
        assert r.Ok? && r.value == t.triggers;
      }
    }
  }

  /** Whatever JSON is read without an exception, the tree it gives survives writing and reading, if the models accept
      what they wrote of the fields they built. */
  lemma {:induction false} ReadTreesSurvive<A, J>(m: Models<A, J>, j: TriggerJson<J>)
    requires forall kind, args :: m.build(kind, args).Ok? ==> Survives(m, kind, m.build(kind, args).value)
    requires TreeFromJson(m, j).Ok?
    ensures AllSurvive(m, TreeFromJson(m, j).value)
    ensures TreeFromJson(m, TreeToJson(m, TreeFromJson(m, j).value)) == TreeFromJson(m, j)
    decreases j
  {
    if j.NestedJson? && !IsPlain(m, j.kind) {
      forall i | 0 <= i < |j.triggers|
        ensures TreeFromJson(m, j.triggers[i]).Ok? && AllSurvive(m, TreeFromJson(m, j.triggers[i]).value)
      {
        ReadTreesSurvive(m, j.triggers[i]);
      }
    }
    TreeRoundTrip(m, TreeFromJson(m, j).value);
  }
}
