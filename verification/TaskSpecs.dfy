/**
  What a workflow node executes, and its JSON form (src/schedflow/core/spec.py). Times are microseconds; argument
  values are kept as their JSON text.
 */
module TaskSpecs {
  import opened Prelude

  /** The `func` argument: missing, a "module:function" reference, or a callable object. */
  datatype Func = NoFunc | Reference(ref: string) | Callable(handle: int)

  datatype TaskSpec = TaskSpec(
    kind: string,
    func: Func,
    command: Option<string>,
    scriptPath: Option<string>,
    script: Option<string>,
    args: seq<string>,
    kwargs: map<string, string>,
    timeout: Option<int>)

  const VALID_TYPES: set<string> := {"python_callable", "bash", "python", "python_script"}

  /** Python's truth value of an optional string. */
  predicate Given(s: Option<string>) {
    s.Some? && s.value != ""
  }

  /** The constructor's demands (lines 57-89). */
  predicate Acceptable(s: TaskSpec) {
    && s.kind in VALID_TYPES
    && (s.kind == "python_callable" ==> s.func != NoFunc)
    && (s.kind == "bash" ==> Given(s.command))
    && (s.kind == "python" ==> Given(s.scriptPath))
    && (s.kind == "python_script" ==> Given(s.script))
  }

  /** `TaskSpec(...)`: only a python_callable keeps its function. */
  function MakeSpec(func: Func, kind: string, command: Option<string>, scriptPath: Option<string>,
                    script: Option<string>, args: Option<seq<string>>, kwargs: Option<map<string, string>>,
                    timeout: Option<int>): Result<TaskSpec>
  {
    if kind !in VALID_TYPES then Err("Unknown task type")
    else
      var s := TaskSpec(kind, if kind == "python_callable" then func else NoFunc, command, scriptPath, script,
                        if args.Some? then args.value else [], if kwargs.Some? then kwargs.value else map[], timeout);
      if kind == "python_callable" && func == NoFunc then Err("'func' or a string reference must be provided")
      else if kind == "bash" && !Given(command) then Err("'command' must be provided")
      else if kind == "python" && !Given(scriptPath) then Err("'script_path' must be provided")
      else if kind == "python_script" && !Given(script) then Err("'script' must be provided")
      else Ok(s)
  }

  datatype SpecJson = SpecJson(
    kind: Option<string>,
    ref: Option<string>,
    command: Option<string>,
    scriptPath: Option<string>,
    script: Option<string>,
    args: Option<seq<string>>,
    kwargs: Option<map<string, string>>,
    timeout: Option<int>)

  /** `to_dict`. `refOf` is `obj_to_ref`, which raises for a callable without a reference. */
  function ToJson(s: TaskSpec, refOf: int -> Option<string>): Result<SpecJson> {
    var base := SpecJson(Some(s.kind), None, None, None, None, Some(s.args), Some(s.kwargs), s.timeout);
    if s.kind == "python_callable" then
      match s.func
      case Reference(ref) => Ok(base.(ref := Some(ref)))
      case Callable(handle) =>
        (match refOf(handle)
         case Some(ref) => Ok(base.(ref := Some(ref)))
         case None => Err("no reference to the callable"))
      case NoFunc => Err("no reference to the callable")
    else if s.kind == "bash" then Ok(base.(command := s.command))
    else if s.kind == "python" then Ok(base.(scriptPath := s.scriptPath))
    else if s.kind == "python_script" then Ok(base.(script := s.script))
    else Ok(base)
  }

  /** `from_dict` */
  function FromJson(j: SpecJson): Result<TaskSpec> {
    MakeSpec(if j.ref.Some? then Reference(j.ref.value) else NoFunc,
             if j.kind.Some? then j.kind.value else "python_callable",
             j.command, j.scriptPath, j.script, j.args, j.kwargs, j.timeout)
  }

  /** What the JSON form keeps of a specification: the field of its type, and a reference for a callable. */
  function Normal(s: TaskSpec, refOf: int -> Option<string>): TaskSpec {
    s.(func :=
         if s.kind != "python_callable" then NoFunc
         else if s.func.Callable? && refOf(s.func.handle).Some? then Reference(refOf(s.func.handle).value)
         else s.func,
       command := if s.kind == "bash" then s.command else None,
       scriptPath := if s.kind == "python" then s.scriptPath else None,
       script := if s.kind == "python_script" then s.script else None)
  }

  predicate HasReference(s: TaskSpec, refOf: int -> Option<string>) {
    s.kind == "python_callable" && s.func.Callable? ==> refOf(s.func.handle).Some?
  }

  /** A specification is serialisable if and only if its callable has a reference; reading it back gives its normal
      form, which serialises to the same JSON. */
  lemma SpecRoundTrip(s: TaskSpec, refOf: int -> Option<string>)
    requires Acceptable(s)
    ensures ToJson(s, refOf).Ok? <==> HasReference(s, refOf)
    ensures HasReference(s, refOf) ==>
              && FromJson(ToJson(s, refOf).value) == Ok(Normal(s, refOf))
              && Acceptable(Normal(s, refOf))
              && ToJson(Normal(s, refOf), refOf) == ToJson(s, refOf)
              && Normal(Normal(s, refOf), refOf) == Normal(s, refOf)
  {
  }

  /** Construction accepts exactly the arguments that make an acceptable specification, and gives that one. */
  lemma MadeIsAcceptable(func: Func, kind: string, command: Option<string>, scriptPath: Option<string>,
                         script: Option<string>, args: Option<seq<string>>, kwargs: Option<map<string, string>>,
                         timeout: Option<int>)
    ensures
      var r := MakeSpec(func, kind, command, scriptPath, script, args, kwargs, timeout);
      var s := TaskSpec(kind, if kind == "python_callable" then func else NoFunc, command, scriptPath, script,
                        if args.Some? then args.value else [], if kwargs.Some? then kwargs.value else map[], timeout);
      (r.Ok? <==> Acceptable(s)) && (r.Ok? ==> r.value == s)
  {
  }
}
