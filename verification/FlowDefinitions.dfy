/** Flow definitions and their static validation (platform/workflow/flowdef.go).

    Go pointers that may be nil are `Option`s; a Go map ranged over in unspecified order is visited
    here by repeatedly choosing any key. */
module FlowDefinitions {
  import opened Wrappers
  import opened Templates

  // ---------------------------------------------------------------- the definition

  datatype Definition = Definition(
    name: string,
    alias: string,
    executionMode: string,
    conversationMode: string,
    inputsSchema: Option<InputsSchema>,
    steps: seq<Step>,
    outputMapping: map<string, string>,
    limits: Limits)

  datatype InputsSchema = InputsSchema(typ: string, required: seq<string>, properties: map<string, InputProp>)

  datatype InputProp = InputProp(typ: string, maxLength: int)

  datatype Step = Step(
    stepID: string,
    typ: string,
    dependsOn: seq<string>,
    logicalModel: string,
    poolID: string,
    inputMapping: map<string, string>,
    retryPolicy: Option<RetryPolicy>,
    fallbackPolicy: Option<FallbackPolicy>,
    onError: string)

  datatype RetryPolicy = RetryPolicy(maxAttempts: int)

  datatype FallbackPolicy = FallbackPolicy(allowedPoolIDs: seq<string>)

  datatype Limits = Limits(timeoutMS: int, maxTotalTokens: int, maxSteps: int, maxParallelism: int)

  /** The catalog consulted during validation; a nil resolver skips the catalog questions. */
  datatype Resolver = Resolver(models: set<string>, pools: set<string>)

  const MAX_STEPS_W1 := 20
  const MAX_ATTEMPTS_CAP := 5
  const MAX_INPUT_LEN_DEFAULT := 100000
  const MAX_TEMPLATE_OUT_BYTES := 4 * 1024 * 1024
  const DEFAULT_MAX_ATTEMPTS := 1

  // ---------------------------------------------------------------- identifiers

  predicate IsLower(c: char) { 'a' <= c <= 'z' }

  predicate IsDigit(c: char) { '0' <= c <= '9' }

  predicate ValidStepID(s: string) {
    1 <= |s| <= 64 && IsLower(s[0]) && forall i | 1 <= i < |s| :: IsLower(s[i]) || IsDigit(s[i]) || s[i] == '_'
  }

  predicate ValidAlias(s: string) {
    1 <= |s| <= 64 && (IsLower(s[0]) || IsDigit(s[0]))
    && forall i | 1 <= i < |s| :: IsLower(s[i]) || IsDigit(s[i]) || s[i] == '-'
  }

  // ---------------------------------------------------------------- variable paths

  /** strings.Split(s, "."). */
  function Split(s: string): (parts: seq<string>)
    ensures parts != []
  {
    if s == "" then [""]
    else
      var rest := Split(s[1..]);
      if s[0] == '.' then [""] + rest else [[s[0]] + rest[0]] + rest[1..]
  }

  function Join(parts: seq<string>): string
    requires parts != []
  {
    if |parts| == 1 then parts[0] else parts[0] + "." + Join(parts[1..])
  }

  lemma Regroup(prefix: string, head: string, rest: string)
    ensures prefix + head + "." + rest == prefix + (head + "." + rest)
  {
  }

  lemma JoinPrefixed(prefix: string, parts: seq<string>)
    requires parts != []
    ensures Join([prefix + parts[0]] + parts[1..]) == prefix + Join(parts)
  {
    var longer := [prefix + parts[0]] + parts[1..];
    assert longer[1..] == parts[1..];
    assert |longer| == |parts| && longer[0] == prefix + parts[0];
    if |parts| > 1 {
      Regroup(prefix, parts[0], Join(parts[1..]));
    }
  }

  lemma {:induction false} JoinSplit(s: string)
    ensures Join(Split(s)) == s
  {
    if s != "" {
      var rest := Split(s[1..]);
      JoinSplit(s[1..]);
      if s[0] == '.' {
        assert ([""] + rest)[1..] == rest;
        assert Join([""] + rest) == "." + Join(rest);
      } else {
        JoinPrefixed([s[0]], rest);
      }
      assert s == [s[0]] + s[1..];
    }
  }

  function InputVar(name: string): string { "inputs." + name }

  function OutputVar(stepID: string): string { "steps." + stepID + ".output" }

  const RUN_ID_VAR := "run.id"

  datatype RefKind = ToInput(name: string) | ToStep(stepID: string) | ToRunID | ToNothing

  /** What a reference denotes. */
  function Classify(path: string): RefKind {
    var parts := Split(path);
    if |parts| == 2 && parts[0] == "inputs" then ToInput(parts[1])
    else if |parts| == 3 && parts[0] == "steps" && parts[2] == "output" then ToStep(parts[1])
    else if path == RUN_ID_VAR then ToRunID
    else ToNothing
  }

  /** The path is the name under which the runner binds what it denotes. */
  lemma ClassifiedPath(path: string)
    ensures match Classify(path)
            case ToInput(name) => path == InputVar(name)
            case ToStep(id) => path == OutputVar(id)
            case ToRunID => path == RUN_ID_VAR
            case ToNothing => true
  {
    JoinSplit(path);
    var parts := Split(path);
    if |parts| == 2 {
      assert Join(parts[1..]) == parts[1];
    } else if |parts| == 3 {
      assert Join(parts[2..]) == parts[2];
      assert parts[1..][1..] == parts[2..];
    }
  }

  lemma {:induction false} SplitPlain(s: string)
    requires '.' !in s
    ensures Split(s) == [s]
  {
    if s != "" {
      SplitPlain(s[1..]);
      assert s == [s[0]] + s[1..];
    }
  }

  lemma {:induction false} SplitAtDot(a: string, b: string)
    requires '.' !in a
    ensures Split(a + "." + b) == [a] + Split(b)
  {
    if a == "" {
      assert a + "." + b == "." + b && ("." + b)[1..] == b;
    } else {
      SplitAtDot(a[1..], b);
      assert (a + "." + b)[1..] == a[1..] + "." + b;
      assert a == [a[0]] + a[1..];
    }
  }

  lemma ClassifiedInput(name: string)
    requires '.' !in name
    ensures Classify("inputs." + name) == ToInput(name)
  {
    SplitAtDot("inputs", name);
    SplitPlain(name);
    assert "inputs" + "." + name == "inputs." + name;
  }

  lemma ClassifiedOutput(id: string)
    requires '.' !in id
    ensures Classify("steps." + id + ".output") == ToStep(id)
  {
    SplitAtDot("steps", id + ".output");
    SplitAtDot(id, "output");
    SplitPlain("output");
    assert id + "." + "output" == id + ".output";
    assert "steps" + "." + (id + ".output") == "steps." + id + ".output";
  }

  lemma ClassifiedRunID()
    ensures Classify("run.id") == ToRunID
  {
    SplitAtDot("run", "id");
    SplitPlain("id");
    assert "run" + "." + "id" == "run.id";
  }

  lemma {:induction false} PartsHaveNoDot(s: string)
    ensures forall part <- Split(s) :: '.' !in part
  {
    if s != "" {
      PartsHaveNoDot(s[1..]);
      var rest := Split(s[1..]);
      assert rest[0] in rest;
      assert forall part <- rest[1..] :: part in rest;
    }
  }

  // ---------------------------------------------------------------- faults

  datatype RefFault =
    | MalformedTemplate
    | UndeclaredInput(name: string)
    | UnknownStep(stepID: string)
    | NotADependency(stepID: string)
    | NotAnAllowedVariable(path: string)

  datatype StepFault =
    | StepIDInvalid
    | StepIDNotUnique
    | StepTypeUnsupported
    | OnErrorUnsupported
    | ModelRequired
    | ModelUnknown
    | PoolUnknown
    | FallbackPoolUnknown(poolID: string)
    | MaxAttemptsOutOfRange
    | DependencyNotEarlier(stepID: string)
    | StepTextRequired
    | StepKeyUnsupported(key: string)
    | StepRef(fault: RefFault)

  datatype Fault =
    | NameRequired
    | AliasInvalid
    | NotSequential
    | ConversationModeUnsupported
    | ParallelismUnsupported
    | NoSteps
    | TooManySteps
    | SchemaRequired
    | SchemaNotObject
    | NoInputs
    | InputNotString(name: string)
    | RequiredUnknown(name: string)
    | InStep(index: nat, fault: StepFault)
    | OutputTextRequired
    | OutputKeyUnsupported(key: string)
    | OutputRef(ref: RefFault)

  // ---------------------------------------------------------------- what each rule says

  function Elements(s: seq<string>): set<string> { set x | x in s }

  function InputNames(d: Definition): set<string> {
    if d.inputsSchema.Some? then d.inputsSchema.value.properties.Keys else {}
  }

  /** The ids the validator has registered when it reaches step `i`: every valid id before it. */
  ghost function SeenBefore(d: Definition, i: nat): set<string>
    requires i <= |d.steps|
  {
    set j | 0 <= j < i && ValidStepID(d.steps[j].stepID) :: d.steps[j].stepID
  }

  ghost predicate RefViolates(tpl: string, inputs: set<string>, seen: set<string>, deps: set<string>, f: RefFault) {
    if !SyntaxOk(tpl) then f == MalformedTemplate else
    exists path <- Refs(Scan(tpl)) :: RefFaultOf(path, inputs, seen, deps) == Some(f)
  }

  function RefFaultOf(path: string, inputs: set<string>, seen: set<string>, deps: set<string>): Option<RefFault> {
    match Classify(path)
    case ToInput(name) => if name in inputs then None else Some(UndeclaredInput(name))
    case ToStep(id) =>
      if id !in seen then Some(UnknownStep(id)) else if id !in deps then Some(NotADependency(id)) else None
    case ToRunID => None
    case ToNothing => Some(NotAnAllowedVariable(path))
  }

  ghost predicate StepViolates(s: Step, r: Option<Resolver>, inputs: set<string>, seen: set<string>, f: StepFault) {
    if !ValidStepID(s.stepID) then f == StepIDInvalid
    else if s.stepID in seen then f == StepIDNotUnique
    else
      match f
      case StepIDInvalid => false
      case StepIDNotUnique => false
      case StepTypeUnsupported => s.typ != "LLM"
      case OnErrorUnsupported => s.onError !in {"", "STOP"}
      case ModelRequired => s.logicalModel == ""
      case ModelUnknown => s.logicalModel != "" && r.Some? && s.logicalModel !in r.value.models
      case PoolUnknown => s.poolID != "" && r.Some? && s.poolID !in r.value.pools
      case FallbackPoolUnknown(pid) =>
        s.fallbackPolicy.Some? && pid in s.fallbackPolicy.value.allowedPoolIDs && r.Some? && pid !in r.value.pools
      case MaxAttemptsOutOfRange =>
        s.retryPolicy.Some? && !(1 <= s.retryPolicy.value.maxAttempts <= MAX_ATTEMPTS_CAP)
      case DependencyNotEarlier(dep) => dep in s.dependsOn && dep !in seen
      case StepTextRequired => "text" !in s.inputMapping
      case StepKeyUnsupported(key) => key in s.inputMapping && key != "text"
      case StepRef(rf) =>
        "text" in s.inputMapping && RefViolates(s.inputMapping["text"], inputs, seen, Elements(s.dependsOn), rf)
  }

  function MaxSteps(d: Definition): int {
    if d.limits.maxSteps <= 0 || d.limits.maxSteps > MAX_STEPS_W1 then MAX_STEPS_W1 else d.limits.maxSteps
  }

  ghost predicate Violates(d: Definition, r: Option<Resolver>, f: Fault) {
    match f
    case NameRequired => d.name == ""
    case AliasInvalid => !ValidAlias(d.alias)
    case NotSequential => d.executionMode != "SEQUENTIAL"
    case ConversationModeUnsupported => d.conversationMode !in {"", "STATELESS"}
    case ParallelismUnsupported => d.limits.maxParallelism > 1
    case NoSteps => d.steps == []
    case TooManySteps => |d.steps| > MaxSteps(d)
    case SchemaRequired => d.inputsSchema.None?
    case SchemaNotObject => d.inputsSchema.Some? && d.inputsSchema.value.typ != "object"
    case NoInputs => d.inputsSchema.Some? && d.inputsSchema.value.properties == map[]
    case InputNotString(name) => d.inputsSchema.Some? && name in InputNames(d)
                                 && d.inputsSchema.value.properties[name].typ != "string"
    case RequiredUnknown(name) =>
      d.inputsSchema.Some? && name in d.inputsSchema.value.required && name !in InputNames(d)
    case InStep(i, sf) => i < |d.steps| && StepViolates(d.steps[i], r, InputNames(d), SeenBefore(d, i), sf)
    case OutputTextRequired => "text" !in d.outputMapping
    case OutputKeyUnsupported(key) => key in d.outputMapping && key != "text"
    case OutputRef(rf) =>
      "text" in d.outputMapping
      && RefViolates(d.outputMapping["text"], InputNames(d), SeenBefore(d, |d.steps|), SeenBefore(d, |d.steps|), rf)
  }

  // ---------------------------------------------------------------- the validator

  method CheckRefs(tpl: string, inputs: set<string>, seen: set<string>, deps: set<string>)
    returns (faults: seq<RefFault>)
    ensures forall f :: f in faults <==> RefViolates(tpl, inputs, seen, deps, f)
  {
    if !SyntaxOk(tpl) {
      return [MalformedTemplate];
    }
    var refs := TemplateRefs(tpl);
    faults := [];
    for i := 0 to |refs|
      invariant forall f ::
        f in faults <==> (exists path <- refs[..i] :: RefFaultOf(path, inputs, seen, deps) == Some(f))
    {
      assert refs[..i + 1] == refs[..i] + [refs[i]];
      match RefFaultOf(refs[i], inputs, seen, deps)
      case Some(f) => faults := faults + [f];
      case None =>
    }
    assert refs[..|refs|] == refs;
  }

  /** Any value of the result lists every key of `m` once, in some order. */
  method KeyOrder<V>(m: map<string, V>) returns (keys: seq<string>)
    ensures forall k :: k in keys <==> k in m
  {
    keys := [];
    var todo := m.Keys;
    while todo != {}
      invariant todo <= m.Keys
      invariant forall k :: k in keys <==> k in m.Keys - todo
      decreases todo
    {
      var k :| k in todo;
      keys := keys + [k];
      todo := todo - {k};
    }
  }

  method CheckCatalog(s: Step, r: Option<Resolver>) returns (faults: seq<StepFault>)
    ensures forall f :: f in faults <==>
      (match f
       case ModelRequired => s.logicalModel == ""
       case ModelUnknown => s.logicalModel != "" && r.Some? && s.logicalModel !in r.value.models
       case PoolUnknown => s.poolID != "" && r.Some? && s.poolID !in r.value.pools
       case FallbackPoolUnknown(pid) =>
         s.fallbackPolicy.Some? && pid in s.fallbackPolicy.value.allowedPoolIDs && r.Some? && pid !in r.value.pools
       case _ => false)
  {
    faults := [];
    if s.logicalModel == "" {
      faults := faults + [ModelRequired];
    } else if r.Some? && s.logicalModel !in r.value.models {
      faults := faults + [ModelUnknown];
    }
    if s.poolID != "" && r.Some? && s.poolID !in r.value.pools {
      faults := faults + [PoolUnknown];
    }
    if s.fallbackPolicy.Some? {
      var pools := s.fallbackPolicy.value.allowedPoolIDs;
      ghost var before := faults;
      for i := 0 to |pools|
        invariant forall f :: f in faults <==>
          (f in before || (f.FallbackPoolUnknown? && f.poolID in pools[..i] && r.Some? && f.poolID !in r.value.pools))
      {
        assert pools[..i + 1] == pools[..i] + [pools[i]];
        if r.Some? && pools[i] !in r.value.pools {
          faults := faults + [FallbackPoolUnknown(pools[i])];
        }
      }
      assert pools[..|pools|] == pools;
    }
  }

  method CheckStepText(tpl: string, inputs: set<string>, seen: set<string>, deps: set<string>)
    returns (faults: seq<StepFault>)
    ensures forall f :: f in faults <==> f.StepRef? && RefViolates(tpl, inputs, seen, deps, f.fault)
  {
    var rfs := CheckRefs(tpl, inputs, seen, deps);
    faults := [];
    for i := 0 to |rfs|
      invariant forall f :: f in faults <==> f.StepRef? && f.fault in rfs[..i]
    {
      assert rfs[..i + 1] == rfs[..i] + [rfs[i]];
      faults := faults + [StepRef(rfs[i])];
    }
    assert rfs[..|rfs|] == rfs;
  }

  method CheckMapping(s: Step, inputs: set<string>, seen: set<string>) returns (faults: seq<StepFault>)
    ensures forall f :: f in faults <==>
      (match f
       case StepTextRequired => "text" !in s.inputMapping
       case StepKeyUnsupported(key) => key in s.inputMapping && key != "text"
       case StepRef(rf) =>
         "text" in s.inputMapping && RefViolates(s.inputMapping["text"], inputs, seen, Elements(s.dependsOn), rf)
       case _ => false)
  {
    var deps := Elements(s.dependsOn);
    faults := if "text" in s.inputMapping then [] else [StepTextRequired];
    ghost var before := faults;
    var keys := KeyOrder(s.inputMapping);
    for i := 0 to |keys|
      invariant forall f :: f in faults <==>
        (f in before
         || (f.StepKeyUnsupported? && f.key in keys[..i] && f.key != "text")
         || (f.StepRef? && "text" in keys[..i] && RefViolates(s.inputMapping["text"], inputs, seen, deps, f.fault)))
    {
      assert keys[..i + 1] == keys[..i] + [keys[i]];
      if keys[i] != "text" {
        faults := faults + [StepKeyUnsupported(keys[i])];
      } else {
        var inText := CheckStepText(s.inputMapping["text"], inputs, seen, deps);
        faults := faults + inText;
      }
    }
    assert keys[..|keys|] == keys;
  }

  method CheckDependencies(s: Step, seen: set<string>) returns (faults: seq<StepFault>)
    ensures forall f :: f in faults <==> f.DependencyNotEarlier? && f.stepID in s.dependsOn && f.stepID !in seen
  {
    faults := [];
    for i := 0 to |s.dependsOn|
      invariant forall f ::
        f in faults <==> f.DependencyNotEarlier? && f.stepID in s.dependsOn[..i] && f.stepID !in seen
    {
      assert s.dependsOn[..i + 1] == s.dependsOn[..i] + [s.dependsOn[i]];
      if s.dependsOn[i] !in seen {
        faults := faults + [DependencyNotEarlier(s.dependsOn[i])];
      }
    }
    assert s.dependsOn[..|s.dependsOn|] == s.dependsOn;
  }

  method ValidateStep(s: Step, r: Option<Resolver>, inputs: set<string>, seen: set<string>)
    returns (faults: seq<StepFault>)
    ensures forall f :: f in faults <==> StepViolates(s, r, inputs, seen, f)
  {
    if !ValidStepID(s.stepID) {
      return [StepIDInvalid];
    }
    if s.stepID in seen {
      return [StepIDNotUnique];
    }
    faults := [];
    if s.typ != "LLM" {
      faults := faults + [StepTypeUnsupported];
    }
    if s.onError !in {"", "STOP"} {
      faults := faults + [OnErrorUnsupported];
    }
    var catalog := CheckCatalog(s, r);
    faults := faults + catalog;
    if s.retryPolicy.Some? && !(1 <= s.retryPolicy.value.maxAttempts <= MAX_ATTEMPTS_CAP) {
      faults := faults + [MaxAttemptsOutOfRange];
    }
    var dependencies := CheckDependencies(s, seen);
    var mapping := CheckMapping(s, inputs, seen);
    faults := faults + dependencies + mapping;
  }

  method ValidateHeader(d: Definition) returns (faults: seq<Fault>)
    ensures forall f :: f in faults <==>
      Violates(d, None, f) && (f.NameRequired? || f.AliasInvalid? || f.NotSequential? || f.ConversationModeUnsupported?)
  {
    hide ValidAlias, StepViolates, RefViolates, SeenBefore;
    faults := [];
    if d.name == "" {
      faults := faults + [NameRequired];
    }
    if !ValidAlias(d.alias) {
      faults := faults + [AliasInvalid];
    }
    if d.executionMode != "SEQUENTIAL" {
      faults := faults + [NotSequential];
    }
    if d.conversationMode !in {"", "STATELESS"} {
      faults := faults + [ConversationModeUnsupported];
    }
  }

  method ValidateLimits(d: Definition) returns (faults: seq<Fault>)
    ensures forall f ::
      f in faults <==> Violates(d, None, f) && (f.ParallelismUnsupported? || f.NoSteps? || f.TooManySteps?)
  {
    hide MaxSteps, StepViolates, RefViolates, SeenBefore;
    faults := [];
    if d.limits.maxParallelism > 1 {
      faults := faults + [ParallelismUnsupported];
    }
    if d.steps == [] {
      faults := faults + [NoSteps];
    }
    if |d.steps| > MaxSteps(d) {
      faults := faults + [TooManySteps];
    }
  }

  method ValidateSchema(d: Definition) returns (faults: seq<Fault>)
    ensures forall f :: f in faults <==>
      && Violates(d, None, f)
      && (f.SchemaRequired? || f.SchemaNotObject? || f.NoInputs? || f.InputNotString? || f.RequiredUnknown?)
  {
    if d.inputsSchema.None? {
      return [SchemaRequired];
    }
    var schema := d.inputsSchema.value;
    faults := [];
    if schema.typ != "object" {
      faults := faults + [SchemaNotObject];
    }
    if schema.properties == map[] {
      faults := faults + [NoInputs];
    }
    ghost var before := faults;
    var names := KeyOrder(schema.properties);
    for i := 0 to |names|
      invariant forall f :: f in faults <==>
        (f in before
         || (f.InputNotString? && f.name in names[..i] && schema.properties[f.name].typ != "string"))
    {
      assert names[..i + 1] == names[..i] + [names[i]];
      if schema.properties[names[i]].typ != "string" {
        faults := faults + [InputNotString(names[i])];
      }
    }
    assert names[..|names|] == names;
    var unknown := CheckRequired(schema);
    faults := faults + unknown;
  }

  method CheckRequired(schema: InputsSchema) returns (faults: seq<Fault>)
    ensures forall f :: f in faults <==> f.RequiredUnknown? && f.name in schema.required && f.name !in schema.properties
  {
    faults := [];
    for i := 0 to |schema.required|
      invariant forall f :: f in faults <==>
        f.RequiredUnknown? && f.name in schema.required[..i] && f.name !in schema.properties
    {
      assert schema.required[..i + 1] == schema.required[..i] + [schema.required[i]];
      if schema.required[i] !in schema.properties {
        faults := faults + [RequiredUnknown(schema.required[i])];
      }
    }
    assert schema.required[..|schema.required|] == schema.required;
  }

  method ValidateSteps(d: Definition, r: Option<Resolver>) returns (faults: seq<Fault>, seen: set<string>)
    ensures seen == SeenBefore(d, |d.steps|)
    ensures forall f :: f in faults <==> f.InStep? && Violates(d, r, f)
  {
    faults, seen := [], {};
    var inputs := InputNames(d);
    for i := 0 to |d.steps|
      invariant seen == SeenBefore(d, i)
      invariant forall f :: f in faults <==> f.InStep? && f.index < i && Violates(d, r, f)
    {
      var s := d.steps[i];
      var inThisStep := ValidateStep(s, r, inputs, seen);
      faults := AppendInStep(faults, i, inThisStep);
      if ValidStepID(s.stepID) && s.stepID !in seen {
        seen := seen + {s.stepID};
      }
      SeenBeforeStep(d, i);
    }
  }

  lemma SeenBeforeStep(d: Definition, i: nat)
    requires i < |d.steps|
    ensures SeenBefore(d, i + 1)
      == SeenBefore(d, i) + (if ValidStepID(d.steps[i].stepID) then {d.steps[i].stepID} else {})
  {
  }

  method AppendInStep(before: seq<Fault>, i: nat, stepFaults: seq<StepFault>) returns (faults: seq<Fault>)
    ensures forall f :: f in faults <==> (f in before || (f.InStep? && f.index == i && f.fault in stepFaults))
  {
    faults := before;
    for k := 0 to |stepFaults|
      invariant forall f :: f in faults <==> (f in before || (f.InStep? && f.index == i && f.fault in stepFaults[..k]))
    {
      assert stepFaults[..k + 1] == stepFaults[..k] + [stepFaults[k]];
      faults := faults + [InStep(i, stepFaults[k])];
    }
    assert stepFaults[..|stepFaults|] == stepFaults;
  }

  method CheckOutputText(tpl: string, inputs: set<string>, seen: set<string>) returns (faults: seq<Fault>)
    ensures forall f :: f in faults <==> f.OutputRef? && RefViolates(tpl, inputs, seen, seen, f.ref)
  {
    var rfs := CheckRefs(tpl, inputs, seen, seen);
    faults := [];
    for i := 0 to |rfs|
      invariant forall f :: f in faults <==> f.OutputRef? && f.ref in rfs[..i]
    {
      assert rfs[..i + 1] == rfs[..i] + [rfs[i]];
      faults := faults + [OutputRef(rfs[i])];
    }
    assert rfs[..|rfs|] == rfs;
  }

  method ValidateOutput(d: Definition, seen: set<string>) returns (faults: seq<Fault>)
    requires seen == SeenBefore(d, |d.steps|)
    ensures forall f :: f in faults <==>
      Violates(d, None, f) && (f.OutputTextRequired? || f.OutputKeyUnsupported? || f.OutputRef?)
  {
    var inputs := InputNames(d);
    faults := if "text" in d.outputMapping then [] else [OutputTextRequired];
    ghost var before := faults;
    var keys := KeyOrder(d.outputMapping);
    for i := 0 to |keys|
      invariant forall f :: f in faults <==>
        (f in before
         || (f.OutputKeyUnsupported? && f.key in keys[..i] && f.key != "text")
         || (f.OutputRef? && "text" in keys[..i] && RefViolates(d.outputMapping["text"], inputs, seen, seen, f.ref)))
    {
      assert keys[..i + 1] == keys[..i] + [keys[i]];
      if keys[i] != "text" {
        faults := faults + [OutputKeyUnsupported(keys[i])];
      } else {
        var inText := CheckOutputText(d.outputMapping["text"], inputs, seen);
        faults := faults + inText;
      }
    }
    assert keys[..|keys|] == keys;
  }

  /** Reports exactly the violated rules, all of them. */
  method Validate(d: Definition, r: Option<Resolver>) returns (faults: seq<Fault>)
    ensures forall f :: f in faults <==> Violates(d, r, f)
    ensures faults == [] <==> WellFormed(d, r)
  {
    var header := ValidateHeader(d);
    var limits := ValidateLimits(d);
    var schema := ValidateSchema(d);
    var steps, seen := ValidateSteps(d, r);
    var output := ValidateOutput(d, seen);
    faults := header + limits + schema + steps + output;
    assert forall f: Fault | !f.InStep? :: Violates(d, r, f) <==> Violates(d, None, f);
    assert forall f :: f in faults <==> f in header || f in limits || f in schema || f in steps || f in output;
    WellFormedIffNoViolation(d, r);
    if faults != [] {
      assert faults[0] in faults;
    }
  }

  // ---------------------------------------------------------------- what a flow author is promised

  /** A variable a template of a step with these dependencies may read. */
  ghost predicate Allowed(path: string, inputs: set<string>, deps: set<string>) {
    match Classify(path)
    case ToInput(name) => name in inputs
    case ToStep(id) => id in deps
    case ToRunID => true
    case ToNothing => false
  }

  /** Which variables a template may read: the run id, a declared input and the output of a dependency, under
      exactly these names. */
  lemma AllowedIff(path: string, inputs: set<string>, deps: set<string>)
    ensures Allowed(path, inputs, deps) <==>
      || path == "run.id"
      || (exists name <- inputs :: '.' !in name && path == "inputs." + name)
      || (exists id <- deps :: '.' !in id && path == "steps." + id + ".output")
  {
    ClassifiedPath(path);
    ClassifiedRunID();
    PartsHaveNoDot(path);
    forall name | name in inputs && '.' !in name && path == "inputs." + name ensures Allowed(path, inputs, deps) {
      ClassifiedInput(name);
    }
    forall id | id in deps && '.' !in id && path == "steps." + id + ".output" ensures Allowed(path, inputs, deps) {
      ClassifiedOutput(id);
    }
  }

  /** What the checker says of each reference, by its text. */
  lemma FaultByTheText(path: string, inputs: set<string>, seen: set<string>, deps: set<string>)
    ensures RefFaultOf(path, inputs, seen, deps) == None ==> Allowed(path, inputs, deps)
    ensures deps <= seen ==> (RefFaultOf(path, inputs, seen, deps) == None <==> Allowed(path, inputs, deps))
    ensures forall name | '.' !in name && name !in inputs ::
      RefFaultOf("inputs." + name, inputs, seen, deps) == Some(UndeclaredInput(name))
    ensures forall id | '.' !in id && id !in seen ::
      RefFaultOf("steps." + id + ".output", inputs, seen, deps) == Some(UnknownStep(id))
    ensures forall id | '.' !in id && id in seen && id !in deps ::
      RefFaultOf("steps." + id + ".output", inputs, seen, deps) == Some(NotADependency(id))
  {
    forall name | '.' !in name && name !in inputs
      ensures RefFaultOf("inputs." + name, inputs, seen, deps) == Some(UndeclaredInput(name))
    {
      ClassifiedInput(name);
    }
    forall id | '.' !in id ensures Classify("steps." + id + ".output") == ToStep(id) {
      ClassifiedOutput(id);
    }
  }

  /** A step may hand on the output of a step exactly if it depends on it, and an input exactly if it is
      declared; the whole text may be that reference. */
  lemma HandingOnIsAllowedIff(id: string, name: string, inputs: set<string>, deps: set<string>)
    requires ValidStepID(id) && name != "" && forall i | 0 <= i < |name| :: IsWordChar(name[i])
    ensures TemplateAllowed("{{steps." + id + ".output}}", inputs, deps) <==> id in deps
    ensures TemplateAllowed("{{inputs." + name + "}}", inputs, deps) <==> name in inputs
    ensures TemplateAllowed("{{run.id}}", inputs, deps)
  {
    hide TemplateAllowed, Classify, ValidStepID, IsDottedPath;
    OutputIsDotted(id);
    InputIsDotted(name);
    ReferenceAllowed("steps." + id + ".output", inputs, deps);
    ReferenceAllowed("inputs." + name, inputs, deps);
    ReferenceAllowed("run.id", inputs, deps) by { RunIDIsDotted(); }
    assert "{{" + ("steps." + id + ".output") + "}}" == "{{steps." + id + ".output}}";
    assert "{{" + ("inputs." + name) + "}}" == "{{inputs." + name + "}}";
    assert "{{" + "run.id" + "}}" == "{{run.id}}";
    ClassifiedOutput(id);
    ClassifiedInput(name);
    ClassifiedRunID();
  }

  lemma RunIDIsDotted()
    ensures IsDottedPath("run.id")
  {
  }

  lemma OutputIsDotted(id: string)
    requires ValidStepID(id)
    ensures IsDottedPath("steps." + id + ".output") && '.' !in id
  {
  }

  lemma InputIsDotted(name: string)
    requires name != "" && forall i | 0 <= i < |name| :: IsWordChar(name[i])
    ensures IsDottedPath("inputs." + name) && '.' !in name
  {
  }

  lemma ReferenceAllowed(path: string, inputs: set<string>, deps: set<string>)
    requires IsDottedPath(path)
    ensures TemplateAllowed("{{" + path + "}}", inputs, deps) <==> Allowed(path, inputs, deps)
  {
    PlainReferenceRenders(path, map[]);
    assert path in [path];
  }

  ghost predicate TemplateAllowed(tpl: string, inputs: set<string>, deps: set<string>) {
    SyntaxOk(tpl) && forall path <- Refs(Scan(tpl)) :: Allowed(path, inputs, deps)
  }

  ghost predicate StepWellFormed(d: Definition, r: Option<Resolver>, i: nat)
    requires i < |d.steps|
  {
    var s := d.steps[i];
    && ValidStepID(s.stepID) && s.typ == "LLM" && s.onError in {"", "STOP"}
    && s.logicalModel != ""
    && (r.Some? ==>
        && s.logicalModel in r.value.models
        && (s.poolID != "" ==> s.poolID in r.value.pools)
        && (s.fallbackPolicy.Some? ==> Elements(s.fallbackPolicy.value.allowedPoolIDs) <= r.value.pools))
    && (s.retryPolicy.Some? ==> 1 <= s.retryPolicy.value.maxAttempts <= MAX_ATTEMPTS_CAP)
    && (forall dep <- s.dependsOn :: exists j | 0 <= j < i :: d.steps[j].stepID == dep)
    && s.inputMapping.Keys == {"text"}
    && TemplateAllowed(s.inputMapping["text"], InputNames(d), Elements(s.dependsOn))
  }

  /** An acceptable definition: a bounded chain of distinctly named steps, each reading only declared
      inputs, the run id and the outputs of earlier steps it depends on. */
  ghost predicate WellFormed(d: Definition, r: Option<Resolver>) {
    && d.name != "" && ValidAlias(d.alias) && d.executionMode == "SEQUENTIAL"
    && d.conversationMode in {"", "STATELESS"} && d.limits.maxParallelism <= 1
    && 1 <= |d.steps| <= MaxSteps(d)
    && d.inputsSchema.Some? && d.inputsSchema.value.typ == "object" && d.inputsSchema.value.properties != map[]
    && (forall name <- InputNames(d) :: d.inputsSchema.value.properties[name].typ == "string")
    && Elements(d.inputsSchema.value.required) <= InputNames(d)
    && (forall i, j | 0 <= i < j < |d.steps| :: d.steps[i].stepID != d.steps[j].stepID)
    && (forall i | 0 <= i < |d.steps| :: StepWellFormed(d, r, i))
    && d.outputMapping.Keys == {"text"}
    && TemplateAllowed(d.outputMapping["text"], InputNames(d), StepIDs(d))
  }

  /** The identifiers, spelled out: 1 to 64 characters; step ids start with a letter. */
  lemma IdentifiersAreSpelled(s: string)
    ensures ValidStepID(s) <==>
      && 1 <= |s| <= 64 && s[0] in LOWER && forall ch <- s :: ch in LOWER || ch in DIGITS || ch == '_'
    ensures ValidAlias(s) <==>
      && 1 <= |s| <= 64 && s[0] != '-' && forall ch <- s :: ch in LOWER || ch in DIGITS || ch == '-'
  {
    hide LOWER, DIGITS;
    forall ch: char ensures ('a' <= ch <= 'z' <==> ch in LOWER) && ('0' <= ch <= '9' <==> ch in DIGITS) {
      LowerCharacters(ch);
      DigitCharacters(ch);
    }
    assert s != "" ==> s[0] in s;
    assert forall ch <- s :: exists i | 0 <= i < |s| :: s[i] == ch;
    assert forall i | 0 <= i < |s| :: s[i] in s;
  }

  /** The limits by the numbers: a definition has too many steps iff they are more than it allows itself, at most
      twenty; a retry policy asks for one to five attempts; and an input is too long beyond its own limit, or beyond
      100000 characters without one. */
  lemma LimitsByTheNumbers(d: Definition, r: Option<Resolver>, i: nat, inputs: map<string, string>)
    ensures Violates(d, r, TooManySteps) <==>
      |d.steps| > if 1 <= d.limits.maxSteps <= 20 then d.limits.maxSteps else 20
    ensures i < |d.steps| && Violates(d, r, InStep(i, MaxAttemptsOutOfRange)) ==>
      d.steps[i].retryPolicy.Some? && d.steps[i].retryPolicy.value.maxAttempts !in {1, 2, 3, 4, 5}
    ensures WellFormed(d, r) && i < |d.steps| && d.steps[i].retryPolicy.Some? ==>
      d.steps[i].retryPolicy.value.maxAttempts in {1, 2, 3, 4, 5}
    ensures d.inputsSchema.Some? && Elements(d.inputsSchema.value.required) <= inputs.Keys <= InputNames(d) ==>
      (InputsValid(d, inputs) <==> forall name <- inputs ::
         var max := d.inputsSchema.value.properties[name].maxLength;
         |inputs[name]| <= if max > 0 then max else 100_000)
  {
    hide ValidStepID, ValidAlias, TemplateAllowed, RefViolates;
    if i < |d.steps| && WellFormed(d, r) {
      assert StepWellFormed(d, r, i);
    }
  }

  ghost function StepIDs(d: Definition): set<string> {
    set i | 0 <= i < |d.steps| :: d.steps[i].stepID
  }

  lemma TemplateAllowedIff(tpl: string, inputs: set<string>, seen: set<string>, deps: set<string>)
    requires deps <= seen
    ensures TemplateAllowed(tpl, inputs, deps) <==> forall f :: !RefViolates(tpl, inputs, seen, deps, f)
  {
    if forall f :: !RefViolates(tpl, inputs, seen, deps, f) {
      assert !RefViolates(tpl, inputs, seen, deps, MalformedTemplate);
      forall path <- Refs(Scan(tpl)) ensures Allowed(path, inputs, deps) {
        var fault := RefFaultOf(path, inputs, seen, deps);
        if fault.Some? {
          assert RefViolates(tpl, inputs, seen, deps, fault.value);
        }
      }
    }
  }

  lemma SeenBeforeIs(d: Definition, i: nat)
    requires i <= |d.steps| && forall j | 0 <= j < i :: ValidStepID(d.steps[j].stepID)
    ensures forall id :: id in SeenBefore(d, i) <==> exists j | 0 <= j < i :: d.steps[j].stepID == id
  {
  }

  ghost predicate StepClean(d: Definition, r: Option<Resolver>, i: nat)
    requires i < |d.steps|
  {
    forall f :: !StepViolates(d.steps[i], r, InputNames(d), SeenBefore(d, i), f)
  }

  lemma WellFormedStepIsClean(d: Definition, r: Option<Resolver>, i: nat)
    requires i < |d.steps| && StepWellFormed(d, r, i) && d.steps[i].stepID !in SeenBefore(d, i)
    requires forall j | 0 <= j < i :: ValidStepID(d.steps[j].stepID)
    ensures StepClean(d, r, i)
  {
    SeenBeforeIs(d, i);
    var s := d.steps[i];
    TemplateAllowedIff(s.inputMapping["text"], InputNames(d), SeenBefore(d, i), Elements(s.dependsOn));
  }

  lemma CleanStepHeader(s: Step, r: Option<Resolver>, inputs: set<string>, seen: set<string>)
    requires forall f :: !StepViolates(s, r, inputs, seen, f)
    ensures ValidStepID(s.stepID) && s.stepID !in seen && s.typ == "LLM" && s.onError in {"", "STOP"}
    ensures s.retryPolicy.Some? ==> 1 <= s.retryPolicy.value.maxAttempts <= MAX_ATTEMPTS_CAP
  {
    assert !StepViolates(s, r, inputs, seen, StepIDInvalid);
    assert !StepViolates(s, r, inputs, seen, StepIDNotUnique);
    assert !StepViolates(s, r, inputs, seen, StepTypeUnsupported);
    assert !StepViolates(s, r, inputs, seen, OnErrorUnsupported);
    assert !StepViolates(s, r, inputs, seen, MaxAttemptsOutOfRange);
  }

  lemma CleanStepCatalog(s: Step, r: Option<Resolver>, inputs: set<string>, seen: set<string>)
    requires ValidStepID(s.stepID) && s.stepID !in seen
    requires forall f :: !StepViolates(s, r, inputs, seen, f)
    ensures s.logicalModel != ""
    ensures r.Some? ==>
        && s.logicalModel in r.value.models
        && (s.poolID != "" ==> s.poolID in r.value.pools)
        && (s.fallbackPolicy.Some? ==> Elements(s.fallbackPolicy.value.allowedPoolIDs) <= r.value.pools)
  {
    assert !StepViolates(s, r, inputs, seen, ModelRequired);
    assert !StepViolates(s, r, inputs, seen, ModelUnknown);
    assert !StepViolates(s, r, inputs, seen, PoolUnknown);
    if r.Some? && s.fallbackPolicy.Some? {
      forall pid <- s.fallbackPolicy.value.allowedPoolIDs ensures pid in r.value.pools {
        assert !StepViolates(s, r, inputs, seen, FallbackPoolUnknown(pid));
      }
    }
  }

  lemma CleanStepMapping(s: Step, r: Option<Resolver>, inputs: set<string>, seen: set<string>)
    requires ValidStepID(s.stepID) && s.stepID !in seen
    requires forall f :: !StepViolates(s, r, inputs, seen, f)
    ensures Elements(s.dependsOn) <= seen && s.inputMapping.Keys == {"text"}
    ensures TemplateAllowed(s.inputMapping["text"], inputs, Elements(s.dependsOn))
  {
    assert !StepViolates(s, r, inputs, seen, StepTextRequired);
    forall dep <- s.dependsOn ensures dep in seen {
      assert !StepViolates(s, r, inputs, seen, DependencyNotEarlier(dep));
    }
    forall key <- s.inputMapping ensures key == "text" {
      assert !StepViolates(s, r, inputs, seen, StepKeyUnsupported(key));
    }
    forall f ensures !RefViolates(s.inputMapping["text"], inputs, seen, Elements(s.dependsOn), f) {
      assert !StepViolates(s, r, inputs, seen, StepRef(f));
    }
    TemplateAllowedIff(s.inputMapping["text"], inputs, seen, Elements(s.dependsOn));
  }

  lemma CleanStepIsWellFormed(d: Definition, r: Option<Resolver>, i: nat)
    requires i < |d.steps| && StepClean(d, r, i)
    requires forall j | 0 <= j < i :: ValidStepID(d.steps[j].stepID)
    ensures StepWellFormed(d, r, i) && d.steps[i].stepID !in SeenBefore(d, i)
  {
    SeenBeforeIs(d, i);
    var s, inputs, seen := d.steps[i], InputNames(d), SeenBefore(d, i);
    CleanStepHeader(s, r, inputs, seen);
    CleanStepCatalog(s, r, inputs, seen);
    CleanStepMapping(s, r, inputs, seen);
    assert forall dep <- s.dependsOn :: dep in Elements(s.dependsOn);
  }

  lemma ValidIDs(d: Definition, r: Option<Resolver>, n: nat)
    requires n <= |d.steps| && forall i | 0 <= i < n :: StepWellFormed(d, r, i)
    ensures forall i | 0 <= i < n :: ValidStepID(d.steps[i].stepID)
  {
    forall i | 0 <= i < n ensures ValidStepID(d.steps[i].stepID) {
      assert StepWellFormed(d, r, i);
    }
  }

  lemma {:induction false} CleanStepsAreWellFormed(d: Definition, r: Option<Resolver>, n: nat)
    requires n <= |d.steps| && forall i | 0 <= i < n :: StepClean(d, r, i)
    ensures forall i | 0 <= i < n :: StepWellFormed(d, r, i) && d.steps[i].stepID !in SeenBefore(d, i)
  {
    if n > 0 {
      CleanStepsAreWellFormed(d, r, n - 1);
      ValidIDs(d, r, n - 1);
      CleanStepIsWellFormed(d, r, n - 1);
    }
  }

  lemma WellFormedHasNoViolation(d: Definition, r: Option<Resolver>)
    requires WellFormed(d, r)
    ensures forall f :: !Violates(d, r, f)
  {
    forall i | 0 <= i < |d.steps| ensures StepClean(d, r, i) {
      ValidIDs(d, r, i);
      SeenBeforeIs(d, i);
      assert StepWellFormed(d, r, i);
      WellFormedStepIsClean(d, r, i);
    }
    ValidIDs(d, r, |d.steps|);
    SeenBeforeIs(d, |d.steps|);
    assert StepIDs(d) == SeenBefore(d, |d.steps|);
    TemplateAllowedIff(d.outputMapping["text"], InputNames(d), StepIDs(d), StepIDs(d));
    forall f ensures !Violates(d, r, f) {
      if f.InStep? && f.index < |d.steps| {
        assert StepClean(d, r, f.index);
      }
    }
  }

  lemma HeaderIsWellFormed(d: Definition, r: Option<Resolver>)
    requires forall f :: !Violates(d, r, f)
    ensures d.name != "" && ValidAlias(d.alias) && d.executionMode == "SEQUENTIAL"
    ensures d.conversationMode in {"", "STATELESS"} && d.limits.maxParallelism <= 1
    ensures 1 <= |d.steps| <= MaxSteps(d)
  {
    assert !Violates(d, r, NameRequired) && !Violates(d, r, AliasInvalid) && !Violates(d, r, NotSequential);
    assert !Violates(d, r, ConversationModeUnsupported) && !Violates(d, r, ParallelismUnsupported);
    assert !Violates(d, r, NoSteps) && !Violates(d, r, TooManySteps);
  }

  lemma SchemaIsWellFormed(d: Definition, r: Option<Resolver>)
    requires forall f :: !Violates(d, r, f)
    ensures d.inputsSchema.Some? && d.inputsSchema.value.typ == "object" && d.inputsSchema.value.properties != map[]
    ensures forall name <- InputNames(d) :: d.inputsSchema.value.properties[name].typ == "string"
    ensures Elements(d.inputsSchema.value.required) <= InputNames(d)
  {
    assert !Violates(d, r, SchemaRequired) && !Violates(d, r, SchemaNotObject) && !Violates(d, r, NoInputs);
    forall name <- InputNames(d) ensures d.inputsSchema.value.properties[name].typ == "string" {
      assert !Violates(d, r, InputNotString(name));
    }
    forall name <- d.inputsSchema.value.required ensures name in InputNames(d) {
      assert !Violates(d, r, RequiredUnknown(name));
    }
  }

  lemma StepsAreWellFormed(d: Definition, r: Option<Resolver>)
    requires forall f :: !Violates(d, r, f)
    ensures forall i, j | 0 <= i < j < |d.steps| :: d.steps[i].stepID != d.steps[j].stepID
    ensures forall i | 0 <= i < |d.steps| :: StepWellFormed(d, r, i)
  {
    forall i | 0 <= i < |d.steps| ensures StepClean(d, r, i) {
      forall f ensures !StepViolates(d.steps[i], r, InputNames(d), SeenBefore(d, i), f) {
        assert !Violates(d, r, InStep(i, f));
      }
    }
    CleanStepsAreWellFormed(d, r, |d.steps|);
    forall i, j | 0 <= i < j < |d.steps| ensures d.steps[i].stepID != d.steps[j].stepID {
      assert StepWellFormed(d, r, i) && StepWellFormed(d, r, j);
      assert d.steps[j].stepID !in SeenBefore(d, j);
    }
  }

  lemma OutputIsAllowed(d: Definition, r: Option<Resolver>)
    requires forall f :: !Violates(d, r, f)
    requires forall i | 0 <= i < |d.steps| :: StepWellFormed(d, r, i)
    ensures d.outputMapping.Keys == {"text"}
    ensures TemplateAllowed(d.outputMapping["text"], InputNames(d), StepIDs(d))
  {
    assert !Violates(d, r, OutputTextRequired);
    forall key <- d.outputMapping ensures key == "text" {
      assert !Violates(d, r, OutputKeyUnsupported(key));
    }
    ValidIDs(d, r, |d.steps|);
    SeenBeforeIs(d, |d.steps|);
    assert StepIDs(d) == SeenBefore(d, |d.steps|);
    hide RefViolates, TemplateAllowed, SeenBefore, StepIDs, InputNames;
    forall f ensures !RefViolates(d.outputMapping["text"], InputNames(d), StepIDs(d), StepIDs(d), f) {
      assert !Violates(d, r, OutputRef(f));
    }
    TemplateAllowedIff(d.outputMapping["text"], InputNames(d), StepIDs(d), StepIDs(d));
  }

  /** The rules the validator checks one by one amount to well-formedness. */
  lemma WellFormedIffNoViolation(d: Definition, r: Option<Resolver>)
    ensures WellFormed(d, r) <==> forall f :: !Violates(d, r, f)
  {
    if WellFormed(d, r) {
      WellFormedHasNoViolation(d, r);
    }
    if forall f :: !Violates(d, r, f) {
      HeaderIsWellFormed(d, r);
      SchemaIsWellFormed(d, r);
      StepsAreWellFormed(d, r);
      OutputIsAllowed(d, r);
    }
  }

  // ---------------------------------------------------------------- run inputs

  datatype InputFault = NoSchema | MissingRequired(name: string) | Unexpected(name: string)
    | TooLong(name: string, max: int)

  function MaxLength(p: InputProp): int {
    if p.maxLength <= 0 then MAX_INPUT_LEN_DEFAULT else p.maxLength
  }

  ghost predicate InputsValid(d: Definition, inputs: map<string, string>) {
    && d.inputsSchema.Some?
    && Elements(d.inputsSchema.value.required) <= inputs.Keys <= InputNames(d)
    && forall name <- inputs :: |inputs[name]| <= MaxLength(d.inputsSchema.value.properties[name])
  }

  method ValidateInputs(d: Definition, inputs: map<string, string>) returns (fault: Option<InputFault>)
    ensures fault.None? <==> InputsValid(d, inputs)
    ensures match fault
            case None => true
            case Some(NoSchema) => d.inputsSchema.None?
            case Some(MissingRequired(name)) =>
              d.inputsSchema.Some? && name in d.inputsSchema.value.required && name !in inputs
            case Some(Unexpected(name)) => name in inputs && name !in InputNames(d)
            case Some(TooLong(name, max)) =>
              && name in inputs && name in InputNames(d)
              && |inputs[name]| > max == MaxLength(d.inputsSchema.value.properties[name])
  {
    if d.inputsSchema.None? {
      return Some(NoSchema);
    }
    var schema := d.inputsSchema.value;
    for i := 0 to |schema.required|
      invariant Elements(schema.required[..i]) <= inputs.Keys
    {
      if schema.required[i] !in inputs {
        return Some(MissingRequired(schema.required[i]));
      }
      assert schema.required[..i + 1] == schema.required[..i] + [schema.required[i]];
    }
    assert schema.required[..|schema.required|] == schema.required;
    var names := KeyOrder(inputs);
    for i := 0 to |names|
      invariant forall name <- names[..i] ::
        name in schema.properties && |inputs[name]| <= MaxLength(schema.properties[name])
    {
      var name := names[i];
      if name !in schema.properties {
        return Some(Unexpected(name));
      }
      var max := MaxLength(schema.properties[name]);
      if |inputs[name]| > max {
        return Some(TooLong(name, max));
      }
      assert names[..i + 1] == names[..i] + [name];
    }
    assert names[..|names|] == names;
    return None;
  }

  // ---------------------------------------------------------------- soundness of validation

  /** The variables the runner has bound when it renders step `i` (`i` = number of steps: the output). */
  ghost function BoundVars(d: Definition, i: nat): set<string>
    requires i <= |d.steps|
  {
    {RUN_ID_VAR} + (set name | name in InputNames(d) :: InputVar(name))
    + (set j | 0 <= j < i :: OutputVar(d.steps[j].stepID))
  }

  lemma AllowedIsBound(d: Definition, i: nat, path: string, deps: set<string>)
    requires i <= |d.steps| && forall dep <- deps :: exists j | 0 <= j < i :: d.steps[j].stepID == dep
    requires Allowed(path, InputNames(d), deps)
    ensures path in BoundVars(d, i)
  {
    ClassifiedPath(path);
    if Classify(path).ToStep? {
      var j :| 0 <= j < i && d.steps[j].stepID == Classify(path).stepID;
      assert path == OutputVar(d.steps[j].stepID);
    }
  }

  /** A validated step's input renders, whatever the variables hold. */
  lemma ValidatedStepRenders(d: Definition, r: Option<Resolver>, i: nat, vars: Vars)
    requires WellFormed(d, r) && i < |d.steps| && BoundVars(d, i) <= vars.Keys
    ensures "text" in d.steps[i].inputMapping && Rendering(d.steps[i].inputMapping["text"], vars).Success?
  {
    var s := d.steps[i];
    assert StepWellFormed(d, r, i);
    assert "text" in s.inputMapping;
    forall path <- Refs(Scan(s.inputMapping["text"])) ensures path in vars {
      AllowedIsBound(d, i, path, Elements(s.dependsOn));
    }
    RenderSucceedsIff(s.inputMapping["text"], vars);
  }

  /** So does the final output of a validated definition. */
  lemma ValidatedOutputRenders(d: Definition, r: Option<Resolver>, vars: Vars)
    requires WellFormed(d, r) && BoundVars(d, |d.steps|) <= vars.Keys
    ensures "text" in d.outputMapping && Rendering(d.outputMapping["text"], vars).Success?
  {
    assert "text" in d.outputMapping;
    forall path <- Refs(Scan(d.outputMapping["text"])) ensures path in vars {
      AllowedIsBound(d, |d.steps|, path, StepIDs(d));
    }
    RenderSucceedsIff(d.outputMapping["text"], vars);
  }
}
