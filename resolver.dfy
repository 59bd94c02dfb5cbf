/** Argument resolution (resolveArg, resolveArgDefault, resolveArgFromInitial,
    resolveArgFromFunctionOutput and the parameter loop of executeStep in
    pipeline/pipeline.go), as functions of the state they read. */
module Resolver {
  import opened Errors
  import opened Context
  import opened Config

  /** Everything resolution reads: the configuration, the assignability relation between
      runtime types, the value store, the initial inputs and the per-step output log. */
  datatype Env = Env(
    config: PipelineConfig,
    assignable: (Tag, Tag) -> bool,
    values: map<Tag, seq<Value>>,
    initial: seq<Value>,
    outputs: map<string, seq<Value>>)

  /** A resolved argument together with the pick counters after resolving it. */
  datatype Pick = Pick(value: Value, counters: map<Tag, int>)

  /** The arguments of a step resolved so far and the pick counters they leave. */
  datatype Resolution = Resolution(args: seq<Value>, counters: map<Tag, int>)

  /** The pick counter of a type; a type never picked in this step reads as 0. */
  function Counter(counters: map<Tag, int>, t: Tag): int {
    if t in counters then counters[t] else 0
  }

  /** An explicit Initial binding: the initial input at `index`, if in range and assignable. */
  function ResolveFromInitial(initial: seq<Value>, assignable: (Tag, Tag) -> bool, paramType: Tag, index: int)
    : (r: Result<Value>)
    ensures r.Ok? <==> 0 <= index < |initial| && assignable(initial[index].tag, paramType)
    ensures !(0 <= index < |initial|) ==> r == Err(IndexOutOfRange)
    ensures 0 <= index < |initial| && !assignable(initial[index].tag, paramType) ==> r == Err(TypeMismatch)
    ensures r.Ok? ==> r.value == initial[index]
  {
    if index < 0 || index >= |initial| then Err(IndexOutOfRange)
    else if !assignable(initial[index].tag, paramType) then Err(TypeMismatch)
    else Ok(initial[index])
  }

  /** An explicit FunctionOutput binding: output `index` of the step called `name`. */
  function ResolveFromFunctionOutput(outputs: map<string, seq<Value>>, assignable: (Tag, Tag) -> bool,
                                     paramType: Tag, name: string, index: int): (r: Result<Value>)
    ensures r.Ok? <==> name in outputs && 0 <= index < |outputs[name]| && assignable(outputs[name][index].tag, paramType)
    ensures name !in outputs ==> r == Err(UnknownProducer)
    ensures name in outputs && !(0 <= index < |outputs[name]|) ==> r == Err(IndexOutOfRange)
    ensures name in outputs && 0 <= index < |outputs[name]| && !assignable(outputs[name][index].tag, paramType)
            ==> r == Err(TypeMismatch)
    ensures r.Ok? ==> r.value == outputs[name][index]
  {
    if name !in outputs then Err(UnknownProducer)
    else if index < 0 || index >= |outputs[name]| then Err(IndexOutOfRange)
    else if !assignable(outputs[name][index].tag, paramType) then Err(TypeMismatch)
    else Ok(outputs[name][index])
  }

  /** Default resolution under the configured policy. UseLatest hands out the bucket value
      at the type's pick counter (clamped to the last one) and advances the counter while it
      is below the last index; it keys by the exact type, not by assignability. */
  function DefaultPick(policy: MissingArgPolicy, values: map<Tag, seq<Value>>, counters: map<Tag, int>, paramType: Tag)
    : (r: Result<Pick>)
    ensures policy == Fail ==> r == Err(MissingArgument)
    ensures policy != UseLatest && policy != Fail ==> r == Err(UnknownPolicy)
    ensures policy == UseLatest && Counter(counters, paramType) >= 0 ==> (r.Ok? <==> |Bucket(values, paramType)| > 0)
    ensures policy == UseLatest && |Bucket(values, paramType)| == 0 ==> r == Err(NotFound)
    ensures policy == UseLatest && |Bucket(values, paramType)| > 0 && Counter(counters, paramType) < 0 ==> r == Err(InvalidIndex)
    ensures r.Ok? ==> (0 <= Counter(counters, paramType) && |Bucket(values, paramType)| > 0 &&
      r.value.value == Bucket(values, paramType)[Min(Counter(counters, paramType), |Bucket(values, paramType)| - 1)])
    ensures r.Ok? ==> (Counter(r.value.counters, paramType) ==
      if Counter(counters, paramType) < |Bucket(values, paramType)| - 1
      then Counter(counters, paramType) + 1 else Counter(counters, paramType))
    ensures r.Ok? ==> forall u :: u != paramType ==> Counter(r.value.counters, u) == Counter(counters, u)
  {
    if policy == UseLatest then
      var idx := Counter(counters, paramType);
      match ValueByIndex(values, paramType, idx)
      case Err(e) => Err(e)
      case Ok(v) =>
        var vals := Bucket(values, paramType);
        Ok(Pick(v, if idx < |vals| - 1 then counters[paramType := idx + 1] else counters))
    else if policy == Fail then Err(MissingArgument)
    else Err(UnknownPolicy)
  }

  /** An explicit lookup as a pick: it leaves the counters alone. */
  function Unpicked(r: Result<Value>, counters: map<Tag, int>): Result<Pick> {
    match r
    case Ok(v) => Ok(Pick(v, counters))
    case Err(e) => Err(e)
  }

  /** resolveArg: dispatch on the binding's source; the Default source and any unrecognised
      source fall back to default resolution. */
  function BoundPick(env: Env, counters: map<Tag, int>, paramType: Tag, binding: ArgBinding): (r: Result<Pick>)
    ensures (binding.source == SourceInitial || binding.source == SourceFunctionOutput) && r.Ok? ==>
      r.value.counters == counters
    ensures binding.source != SourceInitial && binding.source != SourceFunctionOutput ==>
      r == DefaultPick(env.config.missingArgPolicy, env.values, counters, paramType)
    ensures binding.source == SourceInitial ==>
      r == Unpicked(ResolveFromInitial(env.initial, env.assignable, paramType, binding.index), counters)
    ensures binding.source == SourceFunctionOutput ==>
      r == Unpicked(ResolveFromFunctionOutput(env.outputs, env.assignable, paramType, binding.name, binding.index), counters)
  {
    if binding.source == SourceInitial then
      Unpicked(ResolveFromInitial(env.initial, env.assignable, paramType, binding.index), counters)
    else if binding.source == SourceFunctionOutput then
      Unpicked(ResolveFromFunctionOutput(env.outputs, env.assignable, paramType, binding.name, binding.index), counters)
    else
      DefaultPick(env.config.missingArgPolicy, env.values, counters, paramType)
  }

  /** The binding configured for parameter `i` of the step called `stepName`, if any:
      only a configured step, an index inside its binding list and a non-nil entry count. */
  function BindingAt(config: PipelineConfig, stepName: string, i: nat): (r: Option<ArgBinding>)
    ensures r.Some? <==> stepName in config.stepConfigs && i < |config.stepConfigs[stepName].argBindings|
                         && config.stepConfigs[stepName].argBindings[i].Some?
    ensures r.Some? ==> r == config.stepConfigs[stepName].argBindings[i]
  {
    if stepName in config.stepConfigs && i < |config.stepConfigs[stepName].argBindings|
    then config.stepConfigs[stepName].argBindings[i]
    else None
  }

  /** Whether parameter `i` of the step is filled by default resolution. */
  predicate UsesDefault(config: PipelineConfig, stepName: string, i: nat) {
    match BindingAt(config, stepName, i)
    case None => true
    case Some(b) => b.source != SourceInitial && b.source != SourceFunctionOutput
  }

  /** Resolution of parameter `i` of type `paramType`: by its binding if it has one,
      by default resolution otherwise. */
  function ParamPick(env: Env, counters: map<Tag, int>, stepName: string, i: nat, paramType: Tag): (r: Result<Pick>)
    ensures UsesDefault(env.config, stepName, i) ==>
      r == DefaultPick(env.config.missingArgPolicy, env.values, counters, paramType)
    ensures !UsesDefault(env.config, stepName, i) ==> r.Ok? ==> r.value.counters == counters
  {
    match BindingAt(env.config, stepName, i)
    case Some(b) => BoundPick(env, counters, paramType, b)
    case None => DefaultPick(env.config.missingArgPolicy, env.values, counters, paramType)
  }

  /** Resolution of a step's parameters left to right, starting from `counters`; the first
      error ends it. */
  function ResolveParams(env: Env, stepName: string, params: seq<Tag>, counters: map<Tag, int>)
    : (r: Result<Resolution>)
    ensures r.Ok? ==> |r.value.args| == |params|
  {
    if params == [] then Ok(Resolution([], counters))
    else
      match ResolveParams(env, stepName, params[..|params| - 1], counters)
      case Err(e) => Err(e)
      case Ok(res) =>
        match ParamPick(env, res.counters, stepName, |params| - 1, params[|params| - 1])
        case Err(e) => Err(e)
        case Ok(p) => Ok(Resolution(res.args + [p.value], p.counters))
  }

  /** Resolving one more parameter extends a successful prefix by that parameter's pick. */
  lemma ResolveOneMore(env: Env, stepName: string, params: seq<Tag>, counters: map<Tag, int>, i: nat)
    requires i < |params|
    requires ResolveParams(env, stepName, params[..i], counters).Ok?
    ensures ResolveParams(env, stepName, params[..i + 1], counters)
         == match ParamPick(env, ResolveParams(env, stepName, params[..i], counters).value.counters, stepName, i, params[i])
            case Err(e) => Err(e)
            case Ok(p) => Ok(Resolution(ResolveParams(env, stepName, params[..i], counters).value.args + [p.value], p.counters))
  {
    assert params[..i + 1][..i] == params[..i];
  }

  /** The first parameter that fails ends resolution: a failing prefix is the final answer. */
  lemma {:induction false} ResolveErrStops(env: Env, stepName: string, params: seq<Tag>, counters: map<Tag, int>, k: nat)
    requires k <= |params|
    requires ResolveParams(env, stepName, params[..k], counters).Err?
    ensures ResolveParams(env, stepName, params, counters) == ResolveParams(env, stepName, params[..k], counters)
  {
    if k < |params| {
      var init := params[..|params| - 1];
      assert init[..k] == params[..k];
      ResolveErrStops(env, stepName, init, counters, k);
    } else {
      assert params[..k] == params;
    }
  }

  /** How many of the parameters are of type `t` and filled by default resolution. */
  function DefaultCount(config: PipelineConfig, stepName: string, params: seq<Tag>, t: Tag): nat {
    if params == [] then 0
    else
      DefaultCount(config, stepName, params[..|params| - 1], t) +
      (if params[|params| - 1] == t && UsesDefault(config, stepName, |params| - 1) then 1 else 0)
  }

  /** Argument `j` is what parameter `j` resolves to after the parameters before it. */
  lemma {:induction false} ResolvedArg(env: Env, stepName: string, params: seq<Tag>, counters: map<Tag, int>, j: nat)
    requires ResolveParams(env, stepName, params, counters).Ok?
    requires j < |params|
    ensures ResolveParams(env, stepName, params[..j], counters).Ok?
    ensures var before := ResolveParams(env, stepName, params[..j], counters).value;
      var p := ParamPick(env, before.counters, stepName, j, params[j]);
      p.Ok? && ResolveParams(env, stepName, params, counters).value.args[j] == p.value.value
  {
    var init := params[..|params| - 1];
    if j < |params| - 1 {
      ResolvedArg(env, stepName, init, counters, j);
      assert init[..j] == params[..j];
    } else {
      assert params[..j] == init;
    }
  }

  /** Under UseLatest, with counters starting at zero, the counter of `t` after the
      parameters is the number of default-resolved `t` parameters, held at the last index. */
  lemma {:induction false} UseLatestCounter(env: Env, stepName: string, params: seq<Tag>, counters: map<Tag, int>, t: Tag)
    requires env.config.missingArgPolicy == UseLatest
    requires Counter(counters, t) == 0
    requires ResolveParams(env, stepName, params, counters).Ok?
    ensures Counter(ResolveParams(env, stepName, params, counters).value.counters, t)
         == Min(DefaultCount(env.config, stepName, params, t), if |Bucket(env.values, t)| > 0 then |Bucket(env.values, t)| - 1 else 0)
  {
    if params != [] {
      var init := params[..|params| - 1];
      UseLatestCounter(env, stepName, init, counters, t);
    }
  }

  /** The UseLatest rule: the j-th default-resolved parameter of type T within a step gets
      the value at position min(j, len - 1) of T's bucket. */
  lemma UseLatestArg(env: Env, stepName: string, params: seq<Tag>, j: nat)
    requires env.config.missingArgPolicy == UseLatest
    requires ResolveParams(env, stepName, params, map[]).Ok?
    requires j < |params| && UsesDefault(env.config, stepName, j)
    ensures |Bucket(env.values, params[j])| > 0
    ensures ResolveParams(env, stepName, params, map[]).value.args[j]
         == Bucket(env.values, params[j])[Min(DefaultCount(env.config, stepName, params[..j], params[j]),
                                              |Bucket(env.values, params[j])| - 1)]
  {
    ResolvedArg(env, stepName, params, map[], j);
    UseLatestCounter(env, stepName, params[..j], map[], params[j]);
  }

  /** Under any policy but UseLatest, a step's parameters resolve only if none of them
      needs default resolution, whatever the store holds. */
  lemma {:induction false} NoDefaultsUnlessUseLatest(env: Env, stepName: string, params: seq<Tag>, counters: map<Tag, int>)
    requires env.config.missingArgPolicy != UseLatest
    requires ResolveParams(env, stepName, params, counters).Ok?
    ensures forall j :: 0 <= j < |params| ==> !UsesDefault(env.config, stepName, j)
  {
    if params != [] {
      NoDefaultsUnlessUseLatest(env, stepName, params[..|params| - 1], counters);
    }
  }

  /** Under the Fail policy, the first parameter that needs default resolution ends the
      step with MissingArgument, once the parameters before it have resolved. */
  lemma FailPolicyMissingArgument(env: Env, stepName: string, params: seq<Tag>, counters: map<Tag, int>, j: nat)
    requires env.config.missingArgPolicy == Fail
    requires j < |params| && UsesDefault(env.config, stepName, j)
    requires ResolveParams(env, stepName, params[..j], counters).Ok?
    ensures ResolveParams(env, stepName, params, counters) == Err(MissingArgument)
  {
    ResolveOneMore(env, stepName, params, counters, j);
    ResolveErrStops(env, stepName, params, counters, j + 1);
  }

  /** Resolved arguments fit their parameters: explicitly bound ones are assignable, and
      default-resolved ones have exactly the parameter's type. */
  lemma {:induction false} ArgsFitParams(env: Env, stepName: string, params: seq<Tag>, counters: map<Tag, int>)
    requires WellFormed(env.values)
    requires forall t :: env.assignable(t, t)
    requires ResolveParams(env, stepName, params, counters).Ok?
    ensures var args := ResolveParams(env, stepName, params, counters).value.args;
      forall j :: 0 <= j < |params| ==> env.assignable(args[j].tag, params[j]) &&
                                         (UsesDefault(env.config, stepName, j) ==> args[j].tag == params[j])
  {
    if params != [] {
      var init, t := params[..|params| - 1], params[|params| - 1];
      ArgsFitParams(env, stepName, init, counters);
      var res := ResolveParams(env, stepName, init, counters).value;
      var p := ParamPick(env, res.counters, stepName, |params| - 1, t).value;
      if UsesDefault(env.config, stepName, |params| - 1) {
        assert p.value in env.values[t];
      }
    }
  }
}
