/** The orchestrator (pipeline/pipeline.go): a pipeline holds its registered steps, the
    value store, the per-step output log and the pick counters of the step being run;
    Execute orders the steps, runs them fail-fast and filters the output log. */
module Engine {
  import opened Errors
  import opened Context
  import opened Config
  import opened Steps
  import opened Resolver

  /** What a run reads and changes: the value store, the initial inputs and the output log. */
  datatype State = State(values: map<Tag, seq<Value>>, initial: seq<Value>, outputs: map<string, seq<Value>>)

  /** Where a run of several steps ended: the state reached and the first error, if any. */
  datatype Outcome = Outcome(state: State, failure: Option<ErrorKind>)

  function EnvOf(config: PipelineConfig, assignable: (Tag, Tag) -> bool, st: State): Env {
    Env(config, assignable, st.values, st.initial, st.outputs)
  }

  /** The outputs recorded for a step name; a name without an entry reads as none. */
  function Recorded(outputs: map<string, seq<Value>>, name: string): seq<Value> {
    if name in outputs then outputs[name] else []
  }

  /** One step from state `st` with pick counters `counters`: resolve its parameters, and
      if that succeeds invoke it and append its results to the store and to its entry of the
      output log (creating the entry even when there are no results). */
  function StepEffect(config: PipelineConfig, assignable: (Tag, Tag) -> bool, st: State,
                      counters: map<Tag, int>, step: Step): (r: Result<State>)
    ensures r.Ok? <==> ResolveParams(EnvOf(config, assignable, st), step.name, step.params, counters).Ok?
    ensures r.Err? ==> r == Err(ResolveParams(EnvOf(config, assignable, st), step.name, step.params, counters).error)
  {
    match ResolveParams(EnvOf(config, assignable, st), step.name, step.params, counters)
    case Err(e) => Err(e)
    case Ok(res) =>
      var results := step.invoke(res.args);
      Ok(State(StoredAll(st.values, results), st.initial,
               st.outputs[step.name := Recorded(st.outputs, step.name) + results]))
  }

  /** Runs `step` after an outcome, with fresh pick counters, unless the run already failed. */
  function Advance(config: PipelineConfig, assignable: (Tag, Tag) -> bool, before: Outcome, step: Step): Outcome {
    if before.failure.Some? then before
    else
      match StepEffect(config, assignable, before.state, map[], step)
      case Err(e) => Outcome(before.state, Some(e))
      case Ok(after) => Outcome(after, None)
  }

  /** Steps run one after the other from `st`; the first error stops the run and leaves the
      state the earlier steps reached. */
  function RunSteps(config: PipelineConfig, assignable: (Tag, Tag) -> bool, st: State, steps: seq<Step>): Outcome {
    if steps == [] then Outcome(st, None)
    else Advance(config, assignable, RunSteps(config, assignable, st, steps[..|steps| - 1]), steps[|steps| - 1])
  }

  lemma RunOneMore(config: PipelineConfig, assignable: (Tag, Tag) -> bool, st: State, steps: seq<Step>, i: nat)
    requires i < |steps|
    ensures RunSteps(config, assignable, st, steps[..i + 1])
         == Advance(config, assignable, RunSteps(config, assignable, st, steps[..i]), steps[i])
  {
    assert steps[..i + 1][..i] == steps[..i];
  }

  /** filterOutputs: the whole log for an empty filter, otherwise the entries of the
      filtered names that have an entry, with their values unchanged. */
  function Filtered(outputs: map<string, seq<Value>>, filter: seq<string>): (r: map<string, seq<Value>>)
    ensures |filter| == 0 ==> r == outputs
    ensures |filter| > 0 ==> forall n :: n in r <==> n in outputs && n in filter
    ensures forall n :: n in r ==> n in outputs && r[n] == outputs[n]
  {
    if |filter| == 0 then outputs else map n | n in outputs && n in filter :: outputs[n]
  }

  /** Filtering twice with the same names is filtering once. */
  lemma FilteredIdempotent(outputs: map<string, seq<Value>>, filter: seq<string>)
    ensures Filtered(Filtered(outputs, filter), filter) == Filtered(outputs, filter)
  {
  }

  /** A successful step appends its results, in order, to the bucket of each result's type
      and to its own entry of the output log; other entries and the initial inputs stay. */
  lemma StepAppends(config: PipelineConfig, assignable: (Tag, Tag) -> bool, st: State,
                    counters: map<Tag, int>, step: Step)
    requires ResolveParams(EnvOf(config, assignable, st), step.name, step.params, counters).Ok?
    ensures var results := step.invoke(ResolveParams(EnvOf(config, assignable, st), step.name, step.params, counters).value.args);
      var after := StepEffect(config, assignable, st, counters, step).value;
      && after.initial == st.initial
      && step.name in after.outputs
      && after.outputs[step.name] == Recorded(st.outputs, step.name) + results
      && (forall n :: n != step.name ==> (n in after.outputs <==> n in st.outputs) &&
                                          Recorded(after.outputs, n) == Recorded(st.outputs, n))
      && (forall t :: Bucket(after.values, t) == Bucket(st.values, t) + OfTag(results, t))
  {
    var results := step.invoke(ResolveParams(EnvOf(config, assignable, st), step.name, step.params, counters).value.args);
    forall t ensures Bucket(StoredAll(st.values, results), t) == Bucket(st.values, t) + OfTag(results, t) {
      StoredAllBucket(st.values, results, t);
    }
  }

  /** A step that returns nothing still gets an entry in the output log, so a later
      FunctionOutput binding to it fails on the index check, not as an unknown producer. */
  lemma EmptyStepIsKnownProducer(config: PipelineConfig, assignable: (Tag, Tag) -> bool, st: State,
                                 counters: map<Tag, int>, step: Step, paramType: Tag, index: int)
    requires ResolveParams(EnvOf(config, assignable, st), step.name, step.params, counters).Ok?
    requires step.invoke(ResolveParams(EnvOf(config, assignable, st), step.name, step.params, counters).value.args) == []
    requires step.name !in st.outputs
    ensures var after := StepEffect(config, assignable, st, counters, step).value;
      ResolveFromFunctionOutput(after.outputs, assignable, paramType, step.name, index) == Err(IndexOutOfRange)
  {
    StepAppends(config, assignable, st, counters, step);
  }

  /** Once a run has failed, the steps after the failing one change nothing. */
  lemma {:induction false} FailFast(config: PipelineConfig, assignable: (Tag, Tag) -> bool, st: State,
                                    steps: seq<Step>, i: nat)
    requires i <= |steps|
    requires RunSteps(config, assignable, st, steps[..i]).failure.Some?
    ensures RunSteps(config, assignable, st, steps) == RunSteps(config, assignable, st, steps[..i])
  {
    if i < |steps| {
      var init := steps[..|steps| - 1];
      assert init[..i] == steps[..i];
      FailFast(config, assignable, st, init, i);
    } else {
      assert steps[..i] == steps;
    }
  }

  /** Step `i` is where the run fails: every step before it succeeded, its own resolution
      failed, and the run ends in the state reached before it, with that error. */
  ghost predicate FailsAt(config: PipelineConfig, assignable: (Tag, Tag) -> bool, st: State, steps: seq<Step>, i: int) {
    && 0 <= i < |steps|
    && var before := RunSteps(config, assignable, st, steps[..i]);
    && before.failure.None?
    && StepEffect(config, assignable, before.state, map[], steps[i]).Err?
    && RunSteps(config, assignable, st, steps)
       == Outcome(before.state, Some(StepEffect(config, assignable, before.state, map[], steps[i]).error))
  }

  /** A failed run failed at one particular step, and nothing after it ran. */
  lemma {:induction false} FailureAt(config: PipelineConfig, assignable: (Tag, Tag) -> bool, st: State, steps: seq<Step>)
    requires RunSteps(config, assignable, st, steps).failure.Some?
    ensures exists i :: FailsAt(config, assignable, st, steps, i)
  {
    var init := steps[..|steps| - 1];
    var before := RunSteps(config, assignable, st, init);
    if before.failure.Some? {
      FailureAt(config, assignable, st, init);
      var i :| FailsAt(config, assignable, st, init, i);
      assert init[..i] == steps[..i];
      assert init[i] == steps[i];
      assert FailsAt(config, assignable, st, steps, i);
    } else {
      assert steps[..|steps| - 1] == init;
      assert FailsAt(config, assignable, st, steps, |steps| - 1);
    }
  }

  /** A run never touches the initial inputs, and only appends: to every bucket of the
      store and to every entry of the output log. */
  lemma {:induction false} RunAppendsOnly(config: PipelineConfig, assignable: (Tag, Tag) -> bool, st: State, steps: seq<Step>)
    ensures var after := RunSteps(config, assignable, st, steps).state;
      && after.initial == st.initial
      && (forall t :: Bucket(st.values, t) <= Bucket(after.values, t))
      && (forall n :: n in st.outputs ==> n in after.outputs && st.outputs[n] <= after.outputs[n])
  {
    if steps != [] {
      var init := steps[..|steps| - 1];
      RunAppendsOnly(config, assignable, st, init);
      var before := RunSteps(config, assignable, st, init);
      if before.failure.None? {
        var step := steps[|steps| - 1];
        var env := EnvOf(config, assignable, before.state);
        if ResolveParams(env, step.name, step.params, map[]).Ok? {
          StepAppends(config, assignable, before.state, map[], step);
        }
      }
    }
  }

  /** Every bucket stays non-empty and homogeneous across a run. */
  lemma {:induction false} RunWellFormed(config: PipelineConfig, assignable: (Tag, Tag) -> bool, st: State, steps: seq<Step>)
    requires WellFormed(st.values)
    ensures WellFormed(RunSteps(config, assignable, st, steps).state.values)
  {
    if steps != [] {
      var init := steps[..|steps| - 1];
      RunWellFormed(config, assignable, st, init);
      var before := RunSteps(config, assignable, st, init);
      if before.failure.None? {
        var step := steps[|steps| - 1];
        var env := EnvOf(config, assignable, before.state);
        if ResolveParams(env, step.name, step.params, map[]).Ok? {
          StoredAllWellFormed(before.state.values, step.invoke(ResolveParams(env, step.name, step.params, map[]).value.args));
        }
      }
    }
  }

  /** An output a FunctionOutput binding can read stays readable, with the same value, by
      every later step. */
  lemma OutputBindingStable(config: PipelineConfig, assignable: (Tag, Tag) -> bool, st: State, steps: seq<Step>,
                            paramType: Tag, name: string, index: int)
    requires ResolveFromFunctionOutput(st.outputs, assignable, paramType, name, index).Ok?
    ensures ResolveFromFunctionOutput(RunSteps(config, assignable, st, steps).state.outputs, assignable, paramType, name, index)
         == ResolveFromFunctionOutput(st.outputs, assignable, paramType, name, index)
  {
    RunAppendsOnly(config, assignable, st, steps);
    var after := RunSteps(config, assignable, st, steps).state;
    assert st.outputs[name][index] == after.outputs[name][index];
  }

  /** The default configuration changes nothing about the order, reports every step and
      resolves every parameter by default. */
  lemma DefaultConfigIsNeutral(steps: seq<Step>, outputs: map<string, seq<Value>>, stepName: string, i: nat)
    ensures Reordered(steps, NewPipelineConfig().stepOrder) == steps
    ensures Filtered(outputs, NewPipelineConfig().outputFilter) == outputs
    ensures UsesDefault(NewPipelineConfig(), stepName, i)
  {
  }

  /** A zero-valued binding is resolved exactly as if there were no binding. */
  lemma ZeroBindingIsDefault(env: Env, counters: map<Tag, int>, paramType: Tag)
    ensures BoundPick(env, counters, paramType, ZeroBinding())
         == DefaultPick(env.config.missingArgPolicy, env.values, counters, paramType)
  {
  }

  /** The producer of the two-step example: no parameters, one string result. */
  function Producer(hello: Payload): Step {
    Step("Step1", [], (args: seq<Value>) => [Value("string", hello)])
  }

  /** The consumer of the two-step example: one string parameter, and a result only when
      it is handed the string `a`. */
  function Consumer(a: Payload, one: Payload): Step {
    Step("Step2", ["string"], (args: seq<Value>) => if args == [Value("string", a)] then [Value("int", one)] else [])
  }

  /** A step without parameters needs nothing from the store: it always runs, and its
      results are appended to the store and to its log entry. */
  lemma ParameterlessStepRuns(config: PipelineConfig, assignable: (Tag, Tag) -> bool, st: State,
                              counters: map<Tag, int>, s: Step)
    requires s.params == []
    ensures StepEffect(config, assignable, st, counters, s)
         == Ok(State(StoredAll(st.values, s.invoke([])), st.initial,
                     st.outputs[s.name := Recorded(st.outputs, s.name) + s.invoke([])]))
  {
    assert ResolveParams(EnvOf(config, assignable, st), s.name, s.params, counters) == Ok(Resolution([], counters));
  }

  /** The example's producer is such a step, and logs its one string. */
  lemma ProducerRuns(config: PipelineConfig, assignable: (Tag, Tag) -> bool, st: State, hello: Payload)
    ensures StepEffect(config, assignable, st, map[], Producer(hello))
         == Ok(State(StoredAll(st.values, [Value("string", hello)]), st.initial,
                     st.outputs["Step1" := Recorded(st.outputs, "Step1") + [Value("string", hello)]]))
  {
    ParameterlessStepRuns(config, assignable, st, map[], Producer(hello));
  }

  /** Under UseLatest, the consumer's string parameter gets the first stored string. */
  lemma ConsumerGetsFirstString(config: PipelineConfig, assignable: (Tag, Tag) -> bool, st: State, a: Payload, one: Payload)
    requires config == NewPipelineConfig()
    requires |Bucket(st.values, "string")| > 0 && Bucket(st.values, "string")[0] == Value("string", a)
    ensures StepEffect(config, assignable, st, map[], Consumer(a, one))
         == Ok(State(StoredAll(st.values, [Value("int", one)]), st.initial,
                     st.outputs["Step2" := Recorded(st.outputs, "Step2") + [Value("int", one)]]))
  {
    var env := EnvOf(config, assignable, st);
    var params: seq<Tag> := ["string"];
    var arg := Value("string", a);
    assert params[..0] == [] && params[..1] == params;
    assert ResolveParams(env, "Step2", params[..0], map[]) == Ok(Resolution([], map[]));
    ResolveOneMore(env, "Step2", params, map[], 0);
    assert ParamPick(env, map[], "Step2", 0, "string").Ok?;
    assert ParamPick(env, map[], "Step2", 0, "string").value.value == arg;
    assert [] + [arg] == [arg];
    assert ResolveParams(env, "Step2", params, map[]).value.args == [arg];
    assert Consumer(a, one).invoke([Value("string", a)]) == [Value("int", one)];
  }

  /** A two-step run with the default configuration and the string inputs `a`, `b`: the
      consumer gets the first input (not the producer's later string output), the string
      bucket ends as the inputs followed by the produced string, and both steps are reported. */
  lemma {:induction false} FirstStringGoesToConsumer(a: Payload, b: Payload, hello: Payload, one: Payload,
                                                     assignable: (Tag, Tag) -> bool)
    ensures var inputs := [Value("string", a), Value("string", b)];
      var o := RunSteps(NewPipelineConfig(), assignable, State(StoredAll(map[], inputs), inputs, map[]),
                        [Producer(hello), Consumer(a, one)]);
      && o.failure == None
      && Bucket(o.state.values, "string") == [Value("string", a), Value("string", b), Value("string", hello)]
      && o.state.outputs == map["Step1" := [Value("string", hello)], "Step2" := [Value("int", one)]]
  {
    var inputs := [Value("string", a), Value("string", b)];
    var config := NewPipelineConfig();
    var steps := [Producer(hello), Consumer(a, one)];
    var str, num := Value("string", hello), Value("int", one);
    var st0 := State(StoredAll(map[], inputs), inputs, map[]);
    var st1 := State(StoredAll(st0.values, [str]), inputs, map[]["Step1" := [str]]);
    var st2 := State(StoredAll(st1.values, [num]), inputs, st1.outputs["Step2" := [num]]);
    // The first step.
    RunOneMore(config, assignable, st0, steps, 0);
    assert steps[..0] == [];
    ProducerRuns(config, assignable, st0, hello);
    FirstEntry(st0.outputs, "Step1", [str]);
    assert RunSteps(config, assignable, st0, steps[..1]) == Outcome(st1, None);
    // The second step.
    ExampleStrings(a, b, hello, one);
    ConsumerGetsFirstString(config, assignable, st1, a, one);
    assert "Step2" != "Step1" by { assert "Step2"[4] != "Step1"[4]; }
    FirstEntry(st1.outputs, "Step2", [num]);
    RunOneMore(config, assignable, st0, steps, 1);
    assert steps[..2] == steps;
  }

  /** The string bucket of the two-step example, before the consumer runs and at the end. */
  lemma ExampleStrings(a: Payload, b: Payload, hello: Payload, one: Payload)
    ensures var inputs := [Value("string", a), Value("string", b)];
      var before := StoredAll(StoredAll(map[], inputs), [Value("string", hello)]);
      && Bucket(before, "string") == inputs + [Value("string", hello)]
      && Bucket(StoredAll(before, [Value("int", one)]), "string") == inputs + [Value("string", hello)]
  {
    var inputs := [Value("string", a), Value("string", b)];
    var start := StoredAll(map[], inputs);
    StoredAllBucket(map[], inputs, "string");
    assert inputs[..1] == [Value("string", a)];
    StoredAllBucket(start, [Value("string", hello)], "string");
    StoredAllBucket(StoredAll(start, [Value("string", hello)]), [Value("int", one)], "string");
  }

  /** Appending to a step that has no entry yet creates the entry. */
  lemma FirstEntry(outputs: map<string, seq<Value>>, name: string, vs: seq<Value>)
    requires name !in outputs
    ensures outputs[name := Recorded(outputs, name) + vs] == outputs[name := vs]
  {
    assert Recorded(outputs, name) + vs == vs;
  }

  /** How a method's result and counters relate to the pick it is specified by. */
  ghost predicate PickedAs(r: Result<Value>, counters: map<Tag, int>, p: Result<Pick>, before: map<Tag, int>) {
    match p
    case Ok(pick) => r == Ok(pick.value) && counters == pick.counters
    case Err(e) => r == Err(e) && counters == before
  }

  class Pipeline {
    var steps: seq<Step>
    const context: ExecutionContext
    const config: PipelineConfig
    const assignable: (Tag, Tag) -> bool
    var stepOutputs: map<string, seq<Value>>
    var pickCounters: map<Tag, int>

    ghost predicate Valid()
      reads this, context
    {
      context.Valid()
    }

    /** The part of the pipeline a run changes. */
    ghost function Snapshot(): State
      reads this, context
    {
      State(context.values, context.initialValues, stepOutputs)
    }

    ghost function CurrentEnv(): Env
      reads this, context
    {
      EnvOf(config, assignable, Snapshot())
    }

    /** NewPipeline: a missing configuration is replaced by the default one; no steps, an
        empty store, an empty output log. */
    constructor (config: Option<PipelineConfig>, assignable: (Tag, Tag) -> bool)
      ensures Valid() && fresh(context)
      ensures this.config == if config.Some? then config.value else NewPipelineConfig()
      ensures this.assignable == assignable
      ensures steps == [] && stepOutputs == map[] && pickCounters == map[]
      ensures context.values == map[] && context.initialValues == []
    {
      this.config := if config.Some? then config.value else NewPipelineConfig();
      this.assignable := assignable;
      steps := [];
      context := new ExecutionContext();
      stepOutputs := map[];
      pickCounters := map[];
    }

    /** Registers a step after the ones already registered; names are not checked. */
    method AddStep(name: string, params: seq<Tag>, invoke: seq<Value> -> seq<Value>)
      modifies this`steps
      ensures steps == old(steps) + [Step(name, params, invoke)]
    {
      steps := steps + [Step(name, params, invoke)];
    }

    /** Adds initial inputs to the store, in order. */
    method AddInitialInputs(inputs: seq<Value>)
      requires Valid()
      modifies context
      ensures Valid()
      ensures context.values == StoredAll(old(context.values), inputs)
      ensures context.initialValues == old(context.initialValues) + inputs
    {
      context.AddInputs(inputs);
    }

    /** Orders the steps, runs them until the first error and returns either that error or
        the filtered output log. The store and the log keep what the successful steps added. */
    method Execute() returns (r: Result<map<string, seq<Value>>>)
      requires Valid()
      modifies this, context
      ensures Valid()
      ensures steps == Reordered(old(steps), config.stepOrder)
      ensures var o := RunSteps(config, assignable, old(Snapshot()), steps);
        && Snapshot() == o.state
        && r == if o.failure.Some? then Err(o.failure.value) else Ok(Filtered(o.state.outputs, config.outputFilter))
    {
      ReorderStepsIfNeeded();
      ghost var start := Snapshot();
      var toRun := steps;
      for i := 0 to |toRun|
        invariant Valid()
        invariant RunSteps(config, assignable, start, toRun[..i]) == Outcome(Snapshot(), None)
        modifies this`stepOutputs, this`pickCounters, context
      {
        // Pick counters are reset for every step.
        pickCounters := map[];
        var err := ExecuteStep(toRun[i]);
        RunOneMore(config, assignable, start, toRun, i);
        if err.Some? {
          FailFast(config, assignable, start, toRun, i + 1);
          return Err(err.value);
        }
      }
      assert toRun[..|toRun|] == toRun;
      var finalOutputs := FilterOutputs();
      return Ok(finalOutputs);
    }

    /** Rewrites the steps according to the configured order (see Steps.Reordered). */
    method ReorderStepsIfNeeded()
      modifies this`steps
      ensures steps == Reordered(old(steps), config.stepOrder)
    {
      var order := config.stepOrder;
      if |order| == 0 {
        return;
      }
      var registered := steps;
      // The last registered step of each name.
      var stepMap: map<string, Step> := map[];
      for i := 0 to |registered|
        invariant forall n :: LastNamed(registered[..i], n) == if n in stepMap then Some(stepMap[n]) else None
      {
        assert registered[..i + 1][..i] == registered[..i];
        stepMap := stepMap[registered[i].name := registered[i]];
      }
      assert registered[..|registered|] == registered;
      assert forall n :: n in stepMap <==> LastNamed(registered, n).Some?;
      var used: set<string> := {};
      var ordered: seq<Step> := [];
      for j := 0 to |order|
        invariant ordered == Listed(registered, order[..j])
        invariant forall n :: n in used <==> n in order[..j] && n in stepMap
      {
        assert order[..j + 1][..j] == order[..j];
        assert order[..j + 1] == order[..j] + [order[j]];
        var desiredName := order[j];
        if desiredName in stepMap {
          ordered := ordered + [stepMap[desiredName]];
          used := used + {desiredName};
        }
      }
      assert order[..|order|] == order;
      for i := 0 to |registered|
        invariant ordered == Listed(registered, order) + Unlisted(registered[..i], order)
      {
        assert registered[..i + 1][..i] == registered[..i];
        ghost var name := registered[i].name;
        LastNamedIsLast(registered, name);
        assert name in used <==> name in order;
        if registered[i].name !in used {
          ordered := ordered + [registered[i]];
        }
      }
      assert registered[..|registered|] == registered;
      steps := ordered;
    }

    /** Resolves the step's parameters left to right; on the first error returns it with the
        store and the log untouched, otherwise invokes the step and records its results. */
    method ExecuteStep(step: Step) returns (err: Option<ErrorKind>)
      requires Valid()
      modifies this`stepOutputs, this`pickCounters, context
      ensures Valid()
      ensures match StepEffect(config, assignable, old(Snapshot()), old(pickCounters), step)
        case Err(e) => err == Some(e) && Snapshot() == old(Snapshot())
        case Ok(after) =>
          err == None && Snapshot() == after &&
          pickCounters == ResolveParams(EnvOf(config, assignable, old(Snapshot())), step.name, step.params,
                                        old(pickCounters)).value.counters
    {
      var hasStepCfg := step.name in config.stepConfigs;
      var bindings: seq<Option<ArgBinding>> := if hasStepCfg then config.stepConfigs[step.name].argBindings else [];
      ghost var env := CurrentEnv();
      var args: seq<Value> := [];
      for i := 0 to |step.params|
        invariant CurrentEnv() == env
        invariant ResolveParams(env, step.name, step.params[..i], old(pickCounters)) == Ok(Resolution(args, pickCounters))
        modifies this`pickCounters
      {
        ghost var before := pickCounters;
        ResolveOneMore(env, step.name, step.params, old(pickCounters), i);
        var argVal: Result<Value>;
        if hasStepCfg && i < |bindings| && bindings[i].Some? {
          argVal := ResolveArg(step, step.params[i], bindings[i].value);
        } else {
          argVal := ResolveArgDefault(step, step.params[i]);
        }
        assert PickedAs(argVal, pickCounters, ParamPick(env, before, step.name, i, step.params[i]), before);
        if argVal.Err? {
          ResolveErrStops(env, step.name, step.params, old(pickCounters), i + 1);
          return Some(argVal.error);
        }
        args := args + [argVal.value];
      }
      assert step.params[..|step.params|] == step.params;
      var results := step.invoke(args);
      context.StoreResults(results);
      stepOutputs := stepOutputs[step.name := Recorded(stepOutputs, step.name) + results];
      return None;
    }

    /** resolveArg: an Initial or FunctionOutput binding is looked up; any other source,
        the Default one included, falls back to default resolution. */
    method ResolveArg(step: Step, paramType: Tag, binding: ArgBinding) returns (r: Result<Value>)
      modifies this`pickCounters
      ensures PickedAs(r, pickCounters, BoundPick(CurrentEnv(), old(pickCounters), paramType, binding), old(pickCounters))
    {
      if binding.source == SourceInitial {
        r := ResolveFromInitial(context.InitialValues(), assignable, paramType, binding.index);
      } else if binding.source == SourceFunctionOutput {
        r := ResolveFromFunctionOutput(stepOutputs, assignable, paramType, binding.name, binding.index);
      } else {
        r := ResolveArgDefault(step, paramType);
      }
    }

    /** resolveArgDefault: applies the missing-argument policy, advancing the pick counter
        of the parameter's type under UseLatest. */
    method ResolveArgDefault(step: Step, paramType: Tag) returns (r: Result<Value>)
      modifies this`pickCounters
      ensures PickedAs(r, pickCounters,
                       DefaultPick(config.missingArgPolicy, context.values, old(pickCounters), paramType), old(pickCounters))
    {
      if config.missingArgPolicy == UseLatest {
        var idx := if paramType in pickCounters then pickCounters[paramType] else 0;
        var val := ValueByIndex(context.values, paramType, idx);
        if val.Err? {
          return Err(val.error);
        }
        var vals := Bucket(context.values, paramType);
        if idx < |vals| - 1 {
          pickCounters := pickCounters[paramType := idx + 1];
        }
        return Ok(val.value);
      } else if config.missingArgPolicy == Fail {
        return Err(MissingArgument);
      } else {
        return Err(UnknownPolicy);
      }
    }

    /** filterOutputs: the whole log when no filter is configured, else the filtered entries. */
    method FilterOutputs() returns (r: map<string, seq<Value>>)
      ensures r == Filtered(stepOutputs, config.outputFilter)
    {
      if |config.outputFilter| == 0 {
        return stepOutputs;
      }
      var selected: map<string, seq<Value>> := map[];
      var filterSet: set<string> := {};
      for j := 0 to |config.outputFilter|
        invariant forall n :: n in filterSet <==> n in config.outputFilter[..j]
      {
        assert config.outputFilter[..j + 1] == config.outputFilter[..j] + [config.outputFilter[j]];
        filterSet := filterSet + {config.outputFilter[j]};
      }
      assert config.outputFilter[..|config.outputFilter|] == config.outputFilter;
      var pending := stepOutputs.Keys;
      while pending != {}
        invariant pending <= stepOutputs.Keys
        invariant forall n :: n in selected <==> n in stepOutputs && n !in pending && n in filterSet
        invariant forall n :: n in selected ==> selected[n] == stepOutputs[n]
        decreases pending
      {
        var stepName :| stepName in pending;
        if stepName in filterSet {
          selected := selected[stepName := stepOutputs[stepName]];
        }
        pending := pending - {stepName};
      }
      return selected;
    }
  }
}
