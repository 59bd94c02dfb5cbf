# go-pipeline argument-resolution engine in Dafny

This project models the core of the `pipeline` package of go-pipeline. A pipeline runs
registered steps (named callables) one after the other. Each parameter of a step is filled
from a typed value store, which holds the initial inputs and every result produced so far.
Parameters are resolved in one of two ways:

- by an explicit per-parameter binding, which names an initial input or another step's
  output by index;
- by a missing-argument policy. `UseLatest` hands out the values of the parameter's type
  in order; `Fail` refuses.

A configured order may rearrange the steps before the run. The run stops at the first
step that cannot be resolved. On success it reports the per-step output log, optionally
restricted to a set of step names.

Reflection is abstracted away:

- A runtime value is a `Value(tag, payload)`. The tag stands for the Go `reflect.Type`,
  and the payload is an abstract type the engine never inspects.
- A step carries its declared parameter tags and an uninterpreted function `invoke` from
  arguments to results.
- Go's `AssignableTo` is a relation `assignable(from, to)` given to the pipeline when it is
  built. Lemmas that need it to be reflexive say so in their preconditions.
- Errors are a datatype of kinds (`Errors.ErrorKind`), not formatted messages.

Modules, following the package's files:

| module | file | form |
|---|---|---|
| `Errors` | errors.dfy | error kinds, `Result`, `Option` |
| `Context` | context.dfy | bucket functions and the class `ExecutionContext` with its appending methods |
| `Config` | config.dfy | configuration datatypes, policy and source constants, `NewPipelineConfig` |
| `Steps` | steps.dfy | the `Step` record and the reordering rule as functions, with its lemmas |
| `Resolver` | resolver.dfy | the `resolveArg*` family and the parameter loop as functions of the state they read |
| `Engine` | engine.dfy | one step and a whole run as functions, output filtering, and the class `Pipeline` whose methods are proved against them |

The imperative operations (`Execute`, `reorderStepsIfNeeded`, `executeStep`,
`resolveArgDefault`, `filterOutputs`, `AddInputs`, `StoreResults`, `storeValue`) are
methods of the two classes. Those that loop in the source (all but `resolveArgDefault` and
`storeValue`) have loops with invariants. Each method's postcondition ties its new state or its result to a
specification function. The properties the source promises are proved as lemmas about
those functions.

## Model

| member | source | states |
|---|---|---|
| Context.ValueByIndex | pipeline/context.go:48-61 | errors with NotFound exactly when the type has no bucket or an empty one; otherwise errors with InvalidIndex exactly when the index is negative; returns the indexed value when in range and the last value when the index is past the end |
| Context.StoredAllBucket | pipeline/context.go:21-36 | after appending a sequence of values, each bucket is its old contents followed by exactly the appended values of its type, in order |
| Context.StoredBucket | pipeline/context.go:63-67 | storing one value extends its own type's bucket by that value and leaves every other bucket unchanged |
| Context.Stored | pipeline/context.go:63-67 | reference definition: the store after appending one value to the bucket of its type |
| Context.StoredAll | pipeline/context.go:21-36 | reference definition: the store after appending values one at a time, in order |
| Context.OfTag | pipeline/context.go:26 | the values of a sequence with a given type, in order: no more of them than in the sequence, and every one of that type |
| Context.OfTagHas | pipeline/context.go:26 | every appended value lands in the bucket of its own type |
| Context.StoredAllWellFormed | pipeline/context.go:21-36 | appending keeps every bucket non-empty and holding only values of its own type |
| Context.ValueByIndexStable | pipeline/context.go:48-67 | an index that was in range keeps designating the same value however many values are stored later |
| Context.ValueByIndexTyped | pipeline/context.go:48-61 | in a well-formed store, a successful lookup returns a value of the requested type |
| Context.ExecutionContext.InitialValues | pipeline/context.go:43-46 | returns exactly the initial inputs; in a valid context each of them is also in the bucket of its type |
| Context.ExecutionContext.constructor | pipeline/context.go:13-19 | the new context has no buckets and no initial inputs |
| Context.ExecutionContext.AddInputs | pipeline/context.go:21-29 | the store becomes the old store with the inputs appended in call order, the initial inputs become the old ones followed by the inputs, and validity is kept |
| Context.ExecutionContext.StoreResults | pipeline/context.go:31-36 | the store becomes the old store with the results appended in order; the initial inputs are unchanged |
| Context.ExecutionContext.StoreValue | pipeline/context.go:63-67 | the value is appended to the bucket of its type; nothing else changes |
| Config.ZeroBinding | pipeline/config.go:12-22 | a zero-valued binding has the Default source |
| Config.NewPipelineConfig | pipeline/config.go:38-45 | the default configuration has the UseLatest policy, no step order, no output filter and no per-step bindings |
| Steps.LastNamed | pipeline/pipeline.go:103-106 | reference definition: the step the name-keyed map holds for a name, the last registered one |
| Steps.Listed | pipeline/pipeline.go:112-120 | reference definition: the steps the configured order places, one per occurrence of a known name |
| Steps.Skipped | pipeline/pipeline.go:112-116 | reference definition: the configured names that draw the unknown-step warning |
| Steps.Unlisted | pipeline/pipeline.go:123-127 | reference definition: the registered steps whose name the configured order omits, in registration order |
| Steps.Reordered | pipeline/pipeline.go:96-131 | reference definition: the registered steps unchanged for an empty order, otherwise the listed steps followed by the unlisted ones |
| Steps.LastNamedIsLast | pipeline/pipeline.go:103-106 | the name-keyed step map yields a step exactly when some registered step has the name; the step it yields has that name and is registered after every other step of that name |
| Steps.ListedOrSkipped | pipeline/pipeline.go:112-120 | every configured name either contributes one step to the ordered prefix or is skipped with a warning; a name is skipped exactly when it is configured and no registered step carries it |
| Steps.ListedAreLast | pipeline/pipeline.go:103-120 | each step of the ordered prefix has a configured name and is the last registered step of that name |
| Steps.ListedHas | pipeline/pipeline.go:112-120 | a configured name that names a registered step puts that name's last registered step into the ordered prefix |
| Steps.ListedNames | pipeline/pipeline.go:112-120 | the ordered prefix names exactly the configured names that are registered |
| Steps.UnlistedNames | pipeline/pipeline.go:123-127 | the remainder names exactly the registered names the configured order omits, so every step sharing a listed name is dropped from it |
| Steps.ReorderedKeepsNames | pipeline/pipeline.go:96-131 | reordering neither loses nor invents a step name |
| Steps.LastNamedHasName | pipeline/pipeline.go:103-106 | the step found for a name carries that name |
| Steps.ListedOncePerOccurrence | pipeline/pipeline.go:112-120 | the last registered step of a name occurs in the ordered prefix exactly as often as the name occurs in the configured order, repetitions included |
| Resolver.ResolveFromInitial | pipeline/pipeline.go:212-224 | succeeds exactly when the index is within the initial inputs and that input is assignable to the parameter type, and then returns that input; otherwise IndexOutOfRange or TypeMismatch |
| Resolver.ResolveFromFunctionOutput | pipeline/pipeline.go:226-242 | UnknownProducer when the step has no log entry, IndexOutOfRange outside the entry, TypeMismatch when not assignable, otherwise exactly the logged output |
| Resolver.DefaultPick | pipeline/pipeline.go:188-210 | Fail always errors with MissingArgument and any unknown policy with UnknownPolicy; UseLatest errors with NotFound on an empty bucket and with InvalidIndex on a negative counter, and otherwise succeeds; returns the value at the counter clamped to the last index, advances only that type's counter and only while it is below the last index |
| Resolver.BoundPick | pipeline/pipeline.go:175-186 | an Initial or FunctionOutput binding is looked up, and a successful lookup leaves the counters unchanged; the Default source and unrecognised sources fall back to default resolution |
| Resolver.BindingAt | pipeline/pipeline.go:139-150 | a binding applies exactly when the step is configured, the index is inside its binding list and the entry is non-nil |
| Resolver.ParamPick | pipeline/pipeline.go:150-154 | a parameter without an applicable binding, or with a Default-source one, is resolved by the policy; an explicit lookup leaves the counters alone |
| Resolver.ResolveParams | pipeline/pipeline.go:145-160 | on success there is one argument per parameter |
| Resolver.ResolveOneMore | pipeline/pipeline.go:145-160 | parameters resolve left to right: a successful prefix is extended by the next parameter's pick, or ends with its error |
| Resolver.ResolveErrStops | pipeline/pipeline.go:156-158 | once a parameter fails, the parameters after it are never looked at and the step fails with that error |
| Resolver.ResolvedArg | pipeline/pipeline.go:145-160 | argument j is what parameter j resolves to after the parameters before it |
| Resolver.UseLatestCounter | pipeline/pipeline.go:190-201 | under UseLatest, a type's counter after a parameter list is the number of its default-resolved parameters, held at the bucket's last index |
| Resolver.UseLatestArg | pipeline/pipeline.go:188-201 | with counters reset, the j-th default-resolved parameter of type T gets T's bucket value at min(j, len - 1) |
| Resolver.NoDefaultsUnlessUseLatest | pipeline/pipeline.go:203-208 | under any policy other than UseLatest, a step resolves only if none of its parameters needs default resolution, whatever the store holds |
| Resolver.FailPolicyMissingArgument | pipeline/pipeline.go:145-158 | under Fail, once the parameters before it have resolved, the first parameter that needs default resolution ends the step with MissingArgument |
| Resolver.ArgsFitParams | pipeline/pipeline.go:188-242 | resolved arguments fit their parameters: bound ones are assignable, default-resolved ones have exactly the parameter's type (lookup is by exact type) |
| Engine.Advance | pipeline/pipeline.go:77-87 | reference definition: one more step of a run, with fresh pick counters, unless the run already failed |
| Engine.RunSteps | pipeline/pipeline.go:77-87 | reference definition: the steps run in order from a state, stopping at the first error |
| Engine.StepEffect | pipeline/pipeline.go:133-173 | a step succeeds exactly when all its parameters resolve, and otherwise fails with the first resolution error |
| Engine.RunOneMore | pipeline/pipeline.go:77-87 | a run over one more step continues the run so far with that step |
| Engine.Filtered | pipeline/pipeline.go:244-259 | an empty filter returns the log unchanged; otherwise the keys are exactly the filtered names that have an entry, each with its logged outputs |
| Engine.FilteredIdempotent | pipeline/pipeline.go:244-259 | filtering twice by the same names is filtering once |
| Engine.StepAppends | pipeline/pipeline.go:162-169 | a successful step appends its results, in order, to the bucket of each result's type and to its own log entry; other entries and the initial inputs are unchanged |
| Engine.EmptyStepIsKnownProducer | pipeline/pipeline.go:162-169 | a step with no results still gets a log entry, so a later FunctionOutput binding to it fails with IndexOutOfRange, not UnknownProducer |
| Engine.FailFast | pipeline/pipeline.go:83-86 | after a failing step, the remaining steps change nothing |
| Engine.FailureAt | pipeline/pipeline.go:77-87 | a failed run failed at one step: every earlier step succeeded, and the run ends in the state before it, with its error |
| Engine.RunAppendsOnly | pipeline/pipeline.go:162-169 | a run leaves the initial inputs alone and only appends to store buckets and log entries |
| Engine.RunWellFormed | pipeline/pipeline.go:162-163 | every bucket stays non-empty and homogeneous across a run |
| Engine.OutputBindingStable | pipeline/pipeline.go:226-242 | an output a FunctionOutput binding can read stays readable, with the same value, for every later step |
| Engine.DefaultConfigIsNeutral | pipeline/config.go:38-45 | with the default configuration, reordering is the identity, filtering returns the whole log and every parameter uses default resolution |
| Engine.ZeroBindingIsDefault | pipeline/config.go:12-22 | a zero-valued binding resolves exactly as if there were no binding |
| Engine.ParameterlessStepRuns | pipeline/pipeline.go:145-169 | a step without parameters always runs, whatever the configuration and counters, and its results are appended to the store and to its log entry |
| Engine.ProducerRuns | pipeline/pipeline.go:145-169 | the example's producer is such a step: it runs and its one string is stored and logged under its name |
| Engine.ConsumerGetsFirstString | pipeline/pipeline.go:188-201 | with fresh counters under UseLatest, a single string parameter gets the first stored string whenever one is stored |
| Engine.FirstStringGoesToConsumer | pipeline/pipeline.go:72-93 | in a two-step run with two string inputs, the consumer gets the first input rather than the producer's later string output, and both steps are reported |
| Engine.Pipeline.constructor | pipeline/pipeline.go:35-50 | a missing configuration is replaced by the default one; the new pipeline has no steps, an empty store, an empty log and no counters |
| Engine.Pipeline.AddStep | pipeline/pipeline.go:62-65 | the step is appended after the registered ones |
| Engine.Pipeline.AddInitialInputs | pipeline/pipeline.go:67-70 | the inputs are appended to the store and to the initial inputs |
| Engine.Pipeline.Execute | pipeline/pipeline.go:72-93 | the steps are reordered; the store and log end in the state of the fail-fast run of the reordered steps from the old state, with counters reset per step; the result is the first error, or else the filtered log |
| Engine.Pipeline.ReorderStepsIfNeeded | pipeline/pipeline.go:96-131 | the steps become `Reordered` of the old steps: unchanged for an empty order, else the last registered step of each known configured name (once per occurrence), then the unlisted steps in registration order |
| Engine.Pipeline.ExecuteStep | pipeline/pipeline.go:133-173 | on a resolution error, returns it and leaves store and log unchanged; otherwise the store and log become the step's effect and the pick counters are those its argument resolution left |
| Engine.Pipeline.ResolveArg | pipeline/pipeline.go:175-186 | result and counters are those of the binding's pick |
| Engine.Pipeline.ResolveArgDefault | pipeline/pipeline.go:188-210 | result and counters are those of the policy's pick; an error leaves the counters unchanged |
| Engine.Pipeline.FilterOutputs | pipeline/pipeline.go:244-259 | returns the log filtered by the configured names |

## Left out

- Logging (logrus): the global logger, `SetGlobalLogger`, `SetLogger`, `SetLogLevel`, the logger parameter of `NewPipeline` and every log call. The unknown-name warning of the reordering appears only as the function `Steps.Skipped`.
- main.go, a demonstration program that does console output.
- Reflection. `reflect.ValueOf(...).Call`, `NumIn` and `In(i)` become a step's declared parameter tags and its `invoke` function. Go's assignability rules become the `assignable` relation.
- Declared versus dynamic types. Go keys the store by the type of each result as returned by the call, but a FunctionOutput binding checks the dynamic type of the logged value. The model gives each value a single tag, so the two agree.
- Panics and nil values. The model has no nil configuration entry and no nil value, so it leaves out three Go behaviours:
  - A nil `*StepConfig` in the step-config map makes `executeStep` panic (pipeline/pipeline.go:139-142).
  - A nil initial input makes `AddInputs` panic when it asks for the input's type (pipeline/context.go:24-25).
  - A step may return a nil value of an interface type. Go stores it under that declared interface type (pipeline/context.go:65-66), and default resolution can hand it to a later step. Its log entry holds a plain nil (pipeline/pipeline.go:167), so a FunctionOutput binding that reads it panics when it asks for the value's type (pipeline/pipeline.go:236-237). In the model every value has a tag, so that read goes through the assignability check instead.
- Error messages. Errors are kinds, without the formatted text or the `%w` wrapping.
- `Values()` (pipeline/context.go:38-41), an accessor nothing in the core calls.
- Aliasing. With an empty filter Go returns the pipeline's own output map; the model returns an equal map value. `NewPipeline` keeps the caller's configuration pointer; the model holds the configuration as an immutable value.
- Go map iteration order in `filterOutputs`. The result is a map, so the order does not matter.
- Engine.Pipeline.Execute: does not state the pick counters left after a run; only their per-step reset matters to the result.
- Integer width. Indices and counters are unbounded integers. A Go `int` counter could only overflow after more picks than fit in memory.
