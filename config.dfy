/** The declarative configuration of a pipeline (pipeline/config.go). */
module Config {
  import opened Errors

  /** The missing-argument policy is a plain integer in the source, so values other than
      the two named constants can occur; resolution reports them as an unknown policy. */
  type MissingArgPolicy = int

  /** The zero value of the policy type, hence the policy of a zero-valued configuration. */
  const UseLatest: MissingArgPolicy := 0
  const Fail: MissingArgPolicy := 1

  /** Where an explicitly bound argument comes from; also a plain integer. */
  type ArgSourceType = int

  /** The zero value of the source type: a zero-valued binding asks for default resolution. */
  const SourceDefault: ArgSourceType := 0
  const SourceInitial: ArgSourceType := 1
  const SourceFunctionOutput: ArgSourceType := 2

  /** How to fill one parameter: `name` is read only for a FunctionOutput source, and
      `index` is a position in the initial inputs or in the named step's outputs. */
  datatype ArgBinding = ArgBinding(source: ArgSourceType, name: string, index: int)

  /** Bindings aligned with a step's parameters; `None` (a nil pointer) means default. */
  datatype StepConfig = StepConfig(argBindings: seq<Option<ArgBinding>>)

  datatype PipelineConfig = PipelineConfig(
    stepOrder: seq<string>,              // partial execution order; empty: keep registration order
    missingArgPolicy: MissingArgPolicy,
    outputFilter: seq<string>,           // step names to report; empty: report every step
    stepConfigs: map<string, StepConfig>)

  /** The zero-valued binding, as an `&ArgBinding{}` literal builds it. */
  function ZeroBinding(): (b: ArgBinding)
    ensures b.source == SourceDefault
  {
    ArgBinding(0, "", 0)
  }

  /** The default configuration: no reordering, the UseLatest policy, no output filter
      and no per-step bindings. */
  function NewPipelineConfig(): (c: PipelineConfig)
    ensures c.missingArgPolicy == UseLatest
    ensures |c.stepOrder| == 0 && |c.outputFilter| == 0
    ensures forall name :: name !in c.stepConfigs
  {
    PipelineConfig([], UseLatest, [], map[])
  }
}
