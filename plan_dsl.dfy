/** The planning language (crates/oracle_omen_plan/src/dsl.rs): a plan is a
    named list of steps; each step names its kind, the steps it depends on,
    the capabilities it needs and its resource, failure, retry and timeout
    policies. */
module PlanDsl {
  import opened Wrappers
  import Hashing

  /** `StepType`; `serde_json::Value` payloads are carried as JSON values. */
  datatype StepType =
    | ToolStep(name: string, version: string, input: Hashing.Json)
    | ObservationStep(source: string, filter: string)
    | DecisionStep(condition: string, thenStep: string, elseStep: Option<string>)
    | ParallelStep(steps: seq<string>)
    | SequentialStep(steps: seq<string>)
    | CustomStep(typeName: string, config: Hashing.Json)

  /** `ResourceAnnotation`. */
  datatype ResourceAnnotation = ResourceAnnotation(
    maxMemoryBytes: Option<nat>, timeoutMs: nat, cpuUnits: Option<nat>, exclusive: bool)

  /** `ResourceAnnotation::default`: 30 s, no memory or CPU cap, shared. */
  function DefaultResources(): (r: ResourceAnnotation)
    ensures r.timeoutMs == 30000 && r.maxMemoryBytes.None? && r.cpuUnits.None? && !r.exclusive
  {
    ResourceAnnotation(None, 30000, None, false)
  }

  /** `FailurePolicy`; the default is `Stop`. */
  datatype FailurePolicy =
    | Stop
    | Continue
    | Retry
    | Compensate(compensationStep: string)
    | Fallback(fallbackStep: string)

  const DefaultFailurePolicy: FailurePolicy := Stop

  /** `BackoffStrategy`. */
  datatype BackoffStrategy =
    | Fixed(delayMs: nat)
    | Exponential(baseMs: nat, maxMs: nat)
    | Linear(incrementMs: nat)
    | NoDelay

  /** `RetryPolicy`. */
  datatype RetryPolicy = RetryPolicy(maxRetries: nat, backoff: BackoffStrategy, retryOn: seq<string>)

  /** `RetryPolicy::default`: three retries, exponential from 100 ms up to
      5 s, on any error. */
  function DefaultRetryPolicy(): (r: RetryPolicy)
    ensures r.maxRetries == 3 && r.backoff == Exponential(100, 5000) && r.retryOn == []
  {
    RetryPolicy(3, Exponential(100, 5000), [])
  }

  /** `TimeoutAction`. */
  datatype TimeoutAction = ErrorOnTimeout | DefaultValue(value: Hashing.Json) | Skip

  /** `TimeoutPolicy`. */
  datatype TimeoutPolicy = TimeoutPolicy(timeoutMs: nat, onTimeout: TimeoutAction)

  /** `TimeoutPolicy::default`: 30 s, then an error. */
  function DefaultTimeoutPolicy(): (r: TimeoutPolicy)
    ensures r.timeoutMs == 30000 && r.onTimeout == ErrorOnTimeout
  {
    TimeoutPolicy(30000, ErrorOnTimeout)
  }

  /** `PlanStep`. */
  datatype PlanStep = PlanStep(
    id: string,
    stepType: StepType,
    dependencies: seq<string>,
    capabilities: seq<string>,
    resources: ResourceAnnotation,
    failurePolicy: FailurePolicy,
    retryPolicy: RetryPolicy,
    timeoutPolicy: TimeoutPolicy)

  /** `PlanStep::new`: no dependencies, no capabilities, default policies. */
  function NewStep(id: string, stepType: StepType): (s: PlanStep)
    ensures s.id == id && s.stepType == stepType && s.dependencies == [] && s.capabilities == []
    ensures s.resources == DefaultResources() && s.failurePolicy == Stop
    ensures s.retryPolicy == DefaultRetryPolicy() && s.timeoutPolicy == DefaultTimeoutPolicy()
  {
    PlanStep(id, stepType, [], [], DefaultResources(), DefaultFailurePolicy, DefaultRetryPolicy(), DefaultTimeoutPolicy())
  }

  /** `depends_on`: the dependency goes after the earlier ones. */
  function DependsOn(s: PlanStep, stepId: string): (r: PlanStep)
    ensures r.dependencies == s.dependencies + [stepId]
    ensures r == s.(dependencies := r.dependencies)
  {
    s.(dependencies := s.dependencies + [stepId])
  }

  /** `requires`: the capability goes after the earlier ones. */
  function Requires(s: PlanStep, capability: string): (r: PlanStep)
    ensures r.capabilities == s.capabilities + [capability]
    ensures r == s.(capabilities := r.capabilities)
  {
    s.(capabilities := s.capabilities + [capability])
  }

  /** Calling `depends_on` once per id, in order, yields exactly those ids
      as the dependencies of a new step. */
  function DependingOn(s: PlanStep, ids: seq<string>): PlanStep
    decreases |ids|
  {
    if ids == [] then s else DependsOn(DependingOn(s, ids[..|ids| - 1]), ids[|ids| - 1])
  }

  lemma {:induction false} DependingOnKeepsOrder(s: PlanStep, ids: seq<string>)
    ensures DependingOn(s, ids).dependencies == s.dependencies + ids
    ensures DependingOn(s, ids) == s.(dependencies := s.dependencies + ids)
    decreases |ids|
  {
    if ids != [] {
      var init := ids[..|ids| - 1];
      DependingOnKeepsOrder(s, init);
      assert s.dependencies + init + [ids[|ids| - 1]] == s.dependencies + ids;
    }
  }

  /** `Plan { name, steps, metadata }`, which `add_step` extends in place. */
  class Plan {
    const name: string
    var steps: seq<PlanStep>
    var metadata: map<string, string>

    /** `Plan::new`: no steps, no metadata. */
    constructor (name: string)
      ensures this.name == name && steps == [] && metadata == map[]
    {
      this.name := name;
      steps := [];
      metadata := map[];
    }

    /** `add_step`: the step goes last and the earlier steps keep their
        places. */
    method AddStep(step: PlanStep)
      modifies this
      ensures steps == old(steps) + [step] && metadata == old(metadata)
    {
      steps := steps + [step];
    }

    /** `len`. */
    function Len(): nat
      reads this
    {
      |steps|
    }

    /** `is_empty`. */
    predicate IsEmpty()
      reads this
    {
      steps == []
    }
  }
}
