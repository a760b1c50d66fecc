/** `TranslationPipeline`: the fixed list of six steps, run in order over
    one context object. */
module Pipelines {
  import opened Common
  import opened Model
  import opened Cache
  import opened SensitiveData
  import opened PipelineSpec
  import opened Contexts
  import opened PipelineSteps

  class TranslationPipeline {
    const steps: seq<StepKind> := Steps
    /** The detectors of the sensitive-data step. */
    const patterns: Patterns
    /** The translation port of the translation step. */
    const port: Port
    /** The cache port of the two cache steps. */
    const cache: MultiLevelCache

    ghost predicate Valid()
      reads this, cache
    {
      cache.Valid()
    }

    /** The constructor's step list. */
    constructor (patterns: Patterns, port: Port, cache: MultiLevelCache)
      requires cache.Valid()
      ensures Valid()
      ensures this.patterns == patterns && this.port == port && this.cache == cache
    {
      this.patterns := patterns;
      this.port := port;
      this.cache := cache;
    }

    function Env(): Env
      reads this
    {
      PipelineSpec.Env(patterns, port)
    }

    /** `getStepNames()`. */
    function GetStepNames(): (names: seq<string>)
      ensures names == ["RemoveDuplicates", "RemoveSensitiveData", "CacheConsult", "Translation", "CacheSave", "Log"]
    {
      StepNamesInOrder();
      StepNames(steps)
    }

    /** `step.execute(currentContext)` for one step of the list; an
        exception is returned as it was raised. */
    method ExecuteStep(k: StepKind, ctx: TranslationContext) returns (stepFailure: Option<Error>)
      requires Valid()
      modifies ctx, cache
      ensures Valid()
      ensures var r := ApplyStep(Env(), k, RunState(old(ctx.Snapshot()), old(cache.State()), None));
        && (stepFailure == None ==> r == RunState(ctx.Snapshot(), cache.State(), None))
        && (stepFailure != None ==>
              r.failure == Some(PipelineFailure(StepName(k), stepFailure.value)) && r.cache == cache.State())
    {
      stepFailure := None;
      match k
      case RemoveDuplicates =>
        PipelineSteps.RemoveDuplicates(ctx);
      case RemoveSensitiveData =>
        PipelineSteps.RemoveSensitiveData(patterns, ctx);
      case CacheConsult =>
        PipelineSteps.CacheConsult(cache, ctx);
      case Translation =>
        stepFailure := PipelineSteps.Translation(port, ctx);
      case CacheSave =>
        stepFailure := PipelineSteps.CacheSave(cache, ctx);
      case LogMetrics =>
    }

    /** `execute(context)`: `startTime` is set to the clock reading `now`,
        then each step runs on the context the previous one left. A step's
        exception stops the loop and is returned wrapped with the step's
        name. The failure and the cache are those of `RunPipeline`, and so
        is the context when nothing failed. */
    method Execute(ctx: TranslationContext, now: int) returns (failure: Option<Error>)
      requires Valid()
      modifies ctx, cache
      ensures Valid()
      ensures var r := RunPipeline(Env(), old(ctx.Snapshot()), old(cache.State()), now);
        failure == r.failure && cache.State() == r.cache && (failure == None ==> ctx.Snapshot() == r.context)
    {
      ctx.startTime := now;
      ghost var s0 := RunState(ctx.Snapshot(), cache.State(), None);
      for i := 0 to |steps|
        invariant Valid()
        invariant Run(Env(), s0, steps[..i]) == RunState(ctx.Snapshot(), cache.State(), None)
      {
        RunPrefixStep(Env(), s0, steps, i);
        var stepFailure := ExecuteStep(steps[i], ctx);
        if stepFailure != None {
          RunFailsAt(Env(), s0, steps, i);
          return Some(PipelineFailure(StepName(steps[i]), stepFailure.value));
        }
      }
      assert steps[..|steps|] == steps;
      return None;
    }
  }
}
