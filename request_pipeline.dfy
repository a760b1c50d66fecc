/** The generic request pipeline: steps are appended one by one and
    `execute` passes the request through them in insertion order. */
module RequestPipelines {
  import opened Common
  import opened Model

  /** A `PipelineStep` on requests: its name and its `execute`, which
      returns the next request (which may be null) or raises. */
  datatype RequestStep = RequestStep(name: string, execute: Option<Request> -> Result<Option<Request>, Error>)

  /** The steps applied in order, each to the previous one's result; the
      first exception propagates. */
  function Fold(steps: seq<RequestStep>, req: Option<Request>): Result<Option<Request>, Error> {
    if steps == [] then Ok(req)
    else
      match Fold(steps[..|steps| - 1], req)
      case Err(e) => Err(e)
      case Ok(q) => steps[|steps| - 1].execute(q)
  }

  /** Running `a + b` is running `a`, then `b` on its result, unless `a`
      raised. */
  lemma {:induction false} FoldAppend(a: seq<RequestStep>, b: seq<RequestStep>, req: Option<Request>)
    ensures Fold(a + b, req) == match Fold(a, req) case Err(e) => Err(e) case Ok(q) => Fold(b, q)
  {
    if b == [] {
      assert a + b == a;
    } else {
      assert (a + b)[..|a + b| - 1] == a + b[..|b| - 1];
      FoldAppend(a, b[..|b| - 1], req);
    }
  }

  /** A failed run failed at one step: every step before it returned a
      request, that step raised the exception the run raises, and no later
      step ran. */
  lemma {:induction false} FoldFailsAtOneStep(steps: seq<RequestStep>, req: Option<Request>)
    requires Fold(steps, req).Err?
    ensures exists i :: (0 <= i < |steps| && Fold(steps[..i], req).Ok? &&
      steps[i].execute(Fold(steps[..i], req).value) == Fold(steps, req))
  {
    var n := |steps| - 1;
    assert steps[..n + 1] == steps;
    match Fold(steps[..n], req)
    case Ok(q) =>
    case Err(e) =>
      FoldFailsAtOneStep(steps[..n], req);
      var i :| 0 <= i < n && Fold(steps[..n][..i], req).Ok? &&
        steps[..n][i].execute(Fold(steps[..n][..i], req).value) == Fold(steps[..n], req);
      assert steps[..n][..i] == steps[..i];
  }

  /** `TranslationPipeline` of the service layer. */
  class RequestPipeline {
    var steps: seq<RequestStep>

    constructor ()
      ensures steps == []
    {
      steps := [];
    }

    /** `addStep(step)`: appends and returns this pipeline, for chaining. */
    method AddStep(step: RequestStep) returns (r: RequestPipeline)
      modifies this
      ensures steps == old(steps) + [step] && r == this
    {
      steps := steps + [step];
      r := this;
    }

    /** `execute(request)`: with no steps, the request itself. */
    method Execute(req: Option<Request>) returns (r: Result<Option<Request>, Error>)
      ensures r == Fold(steps, req)
      ensures steps == [] ==> r == Ok(req)
    {
      var current := req;
      for i := 0 to |steps|
        invariant Fold(steps[..i], req) == Ok(current)
      {
        assert steps[..i + 1][..i] == steps[..i];
        var next := steps[i].execute(current);
        if next.Err? {
          FoldAppend(steps[..i + 1], steps[i + 1..], req);
          assert steps[..i + 1] + steps[i + 1..] == steps;
          return next;
        }
        current := next.value;
      }
      assert steps[..|steps|] == steps;
      return Ok(current);
    }
  }
}
