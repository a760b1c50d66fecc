/** `TranslationService`: validate the request, build the pipeline context,
    run the pipeline and project the context into a response. Clock
    readings are parameters. */
module Service {
  import opened Common
  import opened TranslationTypes
  import opened Model
  import opened Cache
  import opened Deduplication
  import opened SensitiveData
  import opened Validators
  import opened PipelineSpec
  import opened Contexts
  import opened ValidationChains
  import opened Pipelines
  import Adapter

  /** `TranslationResponse.TranslationResult`. */
  datatype TranslationResult = TranslationResult(
    originalText: string,
    translatedText: Option<string>,
    sourceLanguage: string,
    targetLanguage: string,
    fromCache: bool,
    hadSensitiveData: bool)

  /** `TranslationResponse.TranslationMetadata`; `pipelineSteps` holds the
      step names and their number. */
  datatype Metadata = Metadata(
    totalTexts: nat,
    duplicatesRemoved: int,
    sensitiveDataRemoved: int,
    cacheHits: int,
    cacheMisses: int,
    processingTimeMs: int,
    timestamp: Option<int>,
    steps: seq<string>,
    totalSteps: nat)

  datatype Response = Response(results: seq<TranslationResult>, metadata: Metadata)

  /** The clock readings of one request: the service's start, the
      builder's `startTime`, the pipeline's `startTime`, the service's end,
      and the response timestamp. */
  datatype Clock = Clock(requestStart: int, contextStart: int, pipelineStart: int, requestEnd: int, timestamp: int)

  /** The texts of a request whose entries are all present. */
  function TextsOf(ts: seq<Option<string>>): (r: seq<string>)
    requires forall i :: 0 <= i < |ts| ==> ts[i].Some?
    ensures |r| == |ts| && forall i :: 0 <= i < |ts| ==> ts[i] == Some(r[i])
  {
    seq(|ts|, i requires 0 <= i < |ts| => ts[i].value)
  }

  /** `createContext(request)`, which the service calls only on a request
      the validation chain has accepted: a copy of the texts and the
      request fields, zero counters, empty lists. */
  function CreateContext(req: Request, now: int): (c: ContextState)
    requires Acceptable(Some(req))
    ensures |c.texts| == |req.texts.value| && forall i :: 0 <= i < |c.texts| ==> req.texts.value[i] == Some(c.texts[i])
    ensures Some(c.sourceLanguage) == req.sourceLanguage && Some(c.targetLanguage) == req.targetLanguage
    ensures Some(c.ttype) == req.ttype && c.fileContent == req.fileContent
    ensures c.duplicatesRemoved == c.sensitiveDataRemoved == c.cacheHits == c.cacheMisses == 0
    ensures c.startTime == now
    ensures c.processedTexts == [] && c.translatedTexts == [] && c.fromCache == [] && c.hadSensitiveData == []
  {
    ContextState(TextsOf(req.texts.value), req.sourceLanguage.value, req.targetLanguage.value, req.ttype.value,
      req.fileContent, 0, 0, 0, 0, now, [], [], [], [])
  }

  /** The first `n` rounds of the result loop of `buildResponse`: entry i
      pairs `texts[i]` with slot i of the translated and cached lists; its
      sensitive flag defaults to false past the end of the flag list. */
  function BuildResults(c: ContextState, n: nat): (r: Result<seq<TranslationResult>, Error>)
    requires n <= |c.translatedTexts|
    ensures r.Ok? <==> n <= |c.texts| && n <= |c.fromCache|
    ensures r.Err? ==> r.error == IndexOutOfBounds
    ensures r.Ok? ==> |r.value| == n && forall i :: 0 <= i < n ==>
      r.value[i] == TranslationResult(c.texts[i], c.translatedTexts[i], c.sourceLanguage, c.targetLanguage,
        c.fromCache[i], i < |c.hadSensitiveData| && c.hadSensitiveData[i])
  {
    if n == 0 then Ok([])
    else
      var i := n - 1;
      match BuildResults(c, i)
      case Err(e) => Err(e)
      case Ok(prev) =>
        if i >= |c.texts| || i >= |c.fromCache| then Err(IndexOutOfBounds)
        else
          var flag := if i < |c.hadSensitiveData| then c.hadSensitiveData[i] else false;
          Ok(prev + [TranslationResult(c.texts[i], c.translatedTexts[i], c.sourceLanguage, c.targetLanguage, c.fromCache[i], flag)])
  }

  /** `buildResponse(context, request)` before the time and timestamp are
      set. */
  function BuildResponse(c: ContextState, stepNames: seq<string>): Result<Response, Error> {
    match BuildResults(c, |c.translatedTexts|)
    case Err(e) => Err(e)
    case Ok(results) =>
      Ok(Response(results, Metadata(|c.texts|, c.duplicatesRemoved, c.sensitiveDataRemoved, c.cacheHits, c.cacheMisses,
        0, None, stepNames, |stepNames|)))
  }

  /** The response with the elapsed time and the timestamp set; an
      exception passes through. */
  function Stamp(built: Result<Response, Error>, clock: Clock): (r: Result<Response, Error>)
    ensures r.Ok? <==> built.Ok?
    ensures r.Err? ==> r == built
    ensures r.Ok? ==> r.value.results == built.value.results
    ensures r.Ok? ==> r.value.metadata == built.value.metadata.(processingTimeMs := clock.requestEnd - clock.requestStart,
                                                                timestamp := Some(clock.timestamp))
  {
    match built
    case Err(e) => Err(e)
    case Ok(resp) =>
      Ok(resp.(metadata := resp.metadata.(processingTimeMs := clock.requestEnd - clock.requestStart,
                                          timestamp := Some(clock.timestamp))))
  }

  /** `translate(request)`: the response, or the exception, and the cache
      the request leaves behind. */
  function ServiceTranslate(env: Env, req: Option<Request>, cache: CacheState, clock: Clock): (Result<Response, Error>, CacheState) {
    if req.None? || req.value.texts.None? then (Err(NullDereference), cache)
    else
      match Validate(req)
      case Fail(e) => (Err(e), cache)
      case Pass =>
        ValidateIffAcceptable(req);
        var ctx := CreateContext(req.value, clock.contextStart);
        var run := RunPipeline(env, ctx, cache, clock.pipelineStart);
        if run.failure.Some? then (Err(run.failure.value), run.cache)
        else (Stamp(BuildResponse(run.context, StepNames(Steps)), clock), run.cache)
  }

  /** A null request, or a null text list, fails at the log line that
      reads the list's size, before validation runs. */
  lemma NullTextsFailBeforeValidation(env: Env, req: Option<Request>, cache: CacheState, clock: Clock)
    requires req.None? || req.value.texts.None?
    ensures ServiceTranslate(env, req, cache, clock) == (Err(NullDereference), cache)
  {
  }

  /** A request the chain rejects fails with the chain's error; the
      pipeline does not run, so the cache is untouched. */
  lemma ValidationFailureStopsRequest(env: Env, r: Request, cache: CacheState, clock: Clock)
    requires r.texts.Some? && Validate(Some(r)).Fail?
    ensures ServiceTranslate(env, Some(r), cache, clock) == (Err(Validate(Some(r)).error), cache)
  {
  }

  /** A document request as the upload endpoint builds it, with an empty
      text list, is rejected for its missing texts. */
  lemma UploadedDocumentRejected(env: Env, r: Request, cache: CacheState, clock: Clock)
    requires r.texts == Some([]) && r.ttype == Some(Document)
    requires Present(r.fileContent) && r.contentType.Some? && !IsBlank(r.contentType.value)
    ensures ServiceTranslate(env, Some(r), cache, clock).0 == Err(InvalidInput(MissingTexts))
  {
    BinaryRequestWithoutTextsRejected(r);
  }

  /** On an accepted request whose run succeeds, the service answers with
      the response built from the run's context, stamped with the clock,
      and keeps the cache the run left. */
  lemma AcceptedRequestRunsPipeline(env: Env, r: Request, cache: CacheState, clock: Clock)
    requires Acceptable(Some(r))
    requires RunPipeline(env, CreateContext(r, clock.contextStart), cache, clock.pipelineStart).failure == None
    ensures var run := RunPipeline(env, CreateContext(r, clock.contextStart), cache, clock.pipelineStart);
      ServiceTranslate(env, Some(r), cache, clock) == (Stamp(BuildResponse(run.context, StepNames(Steps)), clock), run.cache)
  {
    ValidateIffAcceptable(Some(r));
  }

  /** A context with aligned, filled lists no longer than the request's
      texts projects into a response: one result per slot, and the
      counters, the six step names and their number as metadata. */
  lemma ResponseOfContext(c: ContextState)
    requires Aligned(c) && Filled(c.translatedTexts)
    requires |c.translatedTexts| <= |c.texts| && |c.hadSensitiveData| == |c.translatedTexts|
    ensures BuildResponse(c, StepNames(Steps)).Ok?
    ensures var resp := BuildResponse(c, StepNames(Steps)).value;
      && |resp.results| == |c.translatedTexts|
      && (forall i :: 0 <= i < |resp.results| ==>
            resp.results[i] == TranslationResult(c.texts[i], c.translatedTexts[i], c.sourceLanguage,
              c.targetLanguage, c.fromCache[i], c.hadSensitiveData[i]))
      && resp.metadata == Metadata(|c.texts|, c.duplicatesRemoved, c.sensitiveDataRemoved,
           c.cacheHits, c.cacheMisses, 0, None,
           ["RemoveDuplicates", "RemoveSensitiveData", "CacheConsult", "Translation", "CacheSave", "Log"], 6)
  {
    var results := BuildResults(c, |c.translatedTexts|);
    assert results.Ok?;
    StepNamesInOrder();
  }

  /** An accepted request with a port that answers every text gets a
      response: one result per distinct text, result i pairing the i-th
      text of the request as sent with the i-th slot of the pipeline, the
      counters of the pipeline, the six step names and the elapsed time. */
  lemma AcceptedRequestResponse(env: Env, r: Request, cache: CacheState, clock: Clock)
    requires Acceptable(Some(r)) && PreservesLength(env.port)
    ensures var ctx := CreateContext(r, clock.contextStart);
      var run := RunPipeline(env, ctx, cache, clock.pipelineStart);
      var c := run.context;
      var out := ServiceTranslate(env, Some(r), cache, clock);
      && out.1 == run.cache
      && out.0.Ok?
      && |out.0.value.results| == |Dedup(ctx.texts)| == |c.translatedTexts| == |c.fromCache| == |c.hadSensitiveData|
      && (forall i :: 0 <= i < |out.0.value.results| ==>
            out.0.value.results[i] == TranslationResult(ctx.texts[i], c.translatedTexts[i], c.sourceLanguage,
              c.targetLanguage, c.fromCache[i], c.hadSensitiveData[i]) &&
            c.translatedTexts[i].Some?)
      && out.0.value.metadata == Metadata(|ctx.texts|, c.duplicatesRemoved, c.sensitiveDataRemoved,
           c.cacheHits, c.cacheMisses, clock.requestEnd - clock.requestStart, Some(clock.timestamp),
           ["RemoveDuplicates", "RemoveSensitiveData", "CacheConsult", "Translation", "CacheSave", "Log"], 6)
  {
    var ctx := CreateContext(r, clock.contextStart);
    PipelineSucceeds(env, ctx, cache, clock.pipelineStart);
    var c := RunPipeline(env, ctx, cache, clock.pipelineStart).context;
    assert |c.translatedTexts| == |Dedup(ctx.texts)| <= |c.texts|;
    AcceptedRequestRunsPipeline(env, r, cache, clock);
    ResponseOfContext(c);
  }

  /** With duplicates the pairing is off: for the texts [x, x, y] the
      second result carries the original text x next to the slot of y. */
  lemma DuplicatesMisalignResults(env: Env, r: Request, cache: CacheState, clock: Clock, x: string, y: string)
    requires Acceptable(Some(r)) && PreservesLength(env.port)
    requires r.texts == Some([Some(x), Some(x), Some(y)]) && x != y
    ensures var run := RunPipeline(env, CreateContext(r, clock.contextStart), cache, clock.pipelineStart);
      var out := ServiceTranslate(env, Some(r), cache, clock).0;
      && out.Ok? && |out.value.results| == 2 && |run.context.processedTexts| == 2
      && out.value.results[1].originalText == x
      && run.context.processedTexts[1] == Scrub(env.patterns, y).0
      && out.value.results[1].translatedText == run.context.translatedTexts[1]
  {
    var ctx := CreateContext(r, clock.contextStart);
    assert ctx.texts == [x, x, y];
    DedupOfRepeatedFirst(x, y);
    AcceptedRequestResponse(env, r, cache, clock);
    PipelineProcessedTexts(env, ctx, cache, clock.pipelineStart);
  }

  lemma DedupOfRepeatedFirst(x: string, y: string)
    requires x != y
    ensures Dedup([x, x, y]) == [x, y]
  {
    assert [x, x, y][..2] == [x, x] && [x, x][..1] == [x] && [x][..0] == [];
  }

  /** Checks that agree on two requests make the chain agree on them. */
  lemma {:induction false} ChainRespects(ks: seq<ValidatorKind>, a: Option<Request>, b: Option<Request>)
    requires forall k :: DoValidate(k, a) == DoValidate(k, b)
    ensures RunChain(ks, a) == RunChain(ks, b)
  {
    if ks != [] {
      ChainRespects(ks[1..], a, b);
    }
  }

  /** The validation chain does not read the three flags. */
  lemma ValidationIgnoresFlags(r: Request, r': Request)
    requires r' == r.(useCache := r'.useCache, removeDuplicates := r'.removeDuplicates,
                      removeSensitiveData := r'.removeSensitiveData)
    ensures Validate(Some(r')) == Validate(Some(r))
  {
    assert RequiredFields(Some(r')) == RequiredFields(Some(r));
    assert Size(Some(r')) == Size(Some(r));
    assert Language(Some(r')) == Language(Some(r));
    assert Format(Some(r')) == Format(Some(r));
    ChainRespects(ChainOrder, Some(r'), Some(r));
  }

  /** The three request flags are never read: changing them changes
      nothing. */
  lemma FlagsAreIgnored(env: Env, r: Request, cache: CacheState, clock: Clock, useCache: bool, removeDuplicates: bool, removeSensitiveData: bool)
    ensures var r' := r.(useCache := useCache, removeDuplicates := removeDuplicates, removeSensitiveData := removeSensitiveData);
      ServiceTranslate(env, Some(r'), cache, clock) == ServiceTranslate(env, Some(r), cache, clock)
  {
    var r' := r.(useCache := useCache, removeDuplicates := removeDuplicates, removeSensitiveData := removeSensitiveData);
    ValidationIgnoresFlags(r, r');
    if r.texts.Some? && Validate(Some(r)).Pass? {
      ValidateIffAcceptable(Some(r));
      assert CreateContext(r', clock.contextStart) == CreateContext(r, clock.contextStart);
    }
  }

  /** Through the adapter, an accepted request always gets a response. */
  lemma AcceptedRequestThroughAdapter(a: Adapter.TranslationAdapter, p: Patterns, r: Request, cache: CacheState, clock: Clock)
    requires Acceptable(Some(r))
    ensures ServiceTranslate(Env(p, AdapterPort(a)), Some(r), cache, clock).0.Ok?
  {
    assert PreservesLength(AdapterPort(a)) by {
      forall texts, src, tgt, t ensures |AdapterPort(a)(texts, src, tgt, t)| == |texts| {
      }
    }
    AcceptedRequestResponse(Env(p, AdapterPort(a)), r, cache, clock);
  }

  /** The service object and its two collaborators. */
  class TranslationService {
    const validationChain: ValidationChain
    const pipeline: TranslationPipeline

    ghost predicate Valid()
      reads this, validationChain, pipeline, pipeline.cache, set h | h in validationChain.handlers
    {
      validationChain.Valid() && pipeline.Valid()
    }

    constructor (validationChain: ValidationChain, pipeline: TranslationPipeline)
      requires validationChain.Valid() && pipeline.Valid()
      ensures Valid() && this.validationChain == validationChain && this.pipeline == pipeline
    {
      this.validationChain := validationChain;
      this.pipeline := pipeline;
    }

    /** `buildResponse(context, request)`: one result per translated slot,
        then the metadata, with the time still zero and no timestamp. */
    method BuildResponseOf(ctx: TranslationContext) returns (r: Result<Response, Error>)
      ensures r == BuildResponse(ctx.Snapshot(), StepNames(Steps))
    {
      ghost var c := ctx.Snapshot();
      var results: seq<TranslationResult> := [];
      for i := 0 to |ctx.translatedTexts|
        invariant BuildResults(c, i) == Ok(results)
      {
        if i >= |ctx.texts| || i >= |ctx.fromCache| {
          return Err(IndexOutOfBounds);
        }
        var flag := if i < |ctx.hadSensitiveData| then ctx.hadSensitiveData[i] else false;
        results := results + [TranslationResult(ctx.texts[i], ctx.translatedTexts[i], ctx.sourceLanguage,
          ctx.targetLanguage, ctx.fromCache[i], flag)];
      }
      var names := pipeline.GetStepNames();
      StepNamesInOrder();
      r := Ok(Response(results, Metadata(|ctx.texts|, ctx.duplicatesRemoved, ctx.sensitiveDataRemoved,
        ctx.cacheHits, ctx.cacheMisses, 0, None, names, |names|)));
    }

    /** `translate(request)`. */
    method Translate(req: Option<Request>, clock: Clock) returns (r: Result<Response, Error>)
      requires Valid()
      modifies pipeline.cache
      ensures Valid()
      ensures (r, pipeline.cache.State()) == ServiceTranslate(pipeline.Env(), req, old(pipeline.cache.State()), clock)
    {
      if req.None? || req.value.texts.None? {
        return Err(NullDereference);
      }
      var o := validationChain.Validate(req);
      if o.Fail? {
        return Err(o.error);
      }
      ValidateIffAcceptable(req);
      var ctx := new TranslationContext(CreateContext(req.value, clock.contextStart));
      var failure := pipeline.Execute(ctx, clock.pipelineStart);
      if failure.Some? {
        return Err(failure.value);
      }
      var built := BuildResponseOf(ctx);
      r := Stamp(built, clock);
    }

    /** `translateBinary(request)`: the same flow as `translate`. */
    method TranslateBinary(req: Option<Request>, clock: Clock) returns (r: Result<Response, Error>)
      requires Valid()
      modifies pipeline.cache
      ensures Valid()
      ensures (r, pipeline.cache.State()) == ServiceTranslate(pipeline.Env(), req, old(pipeline.cache.State()), clock)
    {
      r := Translate(req, clock);
    }
  }
}
