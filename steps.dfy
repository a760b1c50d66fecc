/** The `execute` methods of the pipeline steps, each working on the
    context object in place and tied to its step function in
    `PipelineSpec`. `LogStep` only logs and has no counterpart here. */
module PipelineSteps {
  import opened Common
  import opened Model
  import opened Cache
  import opened CacheKeys
  import opened Deduplication
  import opened SensitiveData
  import opened PipelineSpec
  import opened Contexts

  /** `RemoveDuplicatesStep.execute`. */
  method RemoveDuplicates(ctx: TranslationContext)
    modifies ctx
    ensures ctx.Snapshot() == DedupStep(old(ctx.Snapshot()))
  {
    var unique := DedupLinked(ctx.texts);
    ctx.duplicatesRemoved := |ctx.texts| - |unique|;
    ctx.processedTexts := unique;
  }

  /** The loop of `RemoveSensitiveDataStep.execute`: the five passes on
      each text, collecting the sanitized texts, their flags and the count
      of flagged texts. */
  method ScrubTexts(p: Patterns, texts: seq<string>) returns (sanitizedTexts: seq<string>, flags: seq<bool>, count: nat)
    ensures (sanitizedTexts, flags) == ScrubAll(p, texts)
    ensures count == CountTrue(flags)
  {
    sanitizedTexts := [];
    flags := [];
    count := 0;
    for i := 0 to |texts|
      invariant (sanitizedTexts, flags) == ScrubAll(p, texts[..i])
      invariant count == CountTrue(flags)
    {
      ScrubAllSnoc(p, texts, i);
      var sanitized, hasSensitive := ScrubOneText(p, texts[i]);
      CountSnoc(flags, hasSensitive);
      if hasSensitive {
        count := count + 1;
      }
      sanitizedTexts := sanitizedTexts + [sanitized];
      flags := flags + [hasSensitive];
    }
    assert texts[..|texts|] == texts;
  }

  /** `RemoveSensitiveDataStep.execute`: the processed texts are replaced
      by their sanitized forms, with the flags and their count. */
  method RemoveSensitiveData(p: Patterns, ctx: TranslationContext)
    modifies ctx
    ensures ctx.Snapshot() == ScrubStep(p, old(ctx.Snapshot()))
  {
    var sanitizedTexts, flags, count := ScrubTexts(p, ctx.processedTexts);
    ctx.processedTexts := sanitizedTexts;
    ctx.hadSensitiveData := flags;
    ctx.sensitiveDataRemoved := count;
  }

  /** `generateCacheKey` for the text at `i`: the i-th of the keys of the
      whole list. */
  method GenerateCacheKey(texts: seq<string>, src: string, tgt: string, i: nat) returns (key: string)
    requires i < |texts|
    ensures key == KeysOf(texts, src, tgt)[i]
  {
    key := src + ":" + tgt + ":" + IntToDecimal(JavaHashCode(texts[i]));
    KeysOfAt(texts, src, tgt, i);
  }

  /** One turn of the consult loop: the value read and the state left by the
      `get` extend the fold by one key. */
  lemma ConsultTurn(start: CacheState, keys: seq<string>, i: nat, translated: seq<Option<string>>,
                    before: CacheState, cached: Option<string>, after: CacheState)
    requires i < |keys|
    requires (translated, before) == ConsultAll(start, keys[..i])
    requires (cached, after) == CacheGet(before, keys[i])
    ensures (translated + [cached], after) == ConsultAll(start, keys[..i + 1])
  {
    ConsultAllSnoc(start, keys, i);
  }

  /** The loop of `CacheConsultStep.execute`: one `get` per text, in
      order; a hit keeps the value and counts as a hit, a miss leaves a null
      slot and counts as a miss. */
  method ConsultTexts(cache: MultiLevelCache, texts: seq<string>, src: string, tgt: string)
    returns (translated: seq<Option<string>>, fromCache: seq<bool>, hits: int, misses: int)
    requires cache.Valid()
    modifies cache
    ensures cache.Valid()
    ensures (translated, cache.State()) == ConsultAll(old(cache.State()), KeysOf(texts, src, tgt))
    ensures fromCache == HitMask(translated)
    ensures hits == CountTrue(fromCache) && misses == CountFalse(fromCache)
  {
    ghost var keys := KeysOf(texts, src, tgt);
    translated := [];
    fromCache := [];
    hits := 0;
    misses := 0;
    for i := 0 to |texts|
      invariant cache.Valid()
      invariant (translated, cache.State()) == ConsultAll(old(cache.State()), keys[..i])
      invariant fromCache == HitMask(translated)
      invariant hits == CountTrue(fromCache) && misses == CountFalse(fromCache)
    {
      var key := GenerateCacheKey(texts, src, tgt, i);
      ghost var before := cache.State();
      var cached := cache.Get(key);
      ConsultTurn(old(cache.State()), keys, i, translated, before, cached, cache.State());
      HitMaskSnoc(translated, cached);
      CountSnoc(fromCache, cached.Some?);
      translated := translated + [cached];
      fromCache := fromCache + [cached.Some?];
      if cached.Some? {
        hits := hits + 1;
      } else {
        misses := misses + 1;
      }
    }
    assert keys[..|texts|] == keys;
  }

  /** `CacheConsultStep.execute`: the consult loop over the processed
      texts, whose lists and counters replace the context's. */
  method CacheConsult(cache: MultiLevelCache, ctx: TranslationContext)
    requires cache.Valid()
    modifies ctx, cache
    ensures cache.Valid()
    ensures (ctx.Snapshot(), cache.State()) == ConsultStep(old(ctx.Snapshot()), old(cache.State()))
  {
    var translated, fromCache, hits, misses := ConsultTexts(cache, ctx.processedTexts, ctx.sourceLanguage, ctx.targetLanguage);
    ctx.translatedTexts := translated;
    ctx.fromCache := fromCache;
    ctx.cacheHits := hits;
    ctx.cacheMisses := misses;
  }

  /** The first loop of `TranslationStep.execute`: the null slots and the
      texts at them, in index order; `outOfRange` when a null slot has no
      processed text, which the source reports as an index error. */
  method CollectMissing(translated: seq<Option<string>>, processed: seq<string>)
    returns (textsToTranslate: seq<string>, indices: seq<nat>, outOfRange: bool)
    ensures outOfRange <==> exists k :: 0 <= k < |MissingIndices(translated)| && MissingIndices(translated)[k] >= |processed|
    ensures !outOfRange ==> indices == MissingIndices(translated) && textsToTranslate == Gather(processed, indices)
  {
    ghost var mask := MissMask(translated);
    ghost var ps := MissingIndices(translated);
    textsToTranslate := [];
    indices := [];
    for i := 0 to |translated|
      invariant indices == Positions(mask[..i])
      invariant forall k :: 0 <= k < |indices| ==> indices[k] < |processed|
      invariant textsToTranslate == Gather(processed, indices)
    {
      PositionsSnoc(mask, i);
      if translated[i] == None {
        if i >= |processed| {
          assert i in ps;
          return [], [], true;
        }
        GatherSnoc(processed, indices, i);
        textsToTranslate := textsToTranslate + [processed[i]];
        indices := indices + [i];
      }
    }
    assert mask[..|translated|] == mask;
    return textsToTranslate, indices, false;
  }

  /** The second loop of `TranslationStep.execute`: `translations[k]`
      into slot `indices[k]` of the context's list, in place;
      `Some(IndexOutOfBounds)` when the results run out first. */
  method WriteTranslations(ctx: TranslationContext, indices: seq<nat>, translations: seq<string>)
    returns (failure: Option<Error>)
    requires forall k :: 0 <= k < |indices| ==> indices[k] < |ctx.translatedTexts|
    requires forall k, l :: 0 <= k < l < |indices| ==> indices[k] < indices[l]
    modifies ctx
    ensures ctx.Snapshot() == old(ctx.Snapshot()).(translatedTexts := ctx.translatedTexts)
    ensures failure == None || failure == Some(IndexOutOfBounds)
    ensures failure == None <==> |indices| <= |translations|
    ensures failure == None ==> ctx.translatedTexts == WriteBack(old(ctx.translatedTexts), indices, translations, |indices|)
  {
    for j := 0 to |indices|
      invariant j <= |translations|
      invariant ctx.translatedTexts == WriteBack(old(ctx.translatedTexts), indices, translations, j)
      invariant ctx.Snapshot() == old(ctx.Snapshot()).(translatedTexts := ctx.translatedTexts)
    {
      if j >= |translations| {
        return Some(IndexOutOfBounds);
      }
      ctx.translatedTexts := ctx.translatedTexts[indices[j] := Some(translations[j])];
    }
    return None;
  }

  /** `TranslationStep.execute`: collect the null slots, make one batch call
      when there are any, and write the results back in place. After an
      index error the context is left as the failed write-back left it. */
  method Translation(port: Port, ctx: TranslationContext) returns (failure: Option<Error>)
    modifies ctx
    ensures ctx.Snapshot() == old(ctx.Snapshot()).(translatedTexts := ctx.translatedTexts)
    ensures TranslateStep(port, old(ctx.Snapshot())).Ok? ==>
      failure == None && ctx.Snapshot() == TranslateStep(port, old(ctx.Snapshot())).value
    ensures TranslateStep(port, old(ctx.Snapshot())).Err? ==>
      failure == Some(TranslateStep(port, old(ctx.Snapshot())).error)
  {
    var textsToTranslate, indices, outOfRange := CollectMissing(ctx.translatedTexts, ctx.processedTexts);
    if outOfRange {
      return Some(IndexOutOfBounds);
    }
    if indices == [] {
      return None;
    }
    var translations := port(textsToTranslate, ctx.sourceLanguage, ctx.targetLanguage, ctx.ttype);
    failure := WriteTranslations(ctx, indices, translations);
  }

  /** Once the save loop has failed, later rounds change nothing. */
  lemma {:induction false} SaveAllStops(cache: CacheState, c: ContextState, ks: seq<string>, m: nat, n: nat)
    requires m <= n <= |ks| && SaveAll(cache, c, ks, m).1.Some?
    ensures SaveAll(cache, c, ks, n) == SaveAll(cache, c, ks, m)
    decreases n
  {
    if m < n {
      SaveAllStops(cache, c, ks, m, n - 1);
    }
  }

  /** Round `i` of the save loop: an index error when the lists are too
      short, a provider failure on a null translation, a `put` when the
      text did not come from the cache. */
  method SaveRound(cache: MultiLevelCache, ctx: TranslationContext, i: nat, ghost start: CacheState, ghost ks: seq<string>)
    returns (failure: Option<Error>)
    requires cache.Valid() && i < |ctx.processedTexts|
    requires ks == KeysOf(ctx.processedTexts, ctx.sourceLanguage, ctx.targetLanguage)
    requires SaveAll(start, ctx.Snapshot(), ks, i) == (cache.State(), None)
    modifies cache
    ensures cache.Valid()
    ensures SaveAll(start, ctx.Snapshot(), ks, i + 1) == (cache.State(), failure)
  {
    if i >= |ctx.fromCache| {
      return Some(IndexOutOfBounds);
    }
    if !ctx.fromCache[i] {
      var key := GenerateCacheKey(ctx.processedTexts, ctx.sourceLanguage, ctx.targetLanguage, i);
      if i >= |ctx.translatedTexts| {
        return Some(IndexOutOfBounds);
      }
      if ctx.translatedTexts[i] == None {
        return Some(ProviderFailure);
      }
      cache.Put(key, ctx.translatedTexts[i].value);
    }
    return None;
  }

  /** `CacheSaveStep.execute`: a `put` under the consult step's key for
      each text that did not come from the cache, in index order; the
      context is not written. */
  method CacheSave(cache: MultiLevelCache, ctx: TranslationContext) returns (failure: Option<Error>)
    requires cache.Valid()
    modifies cache
    ensures cache.Valid()
    ensures (cache.State(), failure) == SaveStep(ctx.Snapshot(), old(cache.State()))
  {
    ghost var c := ctx.Snapshot();
    ghost var ks := Keys(c);
    for i := 0 to |ctx.processedTexts|
      invariant cache.Valid()
      invariant SaveAll(old(cache.State()), c, ks, i) == (cache.State(), None)
    {
      failure := SaveRound(cache, ctx, i, old(cache.State()), ks);
      if failure != None {
        SaveAllStops(old(cache.State()), c, ks, i + 1, |ctx.processedTexts|);
        return;
      }
    }
    return None;
  }
}
