/** The six steps of the translation pipeline as functions on a value
    snapshot of the context, and the pipeline run that threads the context
    and the cache through them. The step objects and the pipeline object
    are tied to these functions in `PipelineSteps` and `Pipelines`. */
module PipelineSpec {
  import opened Common
  import opened TranslationTypes
  import opened Model
  import opened Cache
  import opened CacheKeys
  import opened Deduplication
  import opened SensitiveData
  import Adapter

  /** The fields of `TranslationContext`. The service fills the request
      part only after validation, so none of it is null here. */
  datatype ContextState = ContextState(
    texts: seq<string>,
    sourceLanguage: string,
    targetLanguage: string,
    ttype: TranslationType,
    fileContent: Option<seq<byte>>,
    duplicatesRemoved: int,
    sensitiveDataRemoved: int,
    cacheHits: int,
    cacheMisses: int,
    startTime: int,
    processedTexts: seq<string>,
    translatedTexts: seq<Option<string>>,
    fromCache: seq<bool>,
    hadSensitiveData: seq<bool>)

  /** The three lists the later steps index together have one entry per
      processed text. */
  predicate Aligned(c: ContextState) {
    |c.translatedTexts| == |c.processedTexts| && |c.fromCache| == |c.processedTexts|
  }

  /** No slot is null. */
  predicate Filled(ts: seq<Option<string>>) {
    forall i :: 0 <= i < |ts| ==> ts[i].Some?
  }

  /** The key both cache steps compute for a text of this context. */
  function Key(c: ContextState, text: string): string {
    CacheKey(text, c.sourceLanguage, c.targetLanguage)
  }

  /** `f` applied to each element, in order. */
  function MapSeq<A, B>(f: A -> B, xs: seq<A>): (ys: seq<B>)
    ensures |ys| == |xs|
  {
    if xs == [] then [] else MapSeq(f, xs[..|xs| - 1]) + [f(xs[|xs| - 1])]
  }

  lemma {:induction false} MapSeqAt<A, B>(f: A -> B, xs: seq<A>, i: nat)
    requires i < |xs|
    ensures MapSeq(f, xs)[i] == f(xs[i])
  {
    var n := |xs| - 1;
    if i < n {
      MapSeqAt(f, xs[..n], i);
      assert xs[..n][i] == xs[i];
    }
  }

  /** `generateCacheKey` for fixed languages, as a function of the text. */
  function KeyFor(src: string, tgt: string): string -> string {
    text => CacheKey(text, src, tgt)
  }

  /** `generateCacheKey` on each text of a list, in order. */
  function KeysOf(texts: seq<string>, src: string, tgt: string): (ks: seq<string>)
    ensures |ks| == |texts|
  {
    MapSeq(KeyFor(src, tgt), texts)
  }

  lemma KeysOfAt(texts: seq<string>, src: string, tgt: string, i: nat)
    requires i < |texts|
    ensures KeysOf(texts, src, tgt)[i] == CacheKey(texts[i], src, tgt)
  {
    MapSeqAt(KeyFor(src, tgt), texts, i);
  }

  /** The keys of the processed texts, one per text. */
  function Keys(c: ContextState): (ks: seq<string>)
    ensures |ks| == |c.processedTexts|
  {
    KeysOf(c.processedTexts, c.sourceLanguage, c.targetLanguage)
  }

  lemma KeysAt(c: ContextState, i: nat)
    requires i < |c.processedTexts|
    ensures Keys(c)[i] == Key(c, c.processedTexts[i])
  {
    KeysOfAt(c.processedTexts, c.sourceLanguage, c.targetLanguage, i);
  }

  // RemoveDuplicates

  /** `RemoveDuplicatesStep.execute`. */
  function DedupStep(c: ContextState): (r: ContextState)
    ensures r == c.(processedTexts := r.processedTexts, duplicatesRemoved := r.duplicatesRemoved)
    ensures forall x :: x in r.processedTexts <==> x in c.texts
    ensures Distinct(r.processedTexts)
    ensures r.duplicatesRemoved == |c.texts| - |r.processedTexts| >= 0
  {
    var unique := Dedup(c.texts);
    c.(processedTexts := unique, duplicatesRemoved := |c.texts| - |unique|)
  }

  /** Deduplicating texts that are already distinct keeps them and removes
      nothing. */
  lemma DedupStepOfDistinct(c: ContextState)
    requires Distinct(c.texts)
    ensures DedupStep(c).processedTexts == c.texts
    ensures DedupStep(c).duplicatesRemoved == 0
  {
    DedupOfDistinct(c.texts);
  }

  // RemoveSensitiveData

  /** `RemoveSensitiveDataStep.execute`. */
  function ScrubStep(p: Patterns, c: ContextState): (r: ContextState)
    ensures r == c.(processedTexts := r.processedTexts, hadSensitiveData := r.hadSensitiveData,
                    sensitiveDataRemoved := r.sensitiveDataRemoved)
    ensures |r.processedTexts| == |r.hadSensitiveData| == |c.processedTexts|
    ensures forall i :: 0 <= i < |c.processedTexts| ==>
      (r.processedTexts[i], r.hadSensitiveData[i]) == Scrub(p, c.processedTexts[i])
    ensures r.sensitiveDataRemoved == CountTrue(r.hadSensitiveData) <= |c.processedTexts|
  {
    var scrubbed := ScrubAll(p, c.processedTexts);
    c.(processedTexts := scrubbed.0, hadSensitiveData := scrubbed.1, sensitiveDataRemoved := CountTrue(scrubbed.1))
  }

  // CacheConsult

  /** One `get` per key, in order, each on the state the previous one left. */
  function ConsultAll(cache: CacheState, keys: seq<string>): (r: (seq<Option<string>>, CacheState))
    ensures |r.0| == |keys|
  {
    if keys == [] then ([], cache)
    else
      var prev := ConsultAll(cache, keys[..|keys| - 1]);
      var got := CacheGet(prev.1, keys[|keys| - 1]);
      (prev.0 + [got.0], got.1)
  }

  /** Each key reads what the cache held before the whole loop, and the
      promotions change nothing any later read can see. */
  lemma {:induction false} ConsultAllReads(cache: CacheState, keys: seq<string>)
    ensures var r := ConsultAll(cache, keys);
            (forall i :: 0 <= i < |keys| ==> r.0[i] == Lookup(cache, keys[i])) &&
            (forall k :: Lookup(r.1, k) == Lookup(cache, k)) &&
            r.1.l2 == cache.l2 && r.1.hasL1 == cache.hasL1 &&
            (Wf(cache) ==> Wf(r.1))
  {
    if keys != [] {
      var n := |keys| - 1;
      ConsultAllReads(cache, keys[..n]);
      var prev := ConsultAll(cache, keys[..n]);
      GetIsLookup(prev.1, keys[n]);
      var got := CacheGet(prev.1, keys[n]);
      var r := ConsultAll(cache, keys);
      assert r == (prev.0 + [got.0], got.1);
      forall i | 0 <= i < |keys| ensures r.0[i] == Lookup(cache, keys[i]) {
        if i < n {
          assert keys[..n][i] == keys[i];
        }
      }
    }
  }

  /** One more key is one more `get` on the state the others left. */
  lemma ConsultAllSnoc(cache: CacheState, keys: seq<string>, i: nat)
    requires i < |keys|
    ensures var prev := ConsultAll(cache, keys[..i]);
            var got := CacheGet(prev.1, keys[i]);
            ConsultAll(cache, keys[..i + 1]) == (prev.0 + [got.0], got.1)
  {
    assert keys[..i + 1][..i] == keys[..i];
  }

  function HitMask(ts: seq<Option<string>>): (m: seq<bool>)
    ensures |m| == |ts|
    ensures forall i :: 0 <= i < |ts| ==> m[i] == ts[i].Some?
  {
    seq(|ts|, i requires 0 <= i < |ts| => ts[i].Some?)
  }

  lemma HitMaskSnoc(ts: seq<Option<string>>, t: Option<string>)
    ensures HitMask(ts + [t]) == HitMask(ts) + [t.Some?]
  {
  }

  /** `CacheConsultStep.execute`: the new context and the cache after the
      reads. */
  function ConsultStep(c: ContextState, cache: CacheState): (r: (ContextState, CacheState))
    ensures r.0 == c.(translatedTexts := r.0.translatedTexts, fromCache := r.0.fromCache,
                      cacheHits := r.0.cacheHits, cacheMisses := r.0.cacheMisses)
    ensures Aligned(r.0)
    ensures forall i :: 0 <= i < |c.processedTexts| ==>
      r.0.translatedTexts[i] == Lookup(cache, Keys(c)[i]) &&
      (r.0.fromCache[i] <==> r.0.translatedTexts[i].Some?)
    ensures r.0.cacheHits == CountTrue(r.0.fromCache)
    ensures r.0.cacheHits + r.0.cacheMisses == |c.processedTexts|
    ensures forall k :: Lookup(r.1, k) == Lookup(cache, k)
    ensures r.1.l2 == cache.l2 && (Wf(cache) ==> Wf(r.1))
  {
    var got := ConsultAll(cache, Keys(c));
    ConsultAllReads(cache, Keys(c));
    var hits := HitMask(got.0);
    (c.(translatedTexts := got.0, fromCache := hits, cacheHits := CountTrue(hits), cacheMisses := CountFalse(hits)), got.1)
  }

  // Translation

  /** `TranslationPort.translate(texts, source, target, type)`. */
  type Port = (seq<string>, string, string, TranslationType) -> seq<string>

  /** The port as the pipeline sees it through the adapter: the strategy's
      result, or the input texts when the call fails. */
  function AdapterPort(a: Adapter.TranslationAdapter): Port {
    (texts, src, tgt, t) => Adapter.ResilientTranslate(a, texts, src, tgt, t)
  }

  ghost predicate PreservesLength(port: Port) {
    forall texts, src, tgt, t :: |port(texts, src, tgt, t)| == |texts|
  }

  function MissMask(ts: seq<Option<string>>): (m: seq<bool>)
    ensures |m| == |ts|
    ensures forall i :: 0 <= i < |ts| ==> m[i] == ts[i].None?
  {
    seq(|ts|, i requires 0 <= i < |ts| => ts[i].None?)
  }

  /** The null slots, in increasing order. */
  function MissingIndices(ts: seq<Option<string>>): (ps: seq<nat>)
    ensures forall k :: 0 <= k < |ps| ==> ps[k] < |ts| && ts[ps[k]].None?
    ensures forall k, l :: 0 <= k < l < |ps| ==> ps[k] < ps[l]
    ensures forall i :: 0 <= i < |ts| && ts[i].None? ==> i in ps
  {
    Positions(MissMask(ts))
  }

  /** The texts at the given indices, in that order. */
  function Gather(texts: seq<string>, ps: seq<nat>): (r: seq<string>)
    requires forall k :: 0 <= k < |ps| ==> ps[k] < |texts|
    ensures |r| == |ps|
    ensures forall k :: 0 <= k < |ps| ==> r[k] == texts[ps[k]]
  {
    seq(|ps|, k requires 0 <= k < |ps| => texts[ps[k]])
  }

  lemma GatherSnoc(texts: seq<string>, ps: seq<nat>, i: nat)
    requires forall k :: 0 <= k < |ps| ==> ps[k] < |texts|
    requires i < |texts|
    ensures Gather(texts, ps + [i]) == Gather(texts, ps) + [texts[i]]
  {
  }

  /** The write-back loop after `n` rounds: `translations[k]` into slot
      `ps[k]`. */
  function WriteBack(ts: seq<Option<string>>, ps: seq<nat>, translations: seq<string>, n: nat): (r: seq<Option<string>>)
    requires n <= |ps| && n <= |translations|
    requires forall k :: 0 <= k < |ps| ==> ps[k] < |ts|
    requires forall k, l :: 0 <= k < l < |ps| ==> ps[k] < ps[l]
    ensures |r| == |ts|
    ensures forall k :: 0 <= k < n ==> r[ps[k]] == Some(translations[k])
    ensures forall i :: 0 <= i < |ts| && i !in ps[..n] ==> r[i] == ts[i]
  {
    if n == 0 then ts
    else
      assert ps[..n] == ps[..n - 1] + [ps[n - 1]];
      WriteBack(ts, ps, translations, n - 1)[ps[n - 1] := Some(translations[n - 1])]
  }

  /** `TranslationStep.execute`: one batch call for the null slots, whose
      results are written back in place. A null slot past the processed
      texts, or fewer results than slots, is an index error. */
  function TranslateStep(port: Port, c: ContextState): (r: Result<ContextState, Error>)
    ensures r.Err? ==> r.error == IndexOutOfBounds
    ensures r.Ok? ==> r.value == c.(translatedTexts := r.value.translatedTexts)
    ensures r.Ok? ==> |r.value.translatedTexts| == |c.translatedTexts| && Filled(r.value.translatedTexts)
    ensures r.Ok? ==> forall i :: 0 <= i < |c.translatedTexts| && c.translatedTexts[i].Some? ==>
      r.value.translatedTexts[i] == c.translatedTexts[i]
  {
    var ps := MissingIndices(c.translatedTexts);
    if exists k :: 0 <= k < |ps| && ps[k] >= |c.processedTexts| then Err(IndexOutOfBounds)
    else if ps == [] then Ok(c)
    else
      var translations := port(Gather(c.processedTexts, ps), c.sourceLanguage, c.targetLanguage, c.ttype);
      if |translations| < |ps| then Err(IndexOutOfBounds)
      else
        assert ps[..|ps|] == ps;
        Ok(c.(translatedTexts := WriteBack(c.translatedTexts, ps, translations, |ps|)))
  }

  /** What the translation step does with each slot, when the slots are
      aligned with the processed texts: the port receives exactly the texts
      at the null slots, in index order; the k-th result fills the k-th null
      slot; the step fails only when the port returns too few results; with
      no null slot the port is not called and nothing changes. */
  lemma TranslateStepFills(port: Port, c: ContextState)
    requires |c.translatedTexts| <= |c.processedTexts|
    ensures var ps := MissingIndices(c.translatedTexts);
      var sent := Gather(c.processedTexts, ps);
      var got := port(sent, c.sourceLanguage, c.targetLanguage, c.ttype);
      && (ps == [] ==> TranslateStep(port, c) == Ok(c))
      && (ps != [] ==> (TranslateStep(port, c).Err? <==> |got| < |ps|))
      && (TranslateStep(port, c).Ok? ==>
            forall k :: 0 <= k < |ps| ==> TranslateStep(port, c).value.translatedTexts[ps[k]] == Some(got[k]))
  {
  }

  /** A port that answers every text leaves no slot unfilled. */
  lemma TranslateStepWithTotalPort(port: Port, c: ContextState)
    requires |c.translatedTexts| <= |c.processedTexts| && PreservesLength(port)
    ensures TranslateStep(port, c).Ok?
  {
    var ps := MissingIndices(c.translatedTexts);
    if ps != [] {
      assert |port(Gather(c.processedTexts, ps), c.sourceLanguage, c.targetLanguage, c.ttype)| == |ps|;
    }
  }

  // CacheSave

  /** The save loop after its first `n` rounds: the cache it has written,
      and the failure that stopped it, if any. A round on a text that came
      from the cache does nothing; any other writes the translation under
      the text's key, `ks[i]` for the text at `i`. A null translation is
      refused by the store. */
  function SaveAll(cache: CacheState, c: ContextState, ks: seq<string>, n: nat): (r: (CacheState, Option<Error>))
    requires n <= |ks|
    ensures r.0.hasL1 == cache.hasL1 && (Wf(cache) ==> Wf(r.0))
    ensures r.1 == None || r.1 == Some(IndexOutOfBounds) || r.1 == Some(ProviderFailure)
  {
    if n == 0 then (cache, None)
    else
      var prev := SaveAll(cache, c, ks, n - 1);
      var i := n - 1;
      if prev.1.Some? then prev
      else if i >= |c.fromCache| then (prev.0, Some(IndexOutOfBounds))
      else if c.fromCache[i] then prev
      else if i >= |c.translatedTexts| then (prev.0, Some(IndexOutOfBounds))
      else match c.translatedTexts[i]
        case None => (prev.0, Some(ProviderFailure))
        case Some(v) => (CachePut(prev.0, ks[i], v), None)
  }

  /** `CacheSaveStep.execute`; the context itself is returned unchanged. */
  function SaveStep(c: ContextState, cache: CacheState): (CacheState, Option<Error>) {
    SaveAll(cache, c, Keys(c), |c.processedTexts|)
  }

  /** On an aligned, filled context the save loop cannot fail; a key no
      round writes reads as before, and the last round that writes a key
      decides what it reads afterwards. */
  lemma {:induction false} SaveAllWrites(cache: CacheState, c: ContextState, ks: seq<string>, n: nat)
    requires Aligned(c) && Filled(c.translatedTexts) && n <= |ks| == |c.processedTexts|
    ensures SaveAll(cache, c, ks, n).1 == None
    ensures forall key :: (forall i :: 0 <= i < n && !c.fromCache[i] ==> ks[i] != key) ==>
      Lookup(SaveAll(cache, c, ks, n).0, key) == Lookup(cache, key)
    ensures forall i :: (0 <= i < n && !c.fromCache[i] &&
        forall j :: i < j < n && !c.fromCache[j] ==> ks[j] != ks[i]) ==>
      Lookup(SaveAll(cache, c, ks, n).0, ks[i]) == c.translatedTexts[i]
  {
    if n > 0 {
      var m := n - 1;
      SaveAllWrites(cache, c, ks, m);
      SaveRoundWrites(cache, c, ks, m);
      var prev := SaveAll(cache, c, ks, m).0;
      var now := SaveAll(cache, c, ks, n).0;
      forall key | forall i :: 0 <= i < n && !c.fromCache[i] ==> ks[i] != key
        ensures Lookup(now, key) == Lookup(cache, key)
      {
        assert forall i :: 0 <= i < m && !c.fromCache[i] ==> ks[i] != key;
        assert Lookup(now, key) == Lookup(prev, key);
      }
      forall i | 0 <= i < n && !c.fromCache[i] && forall j :: i < j < n && !c.fromCache[j] ==> ks[j] != ks[i]
        ensures Lookup(now, ks[i]) == c.translatedTexts[i]
      {
        if i < m {
          assert forall j :: i < j < m && !c.fromCache[j] ==> ks[j] != ks[i];
          assert Lookup(now, ks[i]) == Lookup(prev, ks[i]);
        }
      }
    }
  }

  /** One round of the save loop on an aligned, filled context, after
      rounds that did not fail: it does not fail either, it leaves every
      other key alone, and a text not from the cache reads its translation. */
  lemma SaveRoundWrites(cache: CacheState, c: ContextState, ks: seq<string>, m: nat)
    requires Aligned(c) && Filled(c.translatedTexts) && m < |ks| == |c.processedTexts|
    requires SaveAll(cache, c, ks, m).1 == None
    ensures SaveAll(cache, c, ks, m + 1).1 == None
    ensures forall key :: (c.fromCache[m] || key != ks[m]) ==>
      Lookup(SaveAll(cache, c, ks, m + 1).0, key) == Lookup(SaveAll(cache, c, ks, m).0, key)
    ensures !c.fromCache[m] ==> Lookup(SaveAll(cache, c, ks, m + 1).0, ks[m]) == c.translatedTexts[m]
  {
    var prev := SaveAll(cache, c, ks, m).0;
    assert c.translatedTexts[m].Some?;
    if !c.fromCache[m] {
      GetAfterPut(prev, ks[m], c.translatedTexts[m].value);
    }
  }

  /** Texts whose keys are pairwise different. */
  predicate KeysDistinct(c: ContextState) {
    forall i, j :: 0 <= i < j < |c.processedTexts| ==> Keys(c)[i] != Keys(c)[j]
  }

  /** A context whose cached slots hold what the cache holds for their keys,
      as the consult step leaves it. */
  predicate HitsAgreeWith(c: ContextState, cache: CacheState)
    requires Aligned(c)
  {
    forall i :: 0 <= i < |c.processedTexts| && c.fromCache[i] ==>
      c.translatedTexts[i] == Lookup(cache, Keys(c)[i])
  }

  /** Round trip: after saving, consulting again with the same texts and
      languages finds every text, with the value the context holds. */
  lemma SaveThenConsultHitsAll(c: ContextState, cache: CacheState)
    requires Aligned(c) && Filled(c.translatedTexts) && KeysDistinct(c) && HitsAgreeWith(c, cache)
    ensures SaveStep(c, cache).1 == None
    ensures ConsultAll(SaveStep(c, cache).0, Keys(c)).0 == c.translatedTexts
  {
    var n := |c.processedTexts|;
    SaveAllWrites(cache, c, Keys(c), n);
    var saved := SaveStep(c, cache).0;
    var again := ConsultAll(saved, Keys(c)).0;
    ConsultAllReads(saved, Keys(c));
    forall i | 0 <= i < n ensures again[i] == c.translatedTexts[i] {
      var key := Keys(c)[i];
      if c.fromCache[i] {
        assert forall j :: 0 <= j < n && !c.fromCache[j] ==> Keys(c)[j] != key by {
          forall j | 0 <= j < n && !c.fromCache[j] ensures Keys(c)[j] != key {
            assert i != j;
          }
        }
      }
    }
  }

  /** Two texts with equal hash codes share a key: after one request with
      both, the cache answers the first text with the second one's
      translation. */
  lemma CollidingTextsShareEntry(c: ContextState, cache: CacheState, x: string, y: string)
    requires c.processedTexts == ["Aa", "BB"] && c.fromCache == [false, false]
    requires c.translatedTexts == [Some(x), Some(y)]
    ensures SaveStep(c, cache).1 == None
    ensures Lookup(SaveStep(c, cache).0, Key(c, "Aa")) == Some(y)
  {
    HashCollisionSharesKey(c.sourceLanguage, c.targetLanguage);
    KeysAt(c, 0);
    KeysAt(c, 1);
    SaveAllWrites(cache, c, Keys(c), 2);
    assert c.processedTexts[1] == "BB";
  }

  // The pipeline

  datatype StepKind = RemoveDuplicates | RemoveSensitiveData | CacheConsult | Translation | CacheSave | LogMetrics

  /** `getStepName()` of each step. */
  function StepName(k: StepKind): string {
    match k
    case RemoveDuplicates => "RemoveDuplicates"
    case RemoveSensitiveData => "RemoveSensitiveData"
    case CacheConsult => "CacheConsult"
    case Translation => "Translation"
    case CacheSave => "CacheSave"
    case LogMetrics => "Log"
  }

  /** The fixed step list. */
  const Steps: seq<StepKind> := [RemoveDuplicates, RemoveSensitiveData, CacheConsult, Translation, CacheSave, LogMetrics]

  /** The names of a step list, in order. */
  function StepNames(ks: seq<StepKind>): (names: seq<string>)
    ensures |names| == |ks|
    ensures forall i :: 0 <= i < |ks| ==> names[i] == StepName(ks[i])
  {
    if ks == [] then [] else StepNames(ks[..|ks| - 1]) + [StepName(ks[|ks| - 1])]
  }

  /** `getStepNames()` of the fixed list: six distinct names, in the order
      the steps run. */
  lemma StepNamesInOrder()
    ensures StepNames(Steps) == ["RemoveDuplicates", "RemoveSensitiveData", "CacheConsult", "Translation", "CacheSave", "Log"]
    ensures forall i, j :: 0 <= i < j < |Steps| ==> StepNames(Steps)[i] != StepNames(Steps)[j]
  {
    StepNamesOfSteps();
    var names := StepNames(Steps);
    var lengths := [16, 19, 12, 11, 9, 3];
    assert forall i :: 0 <= i < 6 ==> |names[i]| == lengths[i];
  }

  lemma StepNamesOfSteps()
    ensures StepNames(Steps) == ["RemoveDuplicates", "RemoveSensitiveData", "CacheConsult", "Translation", "CacheSave", "Log"]
  {
    var names := StepNames(Steps);
    assert names[0] == "RemoveDuplicates" && names[1] == "RemoveSensitiveData" && names[2] == "CacheConsult";
    assert names[3] == "Translation" && names[4] == "CacheSave" && names[5] == "Log";
  }

  /** What the steps are wired to: the detectors and the translation port. */
  datatype Env = Env(patterns: Patterns, port: Port)

  /** The context, the cache, and the exception that stopped the run. */
  datatype RunState = RunState(context: ContextState, cache: CacheState, failure: Option<Error>)

  /** One round of the pipeline loop; a step's exception becomes
      "Pipeline failed at step: <name>" and later rounds do nothing. */
  function ApplyStep(env: Env, k: StepKind, s: RunState): (r: RunState)
    ensures s.failure.Some? ==> r == s
    ensures s.failure.None? && r.failure.Some? ==>
      r.failure.value.PipelineFailure? && r.failure.value.step == StepName(k)
    ensures k in {RemoveDuplicates, RemoveSensitiveData, CacheConsult, LogMetrics} ==> r.failure == s.failure
  {
    if s.failure.Some? then s
    else match k
      case RemoveDuplicates => s.(context := DedupStep(s.context))
      case RemoveSensitiveData => s.(context := ScrubStep(env.patterns, s.context))
      case CacheConsult =>
        var r := ConsultStep(s.context, s.cache);
        s.(context := r.0, cache := r.1)
      case Translation =>
        (match TranslateStep(env.port, s.context)
         case Ok(c) => s.(context := c)
         case Err(e) => s.(failure := Some(PipelineFailure(StepName(k), e))))
      case CacheSave =>
        var r := SaveStep(s.context, s.cache);
        if r.1.Some? then s.(cache := r.0, failure := Some(PipelineFailure(StepName(k), r.1.value)))
        else s.(cache := r.0)
      case LogMetrics => s
  }

  /** The loop over `ks`, in order. */
  function Run(env: Env, s: RunState, ks: seq<StepKind>): RunState {
    if ks == [] then s else ApplyStep(env, ks[|ks| - 1], Run(env, s, ks[..|ks| - 1]))
  }

  /** `TranslationPipeline.execute`: `startTime` is set, then the six steps
      run in order. */
  function RunPipeline(env: Env, ctx: ContextState, cache: CacheState, now: int): RunState {
    Run(env, RunState(ctx.(startTime := now), cache, None), Steps)
  }

  /** Once a step has failed, no later step changes anything. */
  lemma {:induction false} RunStopsAtFailure(env: Env, s: RunState, ks: seq<StepKind>)
    requires s.failure.Some?
    ensures Run(env, s, ks) == s
  {
    if ks != [] {
      RunStopsAtFailure(env, s, ks[..|ks| - 1]);
    }
  }

  /** Running `a` then `b` is running `a + b`. */
  lemma {:induction false} RunAppend(env: Env, s: RunState, a: seq<StepKind>, b: seq<StepKind>)
    ensures Run(env, s, a + b) == Run(env, Run(env, s, a), b)
  {
    if b == [] {
      assert a + b == a;
    } else {
      assert (a + b)[..|a + b| - 1] == a + b[..|b| - 1];
      RunAppend(env, s, a, b[..|b| - 1]);
    }
  }

  /** Appending one step to the loop applies it to the loop's result. */
  lemma RunSnoc(env: Env, s: RunState, ks: seq<StepKind>, k: StepKind)
    ensures Run(env, s, ks + [k]) == ApplyStep(env, k, Run(env, s, ks))
  {
    assert (ks + [k])[..|ks|] == ks;
  }

  /** Round `i` of the loop applies step `ks[i]` to the run of the steps
      before it. */
  lemma RunPrefixStep(env: Env, s: RunState, ks: seq<StepKind>, i: nat)
    requires i < |ks|
    ensures Run(env, s, ks[..i + 1]) == ApplyStep(env, ks[i], Run(env, s, ks[..i]))
  {
    assert ks[..i + 1][..i] == ks[..i];
  }

  /** When round `i` fails, the whole loop ends in the state it left. */
  lemma RunFailsAt(env: Env, s: RunState, ks: seq<StepKind>, i: nat)
    requires i < |ks|
    requires Run(env, s, ks[..i + 1]).failure.Some?
    ensures Run(env, s, ks) == Run(env, s, ks[..i + 1])
  {
    RunAppend(env, s, ks[..i + 1], ks[i + 1..]);
    RunStopsAtFailure(env, Run(env, s, ks[..i + 1]), ks[i + 1..]);
    assert ks[..i + 1] + ks[i + 1..] == ks;
  }

  /** A loop over six steps applies them one after another. */
  lemma RunOfSix(env: Env, s: RunState, ks: seq<StepKind>)
    requires |ks| == 6
    ensures Run(env, s, ks) ==
      ApplyStep(env, ks[5], ApplyStep(env, ks[4], ApplyStep(env, ks[3],
        ApplyStep(env, ks[2], ApplyStep(env, ks[1], ApplyStep(env, ks[0], s))))))
  {
    assert ks[..0] == [];
    RunPrefixStep(env, s, ks, 0);
    RunPrefixStep(env, s, ks, 1);
    RunPrefixStep(env, s, ks, 2);
    RunPrefixStep(env, s, ks, 3);
    RunPrefixStep(env, s, ks, 4);
    RunPrefixStep(env, s, ks, 5);
    assert ks[..6] == ks;
  }

  /** The pipeline is the six steps applied one after another. */
  lemma RunPipelineSteps(env: Env, ctx: ContextState, cache: CacheState, now: int)
    ensures RunPipeline(env, ctx, cache, now) ==
      ApplyStep(env, LogMetrics, ApplyStep(env, CacheSave, ApplyStep(env, Translation,
        ApplyStep(env, CacheConsult, ApplyStep(env, RemoveSensitiveData, ApplyStep(env, RemoveDuplicates,
          RunState(ctx.(startTime := now), cache, None)))))))
  {
    RunOfSix(env, RunState(ctx.(startTime := now), cache, None), Steps);
  }

  /** The first three steps cannot fail: they deduplicate, scrub and
      consult. */
  lemma FirstThreeSteps(env: Env, s: RunState)
    requires s.failure == None
    ensures var c2 := ScrubStep(env.patterns, DedupStep(s.context));
      ApplyStep(env, CacheConsult, ApplyStep(env, RemoveSensitiveData, ApplyStep(env, RemoveDuplicates, s)))
        == RunState(ConsultStep(c2, s.cache).0, ConsultStep(c2, s.cache).1, None)
  {
  }

  /** The last three steps: a translation failure stops the run there;
      otherwise the save step runs and the log step changes nothing. */
  lemma LastThreeSteps(env: Env, s: RunState)
    requires s.failure == None
    ensures var t := TranslateStep(env.port, s.context);
      var r := ApplyStep(env, LogMetrics, ApplyStep(env, CacheSave, ApplyStep(env, Translation, s)));
      && (t.Err? ==> r == s.(failure := Some(PipelineFailure("Translation", t.error))))
      && (t.Ok? ==> var saved := SaveStep(t.value, s.cache);
            r.context == t.value && r.cache == saved.0 &&
            (saved.1 == None ==> r.failure == None))
  {
  }

  /** The run is the first three steps, then the last three. */
  lemma RunPipelineStages(env: Env, ctx: ContextState, cache: CacheState, now: int)
    ensures var s0 := RunState(ctx.(startTime := now), cache, None);
      var c2 := ScrubStep(env.patterns, DedupStep(s0.context));
      var s3 := RunState(ConsultStep(c2, cache).0, ConsultStep(c2, cache).1, None);
      RunPipeline(env, ctx, cache, now) ==
        ApplyStep(env, LogMetrics, ApplyStep(env, CacheSave, ApplyStep(env, Translation, s3)))
  {
    RunPipelineSteps(env, ctx, cache, now);
    FirstThreeSteps(env, RunState(ctx.(startTime := now), cache, None));
  }

  /** With a port that answers every text, the run is: deduplicate, scrub,
      consult, a translation that succeeds, and a save that succeeds. */
  lemma PipelineOutcome(env: Env, ctx: ContextState, cache: CacheState, now: int)
    requires PreservesLength(env.port)
    ensures var c2 := ScrubStep(env.patterns, DedupStep(ctx.(startTime := now)));
      var consulted := ConsultStep(c2, cache);
      var t := TranslateStep(env.port, consulted.0);
      var r := RunPipeline(env, ctx, cache, now);
      t.Ok? && r.failure == None && r.context == t.value && r.cache == SaveStep(t.value, consulted.1).0
  {
    var c2 := ScrubStep(env.patterns, DedupStep(ctx.(startTime := now)));
    var consulted := ConsultStep(c2, cache);
    RunPipelineStages(env, ctx, cache, now);
    LastThreeSteps(env, RunState(consulted.0, consulted.1, None));
    TranslateStepWithTotalPort(env.port, consulted.0);
    var c4 := TranslateStep(env.port, consulted.0).value;
    SaveAllWrites(consulted.1, c4, Keys(c4), |c4.processedTexts|);
  }

  /** Consulting and then translating with a port that answers every text
      leaves the texts and languages alone, fills every slot, and keeps the
      hits the consult step found, with the cached values. */
  lemma ConsultThenTranslate(port: Port, c2: ContextState, cache: CacheState)
    requires PreservesLength(port)
    ensures var consulted := ConsultStep(c2, cache);
      var t := TranslateStep(port, consulted.0);
      t.Ok? &&
      var c4 := t.value;
      && c4 == c2.(translatedTexts := c4.translatedTexts, fromCache := c4.fromCache,
                   cacheHits := c4.cacheHits, cacheMisses := c4.cacheMisses)
      && Aligned(c4) && Filled(c4.translatedTexts)
      && c4.cacheHits == CountTrue(c4.fromCache) && c4.cacheHits + c4.cacheMisses == |c4.processedTexts|
      && (forall i :: 0 <= i < |c4.processedTexts| ==>
            (c4.fromCache[i] <==> Lookup(cache, Keys(c4)[i]).Some?))
      && HitsAgreeWith(c4, cache)
  {
    var consulted := ConsultStep(c2, cache);
    TranslateStepWithTotalPort(port, consulted.0);
    var c4 := TranslateStep(port, consulted.0).value;
    assert Keys(c4) == Keys(c2);
  }

  /** With a port that answers every text, the run ends with the scrubbed
      distinct texts. */
  lemma PipelineProcessedTexts(env: Env, ctx: ContextState, cache: CacheState, now: int)
    requires PreservesLength(env.port)
    ensures RunPipeline(env, ctx, cache, now).context.processedTexts == ScrubAll(env.patterns, Dedup(ctx.texts)).0
  {
    var c2 := ScrubStep(env.patterns, DedupStep(ctx.(startTime := now)));
    PipelineOutcome(env, ctx, cache, now);
    ConsultThenTranslate(env.port, c2, cache);
  }

  /** With a port that answers every text, the run succeeds. The final
      context holds the scrubbed distinct texts, aligned lists with every slot
      filled, hits exactly where the cache had the text's key (with the
      cached value), and counters that match the lists; the request part and
      the start time are as set. */
  lemma PipelineSucceeds(env: Env, ctx: ContextState, cache: CacheState, now: int)
    requires PreservesLength(env.port)
    ensures var r := RunPipeline(env, ctx, cache, now);
      var c := r.context;
      && r.failure == None
      && c.texts == ctx.texts && c.sourceLanguage == ctx.sourceLanguage && c.targetLanguage == ctx.targetLanguage
      && c.ttype == ctx.ttype && c.fileContent == ctx.fileContent && c.startTime == now
      && c.processedTexts == ScrubAll(env.patterns, Dedup(ctx.texts)).0
      && c.hadSensitiveData == ScrubAll(env.patterns, Dedup(ctx.texts)).1
      && c.duplicatesRemoved == |ctx.texts| - |Dedup(ctx.texts)|
      && c.sensitiveDataRemoved == CountTrue(c.hadSensitiveData)
      && Aligned(c) && Filled(c.translatedTexts)
      && c.cacheHits == CountTrue(c.fromCache) && c.cacheHits + c.cacheMisses == |c.processedTexts|
      && (forall i :: 0 <= i < |c.processedTexts| ==>
            (c.fromCache[i] <==> Lookup(cache, Keys(c)[i]).Some?))
      && HitsAgreeWith(c, cache)
  {
    var c2 := ScrubStep(env.patterns, DedupStep(ctx.(startTime := now)));
    PipelineOutcome(env, ctx, cache, now);
    ConsultThenTranslate(env.port, c2, cache);
  }

  /** With a port that answers every text and texts whose keys differ, the
      cache the run leaves answers a second consult of the same texts with
      the translations the run produced. */
  lemma PipelineCacheRoundTrip(env: Env, ctx: ContextState, cache: CacheState, now: int)
    requires PreservesLength(env.port)
    requires KeysDistinct(RunPipeline(env, ctx, cache, now).context)
    ensures var r := RunPipeline(env, ctx, cache, now);
      ConsultAll(r.cache, Keys(r.context)).0 == r.context.translatedTexts
  {
    var c2 := ScrubStep(env.patterns, DedupStep(ctx.(startTime := now)));
    var consulted := ConsultStep(c2, cache);
    PipelineOutcome(env, ctx, cache, now);
    ConsultThenTranslate(env.port, c2, cache);
    var c4 := TranslateStep(env.port, consulted.0).value;
    assert HitsAgreeWith(c4, consulted.1);
    SaveThenConsultHitsAll(c4, consulted.1);
  }

  /** Whatever the port does, the only way the run can fail is an index
      error in the translation step, raised when the port returns fewer
      results than texts it was sent. */
  lemma PipelineFailsOnlyInTranslation(env: Env, ctx: ContextState, cache: CacheState, now: int)
    ensures var r := RunPipeline(env, ctx, cache, now);
      r.failure == None || r.failure == Some(PipelineFailure("Translation", IndexOutOfBounds))
  {
    var s0 := RunState(ctx.(startTime := now), cache, None);
    var c2 := ScrubStep(env.patterns, DedupStep(s0.context));
    var consulted := ConsultStep(c2, cache);
    var s3 := RunState(consulted.0, consulted.1, None);
    RunPipelineStages(env, ctx, cache, now);
    LastThreeSteps(env, s3);
    var t := TranslateStep(env.port, consulted.0);
    if t.Ok? {
      SaveAllWrites(consulted.1, t.value, Keys(t.value), |t.value.processedTexts|);
    }
  }

  /** Through the adapter, whose fallback answers every text, the run never
      fails. */
  lemma AdapterPipelineSucceeds(a: Adapter.TranslationAdapter, p: Patterns, ctx: ContextState, cache: CacheState, now: int)
    ensures RunPipeline(Env(p, AdapterPort(a)), ctx, cache, now).failure == None
  {
    assert PreservesLength(AdapterPort(a)) by {
      forall texts, src, tgt, t ensures |AdapterPort(a)(texts, src, tgt, t)| == |texts| {
      }
    }
    PipelineSucceeds(Env(p, AdapterPort(a)), ctx, cache, now);
  }
}
