# Translation request path, modelled in Dafny

This project models the core of a Spring Boot translation service. A
`TranslationRequest` carries a list of texts, a source and a target
language and a content type. It first goes through a chain of
responsibility of four validators: required fields, sizes, languages and
format. It then runs through a fixed pipeline of six steps over a mutable
`TranslationContext`:

1. remove duplicates, keeping first occurrences in order;
2. scrub sensitive data (CPF, CNPJ, e-mail, phone and card patterns);
3. consult a two-level cache (a local L1 in front of a shared L2);
4. translate the cache misses through the translation port;
5. save the fresh translations in the cache;
6. log.

The service then projects the context into a response with per-text
results and metadata. Behind the translation port sit the adapter, the
strategy factory and four strategies (text, document, image, HTML). The
adapter catches every failure and falls back to the input.

The model has two layers:

- **Value layer.** Datatypes, functions and lemmas. `CacheState` and the
  `Cache...` functions describe the cache adapter. `DedupStep`,
  `ScrubStep`, `ConsultStep`, `TranslateStep` and `SaveStep` describe the
  steps. `Run`/`RunPipeline` run the step list, and `ServiceTranslate`
  handles a whole request.
- **Object layer.** Classes whose fields the source updates in place:
  `TranslationContext`, `MultiLevelCache`, `ValidationHandler`/`ValidationChain`,
  the fixed `TranslationPipeline`, the generic `RequestPipeline` and
  `TranslationService`. Every method's postcondition ties its new state
  and its result to the value layer. The loops of the source (the
  scrubbing loop, the consult/collect/write-back/save loops, chunking,
  the strategies' per-text loops, the `LinkedHashSet` copy and the
  response builder) are methods with loop invariants.

Java modelling choices:

- **Null.** A Java `null` is `Option.None`.
- **Exceptions.** Exceptions are the `Error` datatype. A failing step is
  wrapped as `PipelineFailure(stepName, cause)`.
- **Hash codes and cache keys.** `String.hashCode` is written out over
  UTF-16 code units with 32-bit wrap-around. This makes the cache key
  `source:target:hash` concrete, so hash collisions ("Aa" and "BB")
  can be shown.
- **Collaborators as parameters.** Regular expressions, the vendor
  clients (AWS Translate, Tika, Bedrock, jsoup), the platform charset and
  the clock are parameters of the model.

## Model

| member | source | states |
|---|---|---|
| TranslationTypes.FindTypeFirstMatch | src/main/java/com/translation/domain/model/TranslationType.java:19-28 | the nested search returns the first constant, in declaration order, whose list holds the MIME string ignoring case |
| TranslationTypes.FromMimeType | src/main/java/com/translation/domain/model/TranslationType.java:19-28 | `fromMimeType`; stated by FindTypeFirstMatch, FindTypeNoMatch, NullMimeIsText, FromMimeTypeIgnoresCase and MimeRoundTrip |
| TranslationTypes.FindTypeNoMatch | src/main/java/com/translation/domain/model/TranslationType.java:19-28 | when no constant lists the MIME string, the search falls through to TEXT |
| TranslationTypes.NullMimeIsText | src/main/java/com/translation/domain/model/TranslationType.java:19-28 | a null MIME string maps to TEXT (`equalsIgnoreCase(null)` is false) |
| TranslationTypes.FromMimeTypeIgnoresCase | src/main/java/com/translation/domain/model/TranslationType.java:22 | two MIME strings equal up to case map to the same type |
| TranslationTypes.FindTypeRespects | src/main/java/com/translation/domain/model/TranslationType.java:20-27 | the search depends only on which constants list the MIME string |
| TranslationTypes.MimeRoundTrip | src/main/java/com/translation/domain/model/TranslationType.java:4-7 | every declared MIME string maps back to the constant declaring it |
| TranslationTypes.MimeSignature | src/main/java/com/translation/domain/model/TranslationType.java:4-7 | the declared MIME strings of each constant share a first (and for text/ a sixth) character |
| TranslationTypes.DistinctMimes | src/main/java/com/translation/domain/model/TranslationType.java:4-7 | no MIME string is declared by two constants, even up to case |
| TranslationTypes.UpperCasePngIsImage | src/main/java/com/translation/domain/model/TranslationType.java:22 | "IMAGE/PNG" maps to IMAGE |
| Common.LowerIdempotent | src/main/java/com/translation/infrastructure/adapter/TranslationAdapter.java:65 | lower-casing twice is lower-casing once |
| Validators.RequiredFields | src/main/java/com/translation/domain/validator/RequiredFieldsValidator.java:16-37 | passes exactly when the request, a non-empty text list, non-blank source and target languages and a type are all present; otherwise fails with the invalid-input error naming the first missing one, in that order |
| Validators.FirstBadText | src/main/java/com/translation/domain/validator/SizeValidator.java:31-41 | reports nothing exactly when every text is present and at most 10000 long; otherwise the first null or over-long index |
| Validators.SizeBoundaries | src/main/java/com/translation/domain/validator/SizeValidator.java:24-48 | more than 1000 texts fails with the count; the check passes exactly at <= 1000 texts, each <= 10000 long, file <= 10 MB |
| Validators.Size | src/main/java/com/translation/domain/validator/SizeValidator.java:24-48 | the size check; stated by SizeBoundaries and FirstBadText |
| Validators.Language | src/main/java/com/translation/domain/validator/LanguageValidator.java:21-45 | an unsupported-language failure happens only when both codes are present; the reasons are stated by LanguageFailureReasons |
| Validators.LanguageFailureReasons | src/main/java/com/translation/domain/validator/LanguageValidator.java:24-45 | an unsupported source is reported first, with its lower-cased code, and the target is then not looked at; an unsupported target is reported next, lower-cased; codes equal ignoring case are reported last as the same language |
| Validators.LanguagePassesIff | src/main/java/com/translation/domain/validator/LanguageValidator.java:21-45 | passes exactly when both lower-cased codes are supported and differ |
| Validators.SameLanguageIgnoresCase | src/main/java/com/translation/domain/validator/LanguageValidator.java:40-43 | "EN" to "en" is rejected as the same language |
| Validators.HtmlScan | src/main/java/com/translation/domain/validator/FormatValidator.java:44-45 | the tag scan never fails when every text is present; when it does fail, it is a null dereference |
| Validators.FormatPassesIff | src/main/java/com/translation/domain/validator/FormatValidator.java:27-55 | with all texts present, only DOCUMENT and IMAGE are checked, for non-empty content and a non-blank content type |
| Validators.HtmlWithoutTagsPasses | src/main/java/com/translation/domain/validator/FormatValidator.java:47-49 | an HTML request without tags only logs a warning and passes |
| Validators.Format | src/main/java/com/translation/domain/validator/FormatValidator.java:27-55 | the format check; stated by FormatPassesIff, FormatFailureReasons, HtmlScan and HtmlWithoutTagsPasses |
| Validators.FormatFailureReasons | src/main/java/com/translation/domain/validator/FormatValidator.java:28-39 | a DOCUMENT or IMAGE request without file content fails with the missing-content error naming its type; with content but a null or blank content type it fails with the missing-content-type error |
| Validators.RunChainFirstFailure | src/main/java/com/translation/domain/validator/AbstractValidationHandler.java:20-26 | a chain passes exactly when every handler passes, and otherwise fails with the first failing handler's error |
| Validators.ValidateIsConjunction | src/main/java/com/translation/domain/validator/ValidationChain.java:23-28 | the wired chain passes exactly when all four checks pass |
| Validators.ValidateIffAcceptable | src/main/java/com/translation/domain/validator/ValidationChain.java:36-40 | the chain accepts exactly the requests satisfying the field-by-field description `Acceptable` |
| Validators.Validate | src/main/java/com/translation/domain/validator/ValidationChain.java:36-40 | the chain Required, Size, Language, Format; stated by ValidateIsConjunction and ValidateIffAcceptable |
| Validators.BlankUnsupported | src/main/java/com/translation/domain/validator/LanguageValidator.java:24-38 | a blank language code is never supported |
| Validators.ChainNeverDereferencesNull | src/main/java/com/translation/domain/validator/ValidationChain.java:23-28 | in chain order, a failure is always an invalid-input or unsupported-language error, never a null dereference |
| Validators.MissingTextsReportedBeforeSize | src/main/java/com/translation/domain/validator/RequiredFieldsValidator.java:23-25 | a request with null or empty texts fails with the missing-texts error first |
| Validators.BinaryRequestWithoutTextsRejected | src/main/java/com/translation/domain/validator/RequiredFieldsValidator.java:23-25 | a document or image request with an empty text list is rejected even with valid file content |
| ValidationChains.ValidationHandler.constructor | src/main/java/com/translation/domain/validator/AbstractValidationHandler.java:9-11 | a new handler has its kind and no successor |
| ValidationChains.ValidationHandler.SetNext | src/main/java/com/translation/domain/validator/AbstractValidationHandler.java:14-17 | stores the successor and returns it |
| ValidationChains.ValidationHandler.Validate | src/main/java/com/translation/domain/validator/AbstractValidationHandler.java:20-26 | following the `next` links gives the chain function of the linked handlers' kinds |
| ValidationChains.KindsOf | src/main/java/com/translation/domain/validator/ValidationChain.java:25-28 | the kinds of a handler list, position by position |
| ValidationChains.ValidationChain.constructor | src/main/java/com/translation/domain/validator/ValidationChain.java:17-31 | wires Required, Size, Language, Format through `setNext`, starting at Required |
| ValidationChains.ValidationChain.Validate | src/main/java/com/translation/domain/validator/ValidationChain.java:36-40 | equals the chain function `Validators.Validate` |
| Cache.GetIsLookup | src/main/java/com/translation/infrastructure/adapter/MultiLevelCacheAdapter.java:30-56 | `get` returns the L1-then-L2 lookup; promotion keeps L2 and every later lookup unchanged |
| Cache.CacheGet | src/main/java/com/translation/infrastructure/adapter/MultiLevelCacheAdapter.java:30-56 | `get`; stated by GetIsLookup, L1HitLeavesState, L2HitPromotes and MissLeavesState |
| Cache.CachePut | src/main/java/com/translation/infrastructure/adapter/MultiLevelCacheAdapter.java:59-72 | `put`; stated by GetAfterPut and OperationsKeepCoherence |
| Cache.CacheEvict | src/main/java/com/translation/infrastructure/adapter/MultiLevelCacheAdapter.java:75-86 | `evict`; stated by GetAfterEvict and OperationsKeepCoherence |
| Cache.CacheClear | src/main/java/com/translation/infrastructure/adapter/MultiLevelCacheAdapter.java:89-100 | `clear`; stated by GetAfterClear and OperationsKeepCoherence |
| Cache.CacheContains | src/main/java/com/translation/infrastructure/adapter/MultiLevelCacheAdapter.java:103-112 | `containsKey`; stated by ContainsIffFound |
| Cache.L1HitLeavesState | src/main/java/com/translation/infrastructure/adapter/MultiLevelCacheAdapter.java:30-56 | an L1 hit returns the L1 value and changes nothing |
| Cache.L2HitPromotes | src/main/java/com/translation/infrastructure/adapter/MultiLevelCacheAdapter.java:30-56 | an L2 hit is copied into L1, so the next `get` is an L1 hit with the same value |
| Cache.MissLeavesState | src/main/java/com/translation/infrastructure/adapter/MultiLevelCacheAdapter.java:30-56 | a miss on both levels returns null and changes nothing |
| Cache.GetAfterPut | src/main/java/com/translation/infrastructure/adapter/MultiLevelCacheAdapter.java:59-72 | `get` after `put(k, v)` returns `v`; other keys read as before |
| Cache.GetAfterEvict | src/main/java/com/translation/infrastructure/adapter/MultiLevelCacheAdapter.java:75-86 | `get` after `evict(k)` misses; other keys read as before |
| Cache.GetAfterClear | src/main/java/com/translation/infrastructure/adapter/MultiLevelCacheAdapter.java:89-100 | `clear` empties L1 only; reads are then served by the untouched L2 |
| Cache.ContainsIffFound | src/main/java/com/translation/infrastructure/adapter/MultiLevelCacheAdapter.java:103-112 | `containsKey` holds exactly when some level holds the key, exactly when `get` returns a value |
| Cache.NoL1ActsOnL2 | src/main/java/com/translation/infrastructure/adapter/MultiLevelCacheAdapter.java:30-112 | without an L1 cache every operation acts on L2 alone |
| Cache.OperationsKeepCoherence | src/main/java/com/translation/infrastructure/adapter/MultiLevelCacheAdapter.java:30-100 | every operation keeps L1 a sub-map of L2 |
| Cache.CoherentLookupIsL2 | src/main/java/com/translation/infrastructure/adapter/MultiLevelCacheAdapter.java:30-56 | while L1 agrees with L2, a read sees exactly L2 |
| Cache.MultiLevelCache.constructor | src/main/java/com/translation/infrastructure/adapter/MultiLevelCacheAdapter.java:30-56 | a cache with an empty L1 over a given L2 content |
| Cache.MultiLevelCache.Get | src/main/java/com/translation/infrastructure/adapter/MultiLevelCacheAdapter.java:30-56 | result and new state are those of `CacheGet` |
| Cache.MultiLevelCache.Put | src/main/java/com/translation/infrastructure/adapter/MultiLevelCacheAdapter.java:59-72 | new state is `CachePut` of the old |
| Cache.MultiLevelCache.Evict | src/main/java/com/translation/infrastructure/adapter/MultiLevelCacheAdapter.java:75-86 | new state is `CacheEvict` of the old |
| Cache.MultiLevelCache.Clear | src/main/java/com/translation/infrastructure/adapter/MultiLevelCacheAdapter.java:89-100 | new state is `CacheClear` of the old |
| Cache.MultiLevelCache.ContainsKey | src/main/java/com/translation/infrastructure/adapter/MultiLevelCacheAdapter.java:103-112 | true exactly when a level holds the key; no promotion |
| Cache.MultiLevelCache.DropLocal | src/main/java/com/translation/infrastructure/config/CacheConfig.java:25-28 | L1 losing an entry on its own (size bound or expiry) removes it from L1 only |
| Utf16.Utf16Units | src/main/java/com/translation/domain/pipeline/CacheConsultStep.java:67-69 | the UTF-16 encoding has between one and two units per character, each below 2^16 |
| Utf16.Utf16Decode | src/main/java/com/translation/domain/strategy/DocumentTranslationStrategy.java:118-133 | reading units back as a string gives at most one character per unit |
| Utf16.DecodeUnits | src/main/java/com/translation/domain/strategy/DocumentTranslationStrategy.java:110-115 | decoding the UTF-16 encoding of a string gives the string back |
| Utf16.UnitsInjective | src/main/java/com/translation/domain/pipeline/CacheConsultStep.java:67-69 | different strings have different UTF-16 encodings |
| Utf16.UnitsLength | src/main/java/com/translation/domain/validator/SizeValidator.java:36 | `length()` is the number of units of the encoding |
| Utf16.SupplementaryUnits | src/main/java/com/translation/domain/strategy/DocumentTranslationStrategy.java:103 | a string of characters above U+FFFF has two units per character |
| CacheKeys.HashBits | src/main/java/com/translation/domain/pipeline/CacheConsultStep.java:67-69 | the running `31 * h + unit` hash stays within 32 bits |
| CacheKeys.HashCharsIsHashBits | src/main/java/com/translation/domain/pipeline/CacheConsultStep.java:67-69 | hashing character by character, with a surrogate pair for a character above U+FFFF, equals hashing the UTF-16 encoding |
| CacheKeys.ToInt32 | src/main/java/com/translation/domain/pipeline/CacheConsultStep.java:67-69 | the signed reading is in the `int` range and congruent to the bits modulo 2^32 |
| CacheKeys.JavaHashCode | src/main/java/com/translation/domain/pipeline/CacheConsultStep.java:67-69 | `hashCode()` lies in the `int` range |
| CacheKeys.NatToDecimal | src/main/java/com/translation/domain/pipeline/CacheConsultStep.java:67-69 | the printed number is non-empty and all digits |
| CacheKeys.IntToDecimal | src/main/java/com/translation/domain/pipeline/CacheConsultStep.java:67-69 | a printed `int` is non-empty and holds no ':' |
| CacheKeys.FirstColon | src/main/java/com/translation/domain/pipeline/CacheConsultStep.java:67-69 | the index of the first ':' of a key, or its length |
| CacheKeys.FirstColonAfter | src/main/java/com/translation/domain/pipeline/CacheConsultStep.java:67-69 | in `x + ":" + rest` with a colon-free `x`, the first ':' sits at `|x|` |
| CacheKeys.SplitAtColon | src/main/java/com/translation/domain/pipeline/CacheConsultStep.java:67-69 | joining a colon-free prefix with ':' is injective |
| CacheKeys.JoinDeterminesParts | src/main/java/com/translation/domain/pipeline/CacheConsultStep.java:67-69 | three parts joined with ':' are recovered from the join when the first two hold no ':' |
| CacheKeys.KeyDeterminesParts | src/main/java/com/translation/domain/pipeline/CacheSaveStep.java:58-60 | equal keys over colon-free language codes have equal codes and equal printed hashes |
| CacheKeys.CacheKey | src/main/java/com/translation/domain/pipeline/CacheConsultStep.java:67-69 | `generateCacheKey`; stated by KeyDeterminesParts and HashCollisionSharesKey |
| CacheKeys.HashCollisionSharesKey | src/main/java/com/translation/domain/pipeline/CacheSaveStep.java:58-60 | "Aa" and "BB" both hash to 2112 and so share a cache key |
| Deduplication.Dedup | src/main/java/com/translation/domain/pipeline/RemoveDuplicatesStep.java:26-27 | the result has exactly the input's elements, without repeats, and is no longer |
| Deduplication.DedupOfDistinct | src/main/java/com/translation/domain/pipeline/RemoveDuplicatesStep.java:26-27 | a list without repeats is left as it is |
| Deduplication.DedupIdempotent | src/main/java/com/translation/domain/pipeline/RemoveDuplicatesStep.java:26-31 | deduplicating twice is deduplicating once |
| Deduplication.FirstIndex | src/main/java/com/translation/domain/pipeline/RemoveDuplicatesStep.java:26-27 | the index of an element's first occurrence |
| Deduplication.FirstIndexPrefix | src/main/java/com/translation/domain/pipeline/RemoveDuplicatesStep.java:26-27 | the first occurrence does not move when the list is extended |
| Deduplication.DedupKeepsFirstOccurrenceOrder | src/main/java/com/translation/domain/pipeline/RemoveDuplicatesStep.java:26-27 | survivors appear in the order of their first occurrences (insertion order of `LinkedHashSet`) |
| Deduplication.DedupExample | src/main/java/com/translation/domain/pipeline/RemoveDuplicatesStep.java:26-27 | ["a","b","a","c"] becomes ["a","b","c"] |
| Deduplication.DedupIsExact | src/main/java/com/translation/domain/pipeline/RemoveDuplicatesStep.java:26-27 | texts differing in case or whitespace are all kept |
| Deduplication.DedupLinked | src/main/java/com/translation/domain/pipeline/RemoveDuplicatesStep.java:26-27 | the set-and-list copy loop computes `Dedup` |
| SensitiveData.FlagIffSomePassMatched | src/main/java/com/translation/domain/pipeline/RemoveSensitiveDataStep.java:40-67 | a text is flagged exactly when some pattern finds a match in the text as it stands before that pass |
| SensitiveData.NoMatchUnchanged | src/main/java/com/translation/domain/pipeline/RemoveSensitiveDataStep.java:40-67 | when no pattern matches, the text is returned unchanged and unflagged |
| SensitiveData.UnflaggedIsUnchanged | src/main/java/com/translation/domain/pipeline/RemoveSensitiveDataStep.java:40-67 | an unflagged text is unchanged |
| SensitiveData.ScrubOneText | src/main/java/com/translation/domain/pipeline/RemoveSensitiveDataStep.java:40-71 | the five find-and-replace passes in order compute `Scrub` |
| SensitiveData.Scrub | src/main/java/com/translation/domain/pipeline/RemoveSensitiveDataStep.java:36-67 | the five passes on one text; stated by FlagIffSomePassMatched, NoMatchUnchanged, UnflaggedIsUnchanged and ScrubOneText |
| SensitiveData.ScrubAll | src/main/java/com/translation/domain/pipeline/RemoveSensitiveDataStep.java:35-75 | one sanitized text and one flag per input, each `Scrub` of it |
| Strategies.SupportsIffType | src/main/java/com/translation/domain/strategy/TextTranslationStrategy.java:62-69 | a strategy supports exactly the type it reports |
| Strategies.TranslateOrKeep | src/main/java/com/translation/domain/strategy/DocumentTranslationStrategy.java:118-133 | a successful call gives the translation; a failing call gives the text back |
| Strategies.TranslateChunk | src/main/java/com/translation/domain/strategy/DocumentTranslationStrategy.java:118-133 | on success the appended units read back as the client's translation; on failure the chunk's own units are appended |
| Strategies.ConcatAppend | src/main/java/com/translation/domain/strategy/DocumentTranslationStrategy.java:110-115 | joining distributes over list concatenation |
| Strategies.ChunksConcat | src/main/java/com/translation/domain/strategy/DocumentTranslationStrategy.java:135-145 | joining the chunks gives the code units back |
| Strategies.Chunks | src/main/java/com/translation/domain/strategy/DocumentTranslationStrategy.java:135-145 | the pieces `substring(i, min(len, i + n))` of the code units; stated by ChunkCount, ChunkSizes and ChunksConcat |
| Strategies.ChunkCount | src/main/java/com/translation/domain/strategy/DocumentTranslationStrategy.java:135-145 | there are ceil(units / n) chunks, counted in UTF-16 code units |
| Strategies.ChunkSizes | src/main/java/com/translation/domain/strategy/DocumentTranslationStrategy.java:135-145 | every chunk is non-empty and at most n code units long; all but the last exactly n |
| Strategies.SplitIntoChunks | src/main/java/com/translation/domain/strategy/DocumentTranslationStrategy.java:135-145 | the `substring` stepping loop over code units computes `Chunks` |
| Strategies.TranslateEach | src/main/java/com/translation/domain/strategy/DocumentTranslationStrategy.java:110-113 | one translated-or-kept chunk per chunk, in order, each as `TranslateChunk` gives it |
| Strategies.LargeTextIsChunkwise | src/main/java/com/translation/domain/strategy/DocumentTranslationStrategy.java:100-116 | the size test on `length()` is only a shortcut: every non-empty text is the join of the translations of its 5000-code-unit chunks |
| Strategies.LargeText | src/main/java/com/translation/domain/strategy/DocumentTranslationStrategy.java:100-116 | `translateLargeText`; stated by LargeTextIsChunkwise and LargeTextAllFailing |
| Strategies.WholeTextChunk | src/main/java/com/translation/domain/strategy/DocumentTranslationStrategy.java:100-105 | a text sent as one chunk translates as `translateChunk` on the whole text |
| Strategies.SupplementaryTextIsSplit | src/main/java/com/translation/domain/strategy/DocumentTranslationStrategy.java:103 | a text of more than 2500 characters above U+FFFF exceeds 5000 code units and is split into at least two chunks |
| Strategies.LargeTextAllFailing | src/main/java/com/translation/domain/strategy/DocumentTranslationStrategy.java:100-133 | with a client that always fails, the text comes back unchanged |
| Strategies.TranslateLargeText | src/main/java/com/translation/domain/strategy/DocumentTranslationStrategy.java:100-116 | the StringBuilder loop over 5000-unit chunks computes `LargeText` |
| Strategies.StrategyTranslate | src/main/java/com/translation/domain/strategy/DocumentTranslationStrategy.java:35-52 | one output per input, in order, each the strategy's per-text result |
| Strategies.TranslateItem | src/main/java/com/translation/domain/strategy/DocumentTranslationStrategy.java:40-49 | the per-text result of each strategy; stated by StrategyTranslate, TextStrategyPerItem and ImageTranslateIsIdentity |
| Strategies.TextStrategyPerItem | src/main/java/com/translation/domain/strategy/TextTranslationStrategy.java:26-53 | the TEXT strategy keeps exactly the texts the client fails on and translates the others |
| Strategies.ImageTranslateIsIdentity | src/main/java/com/translation/domain/strategy/ImageTranslationStrategy.java:30-34 | the image strategy's `translate` returns the texts unchanged |
| Strategies.TranslateTexts | src/main/java/com/translation/domain/strategy/HtmlTranslationStrategy.java:31-46 | the per-text loop computes `StrategyTranslate` |
| Strategies.StrategyTranslateBinary | src/main/java/com/translation/domain/strategy/DocumentTranslationStrategy.java:55-69 | TEXT is unsupported; a document succeeds exactly when extraction does and then gives the chunked translation, else "Failed to translate document"; image and HTML succeed exactly when their calls do |
| Factory.BuildFactory | src/main/java/com/translation/domain/factory/TranslationStrategyFactory.java:24-34 | succeeds exactly when no two strategies report the same type, filing each under its type; otherwise fails with a repeated type |
| Factory.GetStrategy | src/main/java/com/translation/domain/factory/TranslationStrategyFactory.java:39-51 | succeeds exactly for a registered type, with its strategy; otherwise "Unsupported translation type: " plus the type's name |
| Factory.HasStrategyIffFound | src/main/java/com/translation/domain/factory/TranslationStrategyFactory.java:56-65 | `hasStrategy` answers exactly whether `getStrategy` succeeds, and the supported types are the reported types |
| Factory.HasStrategy | src/main/java/com/translation/domain/factory/TranslationStrategyFactory.java:56-58 | `hasStrategy`; stated by HasStrategyIffFound |
| Factory.SupportedTypes | src/main/java/com/translation/domain/factory/TranslationStrategyFactory.java:63-65 | `getSupportedTypes`; stated by HasStrategyIffFound |
| Factory.StandardFactoryIsComplete | src/main/java/com/translation/domain/factory/TranslationStrategyFactory.java:24-51 | the four standard strategies build a factory serving every type |
| Factory.TwoTextStrategiesFail | src/main/java/com/translation/domain/factory/TranslationStrategyFactory.java:24-34 | two TEXT strategies make construction fail with a duplicate key |
| Adapter.GetSupportedLanguages | src/main/java/com/translation/infrastructure/adapter/TranslationAdapter.java:27-29 | the list is exactly pt, en, es, fr, de, it, ja, ko, zh, ar, ru (eleven distinct lower-case codes), and a code is supported exactly when its lower-cased form is in it |
| Adapter.LanguageSupportIgnoresCase | src/main/java/com/translation/infrastructure/adapter/TranslationAdapter.java:64-66 | a code is supported exactly when it equals a listed code up to case |
| Adapter.IsLanguageSupported | src/main/java/com/translation/infrastructure/adapter/TranslationAdapter.java:64-66 | `isLanguageSupported`; stated by GetSupportedLanguages, LanguageSupportIgnoresCase and LanguageExamples |
| Adapter.LanguageExamples | src/main/java/com/translation/infrastructure/adapter/TranslationAdapter.java:64-66 | "EN" is supported, "xx" is not |
| Adapter.AdapterTranslate | src/main/java/com/translation/infrastructure/adapter/TranslationAdapter.java:34-45 | succeeds exactly when a strategy is registered, with its output; otherwise "Translation failed" |
| Adapter.AdapterTranslateBinary | src/main/java/com/translation/infrastructure/adapter/TranslationAdapter.java:50-61 | succeeds exactly when a strategy exists and its binary call succeeds; otherwise "Binary translation failed" |
| Adapter.ResilientTranslate | src/main/java/com/translation/infrastructure/adapter/TranslationAdapter.java:74-79 | the port always returns one text per input: the strategy's output, or the inputs on failure |
| Adapter.ResilientTranslateBinary | src/main/java/com/translation/infrastructure/adapter/TranslationAdapter.java:81-85 | a failed binary call falls back to the decoded payload; a successful one gives its result |
| Adapter.TranslateFallback | src/main/java/com/translation/infrastructure/adapter/TranslationAdapter.java:74-79 | the texts fallback; stated by ResilientTranslate and FailingClientReturnsInput |
| Adapter.TranslateBinaryFallback | src/main/java/com/translation/infrastructure/adapter/TranslationAdapter.java:81-85 | the binary fallback; stated by ResilientTranslateBinary and TextBinaryFallsBack |
| Adapter.TextBinaryFallsBack | src/main/java/com/translation/domain/strategy/TextTranslationStrategy.java:56-59 | a binary TEXT request always ends in the fallback |
| Adapter.FailingClientReturnsInput | src/main/java/com/translation/domain/strategy/TextTranslationStrategy.java:26-53 | with a TEXT client that always fails, the port returns the inputs |
| Contexts.TranslationContext.constructor | src/main/java/com/translation/domain/model/TranslationContext.java:15-32 | a context holding the given field values |
| PipelineSpec.DedupStep | src/main/java/com/translation/domain/pipeline/RemoveDuplicatesStep.java:19-36 | only the processed texts and the removed count change: processed texts are distinct, have the input's elements, and the count is the length difference |
| PipelineSpec.DedupStepOfDistinct | src/main/java/com/translation/domain/pipeline/RemoveDuplicatesStep.java:19-36 | on distinct texts the step removes nothing |
| PipelineSpec.ScrubStep | src/main/java/com/translation/domain/pipeline/RemoveSensitiveDataStep.java:35-79 | processed texts become their `Scrub` results, flags are recorded pointwise, and the count is the number of flags set |
| PipelineSpec.ConsultAllReads | src/main/java/com/translation/domain/pipeline/CacheConsultStep.java:33-48 | one lookup per text under its key; promotion keeps L2 and every later lookup unchanged |
| PipelineSpec.ConsultAll | src/main/java/com/translation/domain/pipeline/CacheConsultStep.java:33-48 | one lookup result per key; stated further by ConsultAllReads and HitMask |
| PipelineSpec.KeysOfAt | src/main/java/com/translation/domain/pipeline/CacheConsultStep.java:34 | the key list holds, at each position, `generateCacheKey` of the text at that position |
| PipelineSpec.HitMask | src/main/java/com/translation/domain/pipeline/CacheConsultStep.java:36-46 | a text is a hit exactly when a value was found |
| PipelineSpec.ConsultStep | src/main/java/com/translation/domain/pipeline/CacheConsultStep.java:24-59 | translated and fromCache align with processed; a slot holds the cached value and is marked exactly on a hit; hits plus misses is the text count |
| PipelineSpec.MissMask | src/main/java/com/translation/domain/pipeline/TranslationStep.java:35-40 | a slot is missing exactly when it is null |
| PipelineSpec.MissingIndices | src/main/java/com/translation/domain/pipeline/TranslationStep.java:35-40 | the null slots, ascending |
| PipelineSpec.Gather | src/main/java/com/translation/domain/pipeline/TranslationStep.java:37-38 | the processed texts at the given positions |
| PipelineSpec.WriteBack | src/main/java/com/translation/domain/pipeline/TranslationStep.java:54-57 | the k-th translation goes into the k-th position; other slots stay |
| PipelineSpec.TranslateStep | src/main/java/com/translation/domain/pipeline/TranslationStep.java:24-66 | only translated texts change; their length stays, no present slot changes; a failure is an index error |
| PipelineSpec.TranslateStepFills | src/main/java/com/translation/domain/pipeline/TranslationStep.java:35-57 | with no misses the context is unchanged; it fails exactly when the port answers too few texts; otherwise every null slot is filled with its translation |
| PipelineSpec.TranslateStepWithTotalPort | src/main/java/com/translation/domain/pipeline/TranslationStep.java:42-57 | with a length-preserving port the step succeeds and fills every slot |
| PipelineSpec.SaveAll | src/main/java/com/translation/domain/pipeline/CacheSaveStep.java:32-46 | the save loop: index errors on short lists, a null value reported before writing, otherwise `put` of each fresh translation under its key |
| PipelineSpec.SaveAllWrites | src/main/java/com/translation/domain/pipeline/CacheSaveStep.java:32-46 | on aligned filled lists the save succeeds; unwritten keys read as before and each written key holds its last writer |
| PipelineSpec.SaveStep | src/main/java/com/translation/domain/pipeline/CacheSaveStep.java:23-50 | the save step; stated by SaveAllWrites, SaveThenConsultHitsAll and CollidingTextsShareEntry |
| PipelineSpec.SaveThenConsultHitsAll | src/main/java/com/translation/domain/pipeline/CacheSaveStep.java:32-46 | after a save over texts with distinct keys, consulting again hits every text with the saved translation |
| PipelineSpec.CollidingTextsShareEntry | src/main/java/com/translation/domain/pipeline/CacheSaveStep.java:58-60 | after saving "BB", a lookup for "Aa" returns the translation of "BB" |
| PipelineSpec.StepNames | src/main/java/com/translation/domain/pipeline/TranslationPipeline.java:66-70 | one name per step, in order |
| PipelineSpec.StepNamesInOrder | src/main/java/com/translation/domain/pipeline/TranslationPipeline.java:28-35 | the names are RemoveDuplicates, RemoveSensitiveData, CacheConsult, Translation, CacheSave, Log, all distinct |
| PipelineSpec.StepNamesOfSteps | src/main/java/com/translation/domain/pipeline/TranslationPipeline.java:66-70 | the reported step names are the six names in execution order |
| PipelineSpec.ApplyStep | src/main/java/com/translation/domain/pipeline/TranslationPipeline.java:49-57 | a failure passes through untouched; a step error is wrapped with the step's name; dedup, scrub, consult and log never fail |
| PipelineSpec.RunStopsAtFailure | src/main/java/com/translation/domain/pipeline/TranslationPipeline.java:53-56 | once failed, running more steps changes nothing |
| PipelineSpec.RunAppend | src/main/java/com/translation/domain/pipeline/TranslationPipeline.java:49-57 | running two step lists is running their concatenation |
| PipelineSpec.RunSnoc | src/main/java/com/translation/domain/pipeline/TranslationPipeline.java:49-57 | running one more step applies it to the run so far |
| PipelineSpec.RunFailsAt | src/main/java/com/translation/domain/pipeline/TranslationPipeline.java:53-56 | once a round fails, the later steps do not run and the loop ends in that round's state |
| PipelineSpec.Run | src/main/java/com/translation/domain/pipeline/TranslationPipeline.java:49-57 | the step loop; stated by RunStopsAtFailure, RunAppend, RunSnoc and RunFailsAt |
| PipelineSpec.RunPipelineSteps | src/main/java/com/translation/domain/pipeline/TranslationPipeline.java:43-61 | the pipeline is the six steps applied in order after setting the start time |
| PipelineSpec.RunPipeline | src/main/java/com/translation/domain/pipeline/TranslationPipeline.java:43-61 | `execute`; stated by RunPipelineSteps, RunPipelineStages, PipelineSucceeds and PipelineOutcome |
| PipelineSpec.FirstThreeSteps | src/main/java/com/translation/domain/pipeline/TranslationPipeline.java:49-57 | dedup, scrub and consult always succeed and compose as their step functions |
| PipelineSpec.LastThreeSteps | src/main/java/com/translation/domain/pipeline/TranslationPipeline.java:49-57 | translation, save and log compose, with failures reported under the step's name |
| PipelineSpec.RunPipelineStages | src/main/java/com/translation/domain/pipeline/TranslationPipeline.java:43-61 | the run is the composition of the step functions |
| PipelineSpec.PipelineSucceeds | src/main/java/com/translation/domain/pipeline/TranslationPipeline.java:43-61 | with a length-preserving port the pipeline does not fail, and every slot is filled, aligned and marked as in the steps |
| PipelineSpec.PipelineOutcome | src/main/java/com/translation/domain/pipeline/TranslationPipeline.java:43-61 | with a length-preserving port the run does not fail; its context is the translation step's and its cache the save step's over the consult step's cache |
| PipelineSpec.ConsultThenTranslate | src/main/java/com/translation/domain/pipeline/TranslationStep.java:24-66 | after the consult step, translation with a length-preserving port succeeds, fills every slot, keeps aligned lists and touches only the translation fields |
| PipelineSpec.PipelineProcessedTexts | src/main/java/com/translation/domain/pipeline/TranslationPipeline.java:43-61 | after a run the processed texts are the scrubbed first occurrences of the request's texts |
| PipelineSpec.PipelineCacheRoundTrip | src/main/java/com/translation/domain/pipeline/CacheSaveStep.java:32-46 | after a successful run over texts with distinct keys, consulting again returns exactly the run's translations |
| PipelineSpec.PipelineFailsOnlyInTranslation | src/main/java/com/translation/domain/pipeline/TranslationPipeline.java:49-57 | any failure is an index error of the Translation step |
| PipelineSpec.AdapterPipelineSucceeds | src/main/java/com/translation/infrastructure/adapter/TranslationAdapter.java:74-79 | through the adapter port the pipeline never fails |
| PipelineSteps.RemoveDuplicates | src/main/java/com/translation/domain/pipeline/RemoveDuplicatesStep.java:19-36 | the context becomes `DedupStep` of the old one |
| PipelineSteps.ScrubTexts | src/main/java/com/translation/domain/pipeline/RemoveSensitiveDataStep.java:35-75 | the loop yields the sanitized texts and flags of `ScrubAll` and counts the flagged texts |
| PipelineSteps.RemoveSensitiveData | src/main/java/com/translation/domain/pipeline/RemoveSensitiveDataStep.java:27-83 | the context becomes `ScrubStep` of the old one |
| PipelineSteps.ConsultTexts | src/main/java/com/translation/domain/pipeline/CacheConsultStep.java:33-48 | the consult loop: per-text lookups, hit flags and counts as `ConsultAll` |
| PipelineSteps.GenerateCacheKey | src/main/java/com/translation/domain/pipeline/CacheConsultStep.java:67-69 | the key of text `i` is the `i`-th entry of the key list both cache steps use |
| PipelineSteps.CacheConsult | src/main/java/com/translation/domain/pipeline/CacheConsultStep.java:24-59 | context and cache become `ConsultStep` of the old ones |
| PipelineSteps.CollectMissing | src/main/java/com/translation/domain/pipeline/TranslationStep.java:35-40 | the null positions and their texts, or an index error |
| PipelineSteps.WriteTranslations | src/main/java/com/translation/domain/pipeline/TranslationStep.java:54-57 | the write-back loop, or an index error when the port answered too few texts |
| PipelineSteps.Translation | src/main/java/com/translation/domain/pipeline/TranslationStep.java:24-66 | only translated texts change; on success the context is `TranslateStep` of the old one, on failure its error is returned |
| PipelineSteps.SaveAllStops | src/main/java/com/translation/domain/pipeline/CacheSaveStep.java:32-46 | once the save loop fails, later iterations change nothing |
| PipelineSteps.SaveRound | src/main/java/com/translation/domain/pipeline/CacheSaveStep.java:32-46 | one round of the save loop advances the `SaveAll` fold by one text |
| PipelineSteps.CacheSave | src/main/java/com/translation/domain/pipeline/CacheSaveStep.java:23-50 | cache and failure are `SaveStep` of the context and the old cache |
| Pipelines.TranslationPipeline.constructor | src/main/java/com/translation/domain/pipeline/TranslationPipeline.java:19-38 | the six steps in order over the given collaborators |
| Pipelines.TranslationPipeline.GetStepNames | src/main/java/com/translation/domain/pipeline/TranslationPipeline.java:66-70 | the six step names in order |
| Pipelines.TranslationPipeline.ExecuteStep | src/main/java/com/translation/domain/pipeline/TranslationPipeline.java:49-57 | one step's effect on context and cache is `ApplyStep` |
| Pipelines.TranslationPipeline.Execute | src/main/java/com/translation/domain/pipeline/TranslationPipeline.java:43-61 | failure and cache are those of `RunPipeline`; on success the context is too |
| RequestPipelines.FoldAppend | src/main/java/com/translation/domain/service/pipeline/TranslationPipeline.java:21-38 | running two step lists is running their concatenation |
| RequestPipelines.FoldFailsAtOneStep | src/main/java/com/translation/domain/service/pipeline/TranslationPipeline.java:21-38 | a failed run failed at one step, with that step's error, after the earlier ones succeeded |
| RequestPipelines.Fold | src/main/java/com/translation/domain/service/pipeline/TranslationPipeline.java:21-38 | the step fold; stated by FoldAppend and FoldFailsAtOneStep |
| RequestPipelines.RequestPipeline.constructor | src/main/java/com/translation/domain/service/pipeline/TranslationPipeline.java:14 | a pipeline without steps |
| RequestPipelines.RequestPipeline.AddStep | src/main/java/com/translation/domain/service/pipeline/TranslationPipeline.java:16-19 | appends the step and returns the pipeline itself |
| RequestPipelines.RequestPipeline.Execute | src/main/java/com/translation/domain/service/pipeline/TranslationPipeline.java:21-38 | the steps folded over the request; no steps gives the request back |
| Service.TextsOf | src/main/java/com/translation/application/service/TranslationService.java:84 | the present texts, position by position |
| Service.CreateContext | src/main/java/com/translation/application/service/TranslationService.java:82-98 | copies texts and request fields, zero counters, empty lists, the given start time |
| Service.BuildResults | src/main/java/com/translation/application/service/TranslationService.java:112-123 | succeeds exactly when the lists are long enough; result i pairs original text i with translated slot i, the sensitive flag defaulting to false |
| Service.NullTextsFailBeforeValidation | src/main/java/com/translation/application/service/TranslationService.java:32-35 | a null request or null texts fail on the log line, before validation, with no cache change |
| Service.ValidationFailureStopsRequest | src/main/java/com/translation/application/service/TranslationService.java:41 | a rejected request returns the chain's error with no cache change |
| Service.UploadedDocumentRejected | src/main/java/com/translation/application/controller/TranslationController.java:105 | a document upload, built with an empty text list, is rejected as missing texts |
| Service.AcceptedRequestResponse | src/main/java/com/translation/application/service/TranslationService.java:104-144 | for an accepted request with a length-preserving port, results and metadata are those of the pipeline's context, with the clock's time and timestamp |
| Service.AcceptedRequestRunsPipeline | src/main/java/com/translation/application/service/TranslationService.java:41-54 | an accepted request whose run does not fail is answered by the response built from the run's context, stamped with the clock |
| Service.ResponseOfContext | src/main/java/com/translation/application/service/TranslationService.java:104-144 | a context with filled, aligned lists builds a response with one result per translated slot, pairing original, translation and flags by index |
| Service.BuildResponse | src/main/java/com/translation/application/service/TranslationService.java:104-144 | `buildResponse`; stated by ResponseOfContext, BuildResults and DuplicatesMisalignResults |
| Service.Stamp | src/main/java/com/translation/application/service/TranslationService.java:52-54 | an error passes through; a response keeps its results and gets the elapsed time and the timestamp in its metadata |
| Service.DuplicatesMisalignResults | src/main/java/com/translation/application/service/TranslationService.java:112-123 | for ["x","x","y"] the second result pairs "x" with the translation of "y" |
| Service.ChainRespects | src/main/java/com/translation/domain/validator/AbstractValidationHandler.java:20-26 | the chain gives the same outcome on requests that agree on every checked field |
| Service.ValidationIgnoresFlags | src/main/java/com/translation/domain/validator/ValidationChain.java:36-40 | the three request flags do not affect validation |
| Service.FlagsAreIgnored | src/main/java/com/translation/application/service/TranslationService.java:31-64 | the three request flags do not affect the response or the cache |
| Service.AcceptedRequestThroughAdapter | src/main/java/com/translation/application/service/TranslationService.java:31-64 | through the adapter port every accepted request gets a response |
| Service.ServiceTranslate | src/main/java/com/translation/application/service/TranslationService.java:31-64 | `translate`; stated by NullTextsFailBeforeValidation, ValidationFailureStopsRequest, AcceptedRequestRunsPipeline, AcceptedRequestResponse, FlagsAreIgnored and AcceptedRequestThroughAdapter |
| Service.TranslationService.constructor | src/main/java/com/translation/application/service/TranslationService.java:24-27 | a service over the given chain and pipeline |
| Service.TranslationService.BuildResponseOf | src/main/java/com/translation/application/service/TranslationService.java:104-144 | the loop computes `BuildResponse` of the context |
| Service.TranslationService.Translate | src/main/java/com/translation/application/service/TranslationService.java:31-64 | response and new cache are those of `ServiceTranslate` |
| Service.TranslationService.TranslateBinary | src/main/java/com/translation/application/service/TranslationService.java:69-77 | delegates to `translate` |

## Left out

- Logging, the `savedCount` counter of the save step, and the body of the log step are not modelled. The log step is the identity.
- The counters are unbounded integers. They never come near 2^31 for at most 1000 texts.
- The clock is a parameter. `System.currentTimeMillis` and `LocalDateTime.now` are readings in `Clock`.
- The five sensitive-data regular expressions are abstract `find`/`replaceAll` pairs, and so are the HTML-tag pattern's internals beyond `<[^>]+>`.
- Vendor clients are abstract functions returning an optional result. This covers AWS Translate, Tika extraction, Bedrock and its answer scraping, jsoup's HTML walk, and `new String(bytes)`.
- Resilience4j retries and circuit-breaker state are not modelled. Only the fallback is, because every failure of the port ends there.
- Adapter.ResilientTranslate and Adapter.ResilientTranslateBinary: `translate` and `translateBinary` share one circuit breaker named "translationService". Once failures open it, calls of either kind get the fallback without reaching a strategy, even when one is registered. The model has no breaker state, so it promises the strategy's output for every call whose strategy succeeds. TextBinaryFallsBack is one source of such failures.
- Redis failures are not modelled, and neither are cache TTLs or configuration. L1 expiry is the `DropLocal` operation.
- The DynamoDB dictionary adapter, the HTTP controller other than line 105, and the OpenAPI and AWS configuration are not modelled.
- Case folding is ASCII only.
- The `TranslationResponse` class's own fields are not modelled. The model uses the shape the service builds.
- `toMap` on the factory's list reports a repeated type, not the exact key Java names.
- A null `translatedText` from the AWS client is not expressed: the model's client answers with a present string or fails. In the source such a null has these effects, none of them modelled:
  - in the text strategy, the null is added to the list, and the debug line's `length()` then throws, so the original text is added as well and the list is one element longer;
  - in the pipeline, that longer list puts a null into a translated slot and shifts the later slots, and `put(key, null)` reaches Redis from the save step, so the run can fail there;
  - in the document strategy, `append(null)` writes the four letters "null" into the result.
  PipelineSpec.AdapterPipelineSucceeds and Service.AcceptedRequestThroughAdapter hold for the model's client only.
- Strategies.TranslateChunk: a chunk boundary that cuts a surrogate pair hands the client U+FFFD in place of the lone half, where Java passes the unpaired unit; when one neighbour is translated and the other kept, the joined text shows U+FFFD where a Java `String` would hold the lone surrogate. A failing client still returns the text unchanged (LargeTextAllFailing).
- PipelineSpec.SaveAll: a null translation is reported before writing. The source's L1 null-wrapper write is not modelled. After a successful translation step no slot is null, so this case is never reached in the pipeline.
- Pipelines.TranslationPipeline.Execute: after a failure, the context's contents are not stated. The source leaves a partial write-back, and the service discards the context.
- Service.CreateContext: requires that the request is acceptable. The service calls it only after the chain has passed.
- Service.BuildResponse and Service.ServiceTranslate have no contracts of their own. Their properties are the lemmas beside them (`AcceptedRequestResponse`, `FlagsAreIgnored` and the others).
