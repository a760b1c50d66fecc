/** `TranslationContext`: the mutable object the pipeline steps read and
    write through its setters. `Snapshot` reads it as a `ContextState`. */
module Contexts {
  import opened Common
  import opened TranslationTypes
  import opened PipelineSpec

  class TranslationContext {
    var texts: seq<string>
    var sourceLanguage: string
    var targetLanguage: string
    var ttype: TranslationType
    var fileContent: Option<seq<byte>>
    var duplicatesRemoved: int
    var sensitiveDataRemoved: int
    var cacheHits: int
    var cacheMisses: int
    var startTime: int
    var processedTexts: seq<string>
    var translatedTexts: seq<Option<string>>
    var fromCache: seq<bool>
    var hadSensitiveData: seq<bool>

    function Snapshot(): ContextState
      reads this
    {
      ContextState(texts, sourceLanguage, targetLanguage, ttype, fileContent,
        duplicatesRemoved, sensitiveDataRemoved, cacheHits, cacheMisses, startTime,
        processedTexts, translatedTexts, fromCache, hadSensitiveData)
    }

    /** The builder: every field from `s`. */
    constructor (s: ContextState)
      ensures Snapshot() == s
    {
      texts := s.texts;
      sourceLanguage := s.sourceLanguage;
      targetLanguage := s.targetLanguage;
      ttype := s.ttype;
      fileContent := s.fileContent;
      duplicatesRemoved := s.duplicatesRemoved;
      sensitiveDataRemoved := s.sensitiveDataRemoved;
      cacheHits := s.cacheHits;
      cacheMisses := s.cacheMisses;
      startTime := s.startTime;
      processedTexts := s.processedTexts;
      translatedTexts := s.translatedTexts;
      fromCache := s.fromCache;
      hadSensitiveData := s.hadSensitiveData;
    }
  }
}
