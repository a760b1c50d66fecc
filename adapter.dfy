/** `TranslationAdapter`, the translation port: it delegates to the strategy
    the factory picks, re-raises any failure as a `TranslationException`, and
    the circuit breaker answers a failed call with the fallback result. */
module Adapter {
  import opened Common
  import opened TranslationTypes
  import opened Model
  import opened Strategies
  import opened Factory

  /** `decode` is `new String(bytes)` with the platform charset. */
  datatype TranslationAdapter = TranslationAdapter(factory: StrategyFactory, decode: seq<byte> -> string)

  /** `SUPPORTED_LANGUAGES`, in declaration order. */
  const SupportedLanguages: seq<string> := ["pt", "en", "es", "fr", "de", "it", "ja", "ko", "zh", "ar", "ru"]

  /** `isLanguageSupported(code)`: the lower-cased code is in the list. */
  predicate IsLanguageSupported(code: string) {
    Lower(code) in SupportedLanguages
  }

  /** `getSupportedLanguages()`: a copy of the list. */
  function GetSupportedLanguages(): (ls: seq<string>)
    ensures ls == ["pt", "en", "es", "fr", "de", "it", "ja", "ko", "zh", "ar", "ru"]
    ensures forall code :: IsLanguageSupported(code) <==> Lower(code) in ls
    ensures |ls| == 11
    ensures forall i, j :: 0 <= i < j < |ls| ==> ls[i] != ls[j]
    ensures forall i :: 0 <= i < |ls| ==> Lower(ls[i]) == ls[i]
  {
    SupportedLanguages
  }

  /** Case does not matter: a code is supported exactly when its lower-case
      form is, and every listed code is supported in any case. */
  lemma LanguageSupportIgnoresCase(code: string)
    ensures IsLanguageSupported(code) <==> IsLanguageSupported(Lower(code))
    ensures IsLanguageSupported(code) <==> exists i :: 0 <= i < |SupportedLanguages| && EqualsIgnoreCase(code, SupportedLanguages[i])
  {
    LowerIdempotent(code);
    if IsLanguageSupported(code) {
      var i :| 0 <= i < |SupportedLanguages| && SupportedLanguages[i] == Lower(code);
      LowerIdempotent(SupportedLanguages[i]);
      assert EqualsIgnoreCase(code, SupportedLanguages[i]);
    }
    if exists i :: 0 <= i < |SupportedLanguages| && EqualsIgnoreCase(code, SupportedLanguages[i]) {
      var i :| 0 <= i < |SupportedLanguages| && EqualsIgnoreCase(code, SupportedLanguages[i]);
      assert Lower(SupportedLanguages[i]) == SupportedLanguages[i] by {
        assert GetSupportedLanguages() == SupportedLanguages;
      }
    }
  }

  /** Examples: "EN" is supported, "xx" is not. */
  lemma LanguageExamples()
    ensures IsLanguageSupported("EN")
    ensures !IsLanguageSupported("xx")
  {
    assert Lower("EN") == "en";
    assert Lower("xx") == "xx";
  }

  /** `translate(texts, sourceLang, targetLang, type)` itself. */
  function AdapterTranslate(a: TranslationAdapter, texts: seq<string>, src: string, tgt: string, t: TranslationType): (r: Result<seq<string>, Error>)
    ensures r.Ok? <==> HasStrategy(a.factory, t)
    ensures r.Ok? ==> r.value == StrategyTranslate(a.factory.strategies[t], texts, src, tgt)
    ensures r.Err? ==> r.error == TranslationFailure("Translation failed")
  {
    match GetStrategy(a.factory, t)
    case Ok(s) => Ok(StrategyTranslate(s, texts, src, tgt))
    case Err(_) => Err(TranslationFailure("Translation failed"))
  }

  /** `translateBinary(content, sourceLang, targetLang, type)` itself. */
  function AdapterTranslateBinary(a: TranslationAdapter, content: seq<byte>, src: string, tgt: string, t: TranslationType): (r: Result<string, Error>)
    ensures r.Ok? <==> HasStrategy(a.factory, t) && StrategyTranslateBinary(a.factory.strategies[t], content, src, tgt).Ok?
    ensures r.Ok? ==> r.value == StrategyTranslateBinary(a.factory.strategies[t], content, src, tgt).value
    ensures r.Err? ==> r.error == TranslationFailure("Binary translation failed")
  {
    match GetStrategy(a.factory, t)
    case Err(_) => Err(TranslationFailure("Binary translation failed"))
    case Ok(s) =>
      match StrategyTranslateBinary(s, content, src, tgt)
      case Ok(v) => Ok(v)
      case Err(_) => Err(TranslationFailure("Binary translation failed"))
  }

  /** `translateFallback`: the input texts. */
  function TranslateFallback(texts: seq<string>): seq<string> {
    texts
  }

  /** `translateBinaryFallback`: the payload decoded as a string. */
  function TranslateBinaryFallback(a: TranslationAdapter, content: seq<byte>): string {
    a.decode(content)
  }

  /** What a caller of the port receives: the call's result, or the fallback
      when it throws. */
  function ResilientTranslate(a: TranslationAdapter, texts: seq<string>, src: string, tgt: string, t: TranslationType): (r: seq<string>)
    ensures |r| == |texts|
    ensures !HasStrategy(a.factory, t) ==> r == texts
    ensures HasStrategy(a.factory, t) ==> r == StrategyTranslate(a.factory.strategies[t], texts, src, tgt)
  {
    match AdapterTranslate(a, texts, src, tgt, t)
    case Ok(v) => v
    case Err(_) => TranslateFallback(texts)
  }

  function ResilientTranslateBinary(a: TranslationAdapter, content: seq<byte>, src: string, tgt: string, t: TranslationType): (r: string)
    ensures AdapterTranslateBinary(a, content, src, tgt, t).Err? ==> r == a.decode(content)
    ensures AdapterTranslateBinary(a, content, src, tgt, t).Ok? ==> r == AdapterTranslateBinary(a, content, src, tgt, t).value
  {
    match AdapterTranslateBinary(a, content, src, tgt, t)
    case Ok(v) => v
    case Err(_) => TranslateBinaryFallback(a, content)
  }

  /** Binary TEXT requests always end in the fallback. */
  lemma TextBinaryFallsBack(a: TranslationAdapter, content: seq<byte>, src: string, tgt: string)
    requires WellKeyed(a.factory)
    ensures ResilientTranslateBinary(a, content, src, tgt, Text) == a.decode(content)
  {
    if HasStrategy(a.factory, Text) {
      assert a.factory.strategies[Text].TextStrategy?;
    }
  }

  /** With the standard strategies and a TEXT client that always fails, the
      port hands back its input. */
  lemma FailingClientReturnsInput(a: TranslationAdapter, texts: seq<string>, src: string, tgt: string)
    requires WellKeyed(a.factory)
    requires Text in a.factory.strategies
    requires forall x, s, g :: a.factory.strategies[Text].client(x, s, g).None?
    ensures ResilientTranslate(a, texts, src, tgt, Text) == texts
  {
    var s := a.factory.strategies[Text];
    assert s.TextStrategy?;
    var rs := StrategyTranslate(s, texts, src, tgt);
    forall i | 0 <= i < |texts| ensures rs[i] == texts[i] {
      TextStrategyPerItem(s.client, texts, src, tgt, i);
    }
  }
}
