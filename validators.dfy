/** The four request validators and the order the chain runs them in. Each
    `doValidate` either returns (`Pass`) or throws (`Fail`); a validator that
    dereferences a field an earlier one should have rejected throws
    `NullPointerException` when run on its own. */
module Validators {
  import opened Common
  import opened TranslationTypes
  import opened Model
  import Adapter

  // ---------------------------------------------------------------
  // RequiredFieldsValidator
  // ---------------------------------------------------------------

  /** A non-null, non-empty text list. */
  predicate HasTexts(r: Request) {
    r.texts.Some? && |r.texts.value| > 0
  }

  /** A non-null, non-blank string field. */
  predicate Given(s: Option<string>) {
    s.Some? && !IsBlank(s.value)
  }

  /** `RequiredFieldsValidator.doValidate`: request, texts, source, target,
      type, in that order; the first missing one is reported. */
  function RequiredFields(req: Option<Request>): (o: Outcome<Error>)
    ensures o.Fail? ==> o.error.InvalidInput?
    ensures o.Pass? <==>
      req.Some? && HasTexts(req.value) && Given(req.value.sourceLanguage)
      && Given(req.value.targetLanguage) && req.value.ttype.Some?
    ensures req.None? ==> o == Fail(InvalidInput(NullRequest))
    ensures req.Some? && !HasTexts(req.value) ==> o == Fail(InvalidInput(MissingTexts))
    ensures req.Some? && HasTexts(req.value) && !Given(req.value.sourceLanguage) ==>
      o == Fail(InvalidInput(MissingSourceLanguage))
    ensures (req.Some? && HasTexts(req.value) && Given(req.value.sourceLanguage)
             && !Given(req.value.targetLanguage)) ==> o == Fail(InvalidInput(MissingTargetLanguage))
    ensures (req.Some? && HasTexts(req.value) && Given(req.value.sourceLanguage)
             && Given(req.value.targetLanguage) && req.value.ttype.None?) ==> o == Fail(InvalidInput(MissingType))
  {
    if req.None? then Fail(InvalidInput(NullRequest))
    else
      var r := req.value;
      if r.texts.None? || |r.texts.value| == 0 then Fail(InvalidInput(MissingTexts))
      else if r.sourceLanguage.None? || IsBlank(r.sourceLanguage.value) then Fail(InvalidInput(MissingSourceLanguage))
      else if r.targetLanguage.None? || IsBlank(r.targetLanguage.value) then Fail(InvalidInput(MissingTargetLanguage))
      else if r.ttype.None? then Fail(InvalidInput(MissingType))
      else Pass
  }

  // ---------------------------------------------------------------
  // SizeValidator
  // ---------------------------------------------------------------

  const MaxTexts: nat := 1000
  const MaxTextLength: nat := 10000
  const MaxFileSize: nat := 10 * 1024 * 1024

  /** A text entry the per-text loop lets through. */
  predicate TextOk(t: Option<string>) {
    t.Some? && Utf16Length(t.value) <= MaxTextLength
  }

  /** The per-text loop of the size check: the first null or over-long
      entry, reported with its index. */
  function FirstBadText(texts: seq<Option<string>>, from: nat): (r: Option<InvalidReason>)
    requires from <= |texts|
    ensures r.None? <==> forall i :: from <= i < |texts| ==> TextOk(texts[i])
    ensures r.Some? ==> (r.value.NullText? || r.value.TextTooLong?)
    ensures r.Some? && r.value.NullText? ==>
      from <= r.value.index < |texts| && texts[r.value.index].None?
      && forall i :: from <= i < r.value.index ==> TextOk(texts[i])
    ensures r.Some? && r.value.TextTooLong? ==>
      from <= r.value.index < |texts| && texts[r.value.index].Some?
      && Utf16Length(texts[r.value.index].value) > MaxTextLength
      && forall i :: from <= i < r.value.index ==> TextOk(texts[i])
    decreases |texts| - from
  {
    if from == |texts| then None
    else if texts[from].None? then Some(NullText(from))
    else if Utf16Length(texts[from].value) > MaxTextLength then Some(TextTooLong(from))
    else FirstBadText(texts, from + 1)
  }

  /** `SizeValidator.doValidate`: the count, then each text, then the file. */
  function Size(req: Option<Request>): Outcome<Error> {
    if req.None? || req.value.texts.None? then Fail(NullDereference)
    else
      var r := req.value;
      var texts := r.texts.value;
      if |texts| > MaxTexts then Fail(InvalidInput(TooManyTexts(|texts|)))
      else match FirstBadText(texts, 0)
        case Some(reason) => Fail(InvalidInput(reason))
        case None =>
          if r.fileContent.Some? && |r.fileContent.value| > MaxFileSize then Fail(InvalidInput(FileTooLarge))
          else Pass
  }

  /** The size limits are inclusive: exactly 1000 texts of exactly 10000
      units and a file of exactly 10 MiB pass, one more of any fails. */
  lemma SizeBoundaries(r: Request)
    requires r.texts.Some?
    ensures |r.texts.value| > MaxTexts ==> Size(Some(r)) == Fail(InvalidInput(TooManyTexts(|r.texts.value|)))
    ensures Size(Some(r)).Pass? <==>
      |r.texts.value| <= 1000
      && (forall i :: 0 <= i < |r.texts.value| ==> r.texts.value[i].Some? && Utf16Length(r.texts.value[i].value) <= 10000)
      && (r.fileContent.None? || |r.fileContent.value| <= 10485760)
  {
  }

  // ---------------------------------------------------------------
  // LanguageValidator
  // ---------------------------------------------------------------

  /** `LanguageValidator.doValidate`: both codes are lower-cased first; the
      source is checked, then the target, then that they differ. */
  function Language(req: Option<Request>): (o: Outcome<Error>)
    ensures o.Fail? && o.error.UnsupportedLanguage? ==> req.Some? && req.value.sourceLanguage.Some? && req.value.targetLanguage.Some?
  {
    if req.None? || req.value.sourceLanguage.None? || req.value.targetLanguage.None? then Fail(NullDereference)
    else
      var src := Lower(req.value.sourceLanguage.value);
      var tgt := Lower(req.value.targetLanguage.value);
      if !Adapter.IsLanguageSupported(src) then Fail(UnsupportedLanguage(UnsupportedSource(src)))
      else if !Adapter.IsLanguageSupported(tgt) then Fail(UnsupportedLanguage(UnsupportedTarget(tgt)))
      else if src == tgt then Fail(UnsupportedLanguage(SameLanguage))
      else Pass
  }

  /** The language check passes exactly when both codes are supported and
      differ ignoring case. */
  lemma LanguagePassesIff(r: Request)
    requires r.sourceLanguage.Some? && r.targetLanguage.Some?
    ensures Language(Some(r)).Pass? <==>
      Adapter.IsLanguageSupported(r.sourceLanguage.value)
      && Adapter.IsLanguageSupported(r.targetLanguage.value)
      && !EqualsIgnoreCase(r.sourceLanguage.value, r.targetLanguage.value)
  {
    Adapter.LanguageSupportIgnoresCase(r.sourceLanguage.value);
    Adapter.LanguageSupportIgnoresCase(r.targetLanguage.value);
  }

  /** Which error the language check reports: an unsupported source is
      reported first and the target is then not looked at; an unsupported
      target next; codes equal ignoring case last. Codes are reported
      lower-cased. */
  lemma LanguageFailureReasons(r: Request)
    requires r.sourceLanguage.Some? && r.targetLanguage.Some?
    ensures !Adapter.IsLanguageSupported(r.sourceLanguage.value) ==>
      Language(Some(r)) == Fail(UnsupportedLanguage(UnsupportedSource(Lower(r.sourceLanguage.value))))
    ensures (Adapter.IsLanguageSupported(r.sourceLanguage.value) && !Adapter.IsLanguageSupported(r.targetLanguage.value)) ==>
      Language(Some(r)) == Fail(UnsupportedLanguage(UnsupportedTarget(Lower(r.targetLanguage.value))))
    ensures (Adapter.IsLanguageSupported(r.sourceLanguage.value) && Adapter.IsLanguageSupported(r.targetLanguage.value)
             && EqualsIgnoreCase(r.sourceLanguage.value, r.targetLanguage.value)) ==>
      Language(Some(r)) == Fail(UnsupportedLanguage(SameLanguage))
  {
    LowerIdempotent(r.sourceLanguage.value);
    LowerIdempotent(r.targetLanguage.value);
  }

  /** "EN" to "en" is rejected as the same language. */
  lemma SameLanguageIgnoresCase(r: Request)
    requires r.sourceLanguage == Some("EN") && r.targetLanguage == Some("en")
    ensures Language(Some(r)) == Fail(UnsupportedLanguage(SameLanguage))
  {
    assert Lower("EN") == "en";
    assert Lower("en") == "en";
  }

  // ---------------------------------------------------------------
  // FormatValidator
  // ---------------------------------------------------------------

  /** `HTML_PATTERN.matcher(text).find()` for `<[^>]+>`: a '<', then at
      least one character other than '>', then a '>'. */
  predicate ContainsTag(t: string) {
    exists i, j :: 0 <= i && i + 1 < j < |t| && t[i] == '<' && t[j] == '>'
      && forall k :: i < k < j ==> t[k] != '>'
  }

  /** The `anyMatch` scan of the HTML branch: it stops at the first text
      with a tag, and a null entry met before that throws. Whether a tag
      was found only decides a log line. */
  function HtmlScan(texts: seq<Option<string>>): (o: Outcome<Error>)
    ensures (forall i :: 0 <= i < |texts| ==> texts[i].Some?) ==> o == Pass
    ensures o.Fail? ==> o.error == NullDereference
  {
    if texts == [] then Pass
    else if texts[0].None? then Fail(NullDereference)
    else if ContainsTag(texts[0].value) then Pass
    else HtmlScan(texts[1..])
  }

  predicate Present(b: Option<seq<byte>>) {
    b.Some? && |b.value| > 0
  }

  /** `FormatValidator.doValidate`: DOCUMENT and IMAGE need file content
      and then a content type; HTML only scans; TEXT passes. */
  function Format(req: Option<Request>): Outcome<Error> {
    if req.None? || req.value.ttype.None? then Fail(NullDereference)
    else
      var r := req.value;
      match r.ttype.value
      case Document | Image =>
        if !Present(r.fileContent) then Fail(InvalidInput(MissingFileContent(r.ttype.value)))
        else if r.contentType.None? || IsBlank(r.contentType.value) then Fail(InvalidInput(MissingContentType))
        else Pass
      case Html => if r.texts.None? then Fail(NullDereference) else HtmlScan(r.texts.value)
      case Text => Pass
  }

  // ---------------------------------------------------------------
  // The chain
  // ---------------------------------------------------------------

  datatype ValidatorKind = RequiredFieldsCheck | SizeCheck | LanguageCheck | FormatCheck

  /** `doValidate` of each concrete handler. */
  function DoValidate(k: ValidatorKind, req: Option<Request>): Outcome<Error> {
    match k
    case RequiredFieldsCheck => RequiredFields(req)
    case SizeCheck => Size(req)
    case LanguageCheck => Language(req)
    case FormatCheck => Format(req)
  }

  /** `AbstractValidationHandler.validate` along a chain of handlers: own
      check first, then the next handler, if any. */
  function RunChain(ks: seq<ValidatorKind>, req: Option<Request>): Outcome<Error> {
    if ks == [] then Pass
    else match DoValidate(ks[0], req)
      case Fail(e) => Fail(e)
      case Pass => RunChain(ks[1..], req)
  }

  /** The chain returns normally exactly when every check passes; otherwise
      it throws the error of the first failing check, and no later check
      runs. */
  lemma {:induction false} RunChainFirstFailure(ks: seq<ValidatorKind>, req: Option<Request>)
    ensures RunChain(ks, req).Pass? <==> forall i :: 0 <= i < |ks| ==> DoValidate(ks[i], req).Pass?
    ensures RunChain(ks, req).Fail? ==>
      exists i :: (0 <= i < |ks| && DoValidate(ks[i], req) == RunChain(ks, req)
                   && forall j :: 0 <= j < i ==> DoValidate(ks[j], req).Pass?)
  {
    if ks != [] {
      RunChainFirstFailure(ks[1..], req);
      assert forall i :: 1 <= i < |ks| ==> ks[1..][i - 1] == ks[i];
      if DoValidate(ks[0], req).Pass? && RunChain(ks[1..], req).Fail? {
        var i :| 0 <= i < |ks[1..]| && DoValidate(ks[1..][i], req) == RunChain(ks[1..], req)
          && forall j :: 0 <= j < i ==> DoValidate(ks[1..][j], req).Pass?;
        assert DoValidate(ks[i + 1], req) == RunChain(ks, req);
      }
    }
  }

  /** `ValidationChain`'s wiring: Required, then Size, then Language, then
      Format. */
  const ChainOrder: seq<ValidatorKind> := [RequiredFieldsCheck, SizeCheck, LanguageCheck, FormatCheck]

  /** `ValidationChain.validate`. */
  function Validate(req: Option<Request>): Outcome<Error> {
    RunChain(ChainOrder, req)
  }

  /** What a request must look like to get through, stated field by field. */
  predicate Acceptable(req: Option<Request>) {
    req.Some?
    && var r := req.value;
    r.texts.Some? && 0 < |r.texts.value| <= MaxTexts
    && (forall i :: 0 <= i < |r.texts.value| ==> TextOk(r.texts.value[i]))
    && r.sourceLanguage.Some? && r.targetLanguage.Some? && r.ttype.Some?
    && (r.fileContent.None? || |r.fileContent.value| <= MaxFileSize)
    && Adapter.IsLanguageSupported(r.sourceLanguage.value)
    && Adapter.IsLanguageSupported(r.targetLanguage.value)
    && !EqualsIgnoreCase(r.sourceLanguage.value, r.targetLanguage.value)
    && (r.ttype.value == Document || r.ttype.value == Image ==>
          Present(r.fileContent) && r.contentType.Some? && !IsBlank(r.contentType.value))
  }

  /** A blank code is never a supported one. */
  lemma BlankUnsupported(code: string)
    ensures IsBlank(code) ==> !Adapter.IsLanguageSupported(code)
  {
    if IsBlank(code) {
      var l := Lower(code);
      if |code| > 0 {
        assert IsWhitespace(l[0]);
      }
      forall i | 0 <= i < |Adapter.SupportedLanguages| ensures Adapter.SupportedLanguages[i] != l {
        assert |Adapter.SupportedLanguages[i]| == 2 && 'a' <= Adapter.SupportedLanguages[i][0] <= 'z';
      }
    }
  }

  /** The chain passes exactly when each of the four checks passes. */
  lemma ValidateIsConjunction(req: Option<Request>)
    ensures Validate(req).Pass? <==>
      RequiredFields(req).Pass? && Size(req).Pass? && Language(req).Pass? && Format(req).Pass?
  {
    RunChainFirstFailure(ChainOrder, req);
    assert ChainOrder[0] == RequiredFieldsCheck && ChainOrder[1] == SizeCheck;
    assert ChainOrder[2] == LanguageCheck && ChainOrder[3] == FormatCheck;
  }

  /** With every text present, the format check only looks at binary
      requests. */
  lemma FormatPassesIff(r: Request)
    requires r.ttype.Some? && r.texts.Some?
    requires forall i :: 0 <= i < |r.texts.value| ==> r.texts.value[i].Some?
    ensures Format(Some(r)).Pass? <==>
      (r.ttype.value == Document || r.ttype.value == Image ==>
         Present(r.fileContent) && r.contentType.Some? && !IsBlank(r.contentType.value))
  {
  }

  /** Which error the format check reports for a binary request: missing
      file content is checked first, then a null or blank content type. */
  lemma FormatFailureReasons(r: Request)
    requires r.ttype == Some(Document) || r.ttype == Some(Image)
    ensures !Present(r.fileContent) ==> Format(Some(r)) == Fail(InvalidInput(MissingFileContent(r.ttype.value)))
    ensures (Present(r.fileContent) && (r.contentType.None? || IsBlank(r.contentType.value))) ==>
      Format(Some(r)) == Fail(InvalidInput(MissingContentType))
  {
  }

  /** A request the chain lets through is acceptable. */
  lemma PassedIsAcceptable(req: Option<Request>)
    requires Validate(req).Pass?
    ensures Acceptable(req)
  {
    ValidateIsConjunction(req);
    var r := req.value;
    LanguagePassesIff(r);
    SizeBoundaries(r);
    FormatPassesIff(r);
  }

  /** An acceptable request has every required field: its language codes,
      being supported, are not blank. */
  lemma AcceptableHasRequiredFields(req: Option<Request>)
    requires Acceptable(req)
    ensures RequiredFields(req).Pass?
  {
    var r := req.value;
    BlankUnsupported(r.sourceLanguage.value);
    BlankUnsupported(r.targetLanguage.value);
  }

  /** An acceptable request gets through the chain. */
  lemma AcceptableIsPassed(req: Option<Request>)
    requires Acceptable(req)
    ensures Validate(req).Pass?
  {
    var r := req.value;
    AcceptableHasRequiredFields(req);
    LanguagePassesIff(r);
    SizeBoundaries(r);
    FormatPassesIff(r);
    ValidateIsConjunction(req);
  }

  /** The chain accepts exactly the acceptable requests. */
  lemma ValidateIffAcceptable(req: Option<Request>)
    ensures Validate(req).Pass? <==> Acceptable(req)
  {
    if Validate(req).Pass? {
      PassedIsAcceptable(req);
    }
    if Acceptable(req) {
      AcceptableIsPassed(req);
    }
  }

  /** Run as a chain, no validator ever dereferences a missing field: every
      error the chain raises is an invalid-input or unsupported-language
      error. */
  lemma ChainNeverDereferencesNull(req: Option<Request>)
    ensures Validate(req).Fail? ==> Validate(req).error.InvalidInput? || Validate(req).error.UnsupportedLanguage?
  {
    RunChainFirstFailure(ChainOrder, req);
  }

  /** An HTML request without any tag still passes the chain. */
  lemma HtmlWithoutTagsPasses(req: Option<Request>)
    requires Acceptable(req) && req.value.ttype == Some(Html)
    requires forall i :: 0 <= i < |req.value.texts.value| ==> !ContainsTag(req.value.texts.value[i].value)
    ensures Validate(req) == Pass
  {
    ValidateIffAcceptable(req);
  }

  /** A request without texts that is also oversize fails on the missing
      texts: the required-fields check comes first. */
  lemma MissingTextsReportedBeforeSize(r: Request)
    requires r.texts.None? || r.texts == Some([])
    ensures Validate(Some(r)) == Fail(InvalidInput(MissingTexts))
  {
  }

  /** Document and image requests as the upload endpoint builds them, with
      an empty text list, are always rejected. */
  lemma BinaryRequestWithoutTextsRejected(r: Request)
    requires r.texts == Some([]) && (r.ttype == Some(Document) || r.ttype == Some(Image))
    requires Present(r.fileContent) && r.contentType.Some? && !IsBlank(r.contentType.value)
    ensures Validate(Some(r)) == Fail(InvalidInput(MissingTexts))
  {
  }
}
