/** The request the service accepts and the errors the core raises. Java
    exceptions become the `Error` datatype; their messages are replaced by a
    structured reason. */
module Model {
  import opened Common
  import opened TranslationTypes

  /** `TranslationRequest`. Every Java reference field may be null, and so
      may each entry of `texts`. The three flags are carried but, as in the
      source, nothing reads them. */
  datatype Request = Request(
    texts: Option<seq<Option<string>>>,
    sourceLanguage: Option<string>,
    targetLanguage: Option<string>,
    ttype: Option<TranslationType>,
    contentType: Option<string>,
    fileContent: Option<seq<byte>>,
    useCache: bool,
    removeDuplicates: bool,
    removeSensitiveData: bool)

  /** Why an `InvalidInputException` was raised. */
  datatype InvalidReason =
    | NullRequest
    | MissingTexts
    | MissingSourceLanguage
    | MissingTargetLanguage
    | MissingType
    | TooManyTexts(count: nat)
    | NullText(index: nat)
    | TextTooLong(index: nat)
    | FileTooLarge
    | MissingFileContent(ttype: TranslationType)
    | MissingContentType

  /** Why an `UnsupportedLanguageException` was raised; codes are lower-cased. */
  datatype LanguageReason =
    | UnsupportedSource(code: string)
    | UnsupportedTarget(code: string)
    | SameLanguage

  datatype Error =
    | InvalidInput(reason: InvalidReason)
    | UnsupportedLanguage(language: LanguageReason)
    /** `TranslationException` with its message. */
    | TranslationFailure(message: string)
    /** `UnsupportedOperationException`. */
    | UnsupportedOperation
    /** `NullPointerException`. */
    | NullDereference
    /** `IndexOutOfBoundsException`. */
    | IndexOutOfBounds
    /** `IllegalStateException` of `Collectors.toMap` on a repeated key. */
    | DuplicateKey(key: TranslationType)
    /** An exception raised by an external collaborator. */
    | ProviderFailure
    /** `RuntimeException("Pipeline failed at step: " + step)`. */
    | PipelineFailure(step: string, cause: Error)
}
