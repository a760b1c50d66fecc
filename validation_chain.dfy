/** The chain of responsibility as objects: each handler holds a mutable
    link to the next one, `setNext` rewires it, and `ValidationChain` wires
    the four handlers once in its constructor. */
module ValidationChains {
  import opened Common
  import opened Model
  import opened Validators

  /** `AbstractValidationHandler` with the `doValidate` of one concrete
      validator, chosen by `kind`. */
  class ValidationHandler {
    const kind: ValidatorKind
    var next: ValidationHandler?

    constructor (kind: ValidatorKind)
      ensures this.kind == kind && next == null
    {
      this.kind := kind;
      next := null;
    }

    /** `setNext(next)`: stores the link and returns its argument, so that
        calls can be chained. */
    method SetNext(n: ValidationHandler) returns (r: ValidationHandler)
      modifies this
      ensures next == n && r == n
    {
      next := n;
      r := n;
    }

    /** `validate(request)`: this handler's own check, then the rest of the
        chain `links`, which starts at this handler. */
    method Validate(req: Option<Request>, ghost links: seq<ValidationHandler>) returns (o: Outcome<Error>)
      requires Linked(links) && links[0] == this
      ensures o == RunChain(KindsOf(links), req)
      decreases |links|
    {
      o := DoValidate(kind, req);
      if o.Fail? {
        return;
      }
      if next != null {
        assert links[1..][0] == next;
        assert KindsOf(links)[1..] == KindsOf(links[1..]);
        o := next.Validate(req, links[1..]);
      } else {
        assert 0 < |links| - 1 ==> links[0].next == links[1];
      }
    }
  }

  /** `links` is a finite chain: each handler's `next` is the following
      one, and the last handler has none. */
  ghost predicate Linked(links: seq<ValidationHandler>)
    reads set h | h in links
  {
    |links| > 0
    && (forall i :: 0 <= i < |links| - 1 ==> links[i].next == links[i + 1])
    && links[|links| - 1].next == null
  }

  function KindsOf(links: seq<ValidationHandler>): (ks: seq<ValidatorKind>)
    ensures |ks| == |links|
    ensures forall i :: 0 <= i < |links| ==> ks[i] == links[i].kind
  {
    if links == [] then [] else [links[0].kind] + KindsOf(links[1..])
  }

  /** `ValidationChain`. */
  class ValidationChain {
    const firstHandler: ValidationHandler
    ghost const handlers: seq<ValidationHandler>

    ghost predicate Valid()
      reads this, set h | h in handlers
    {
      Linked(handlers) && handlers[0] == firstHandler && KindsOf(handlers) == ChainOrder
    }

    /** Wires Required -> Size -> Language -> Format with fluent `setNext`
        calls. */
    constructor (required: ValidationHandler, size: ValidationHandler,
                 language: ValidationHandler, format: ValidationHandler)
      requires required.kind == RequiredFieldsCheck && size.kind == SizeCheck
      requires language.kind == LanguageCheck && format.kind == FormatCheck
      requires format.next == null
      modifies required, size, language
      ensures Valid()
      ensures firstHandler == required && handlers == [required, size, language, format]
    {
      firstHandler := required;
      handlers := [required, size, language, format];
      var link := required.SetNext(size);
      link := link.SetNext(language);
      link := link.SetNext(format);
    }

    /** `validate(request)`: the whole chain from the first handler. */
    method Validate(req: Option<Request>) returns (o: Outcome<Error>)
      requires Valid()
      ensures o == Validators.Validate(req)
    {
      o := firstHandler.Validate(req, handlers);
    }
  }
}
