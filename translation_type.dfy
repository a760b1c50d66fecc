/** The content types a request can carry, their MIME lists, and the
    MIME-to-type lookup `fromMimeType`. */
module TranslationTypes {
  import opened Common

  datatype TranslationType = Text | Document | Image | Html

  /** `name()`: the constant's identifier, as string concatenation prints it. */
  function Name(t: TranslationType): string {
    match t
    case Text => "TEXT"
    case Document => "DOCUMENT"
    case Image => "IMAGE"
    case Html => "HTML"
  }

  /** `values()`: the enum constants in declaration order. */
  const Declared: seq<TranslationType> := [Text, Document, Image, Html]

  /** The Word (.docx) MIME string, written as two pieces so that proofs can
      look at its prefix without unfolding all of it. */
  const DocxMime: string := "application/" + "vnd.openxmlformats-officedocument.wordprocessingml.document"

  /** The MIME strings each constant is declared with. */
  function MimeTypes(t: TranslationType): seq<string> {
    match t
    case Text => ["text/plain"]
    case Document => ["application/pdf", "application/msword", DocxMime]
    case Image => ["image/jpeg", "image/png", "image/gif", "image/bmp"]
    case Html => ["text/html"]
  }

  /** Does `t` declare a MIME string equal to `mime` ignoring case?
      (`mime.equalsIgnoreCase(null)` is false.) */
  predicate Lists(t: TranslationType, mime: Option<string>) {
    mime.Some? && exists i :: 0 <= i < |MimeTypes(t)| && EqualsIgnoreCase(MimeTypes(t)[i], mime.value)
  }

  /** The nested search of `fromMimeType` over the constants `ts`. */
  function FindType(ts: seq<TranslationType>, mime: Option<string>): TranslationType {
    if ts == [] then Text
    else if Lists(ts[0], mime) then ts[0]
    else FindType(ts[1..], mime)
  }

  /** `TranslationType.fromMimeType`; an unknown or null MIME string gives TEXT. */
  function FromMimeType(mime: Option<string>): TranslationType {
    FindType(Declared, mime)
  }

  /** The search returns the first constant that lists the MIME string. */
  lemma {:induction false} FindTypeFirstMatch(ts: seq<TranslationType>, mime: Option<string>, i: nat)
    requires i < |ts| && Lists(ts[i], mime)
    requires forall j :: 0 <= j < i ==> !Lists(ts[j], mime)
    ensures FindType(ts, mime) == ts[i]
  {
    if i > 0 {
      assert !Lists(ts[0], mime);
      assert ts[1..][i - 1] == ts[i];
      forall j | 0 <= j < i - 1 ensures !Lists(ts[1..][j], mime) {
        assert ts[1..][j] == ts[j + 1];
      }
      FindTypeFirstMatch(ts[1..], mime, i - 1);
    }
  }

  /** When no constant lists the MIME string, the search returns TEXT. */
  lemma {:induction false} FindTypeNoMatch(ts: seq<TranslationType>, mime: Option<string>)
    requires forall i :: 0 <= i < |ts| ==> !Lists(ts[i], mime)
    ensures FindType(ts, mime) == Text
  {
    if ts != [] {
      assert !Lists(ts[0], mime);
      forall j | 0 <= j < |ts| - 1 ensures !Lists(ts[1..][j], mime) {
        assert ts[1..][j] == ts[j + 1];
      }
      FindTypeNoMatch(ts[1..], mime);
    }
  }

  /** The position of each constant in `values()`. */
  function Ordinal(t: TranslationType): (k: nat)
    ensures k < |Declared| && Declared[k] == t
  {
    match t
    case Text => 0
    case Document => 1
    case Image => 2
    case Html => 3
  }

  /** An absent MIME string maps to TEXT. */
  lemma NullMimeIsText()
    ensures FromMimeType(None) == Text
  {
  }

  /** Only the lower-cased form of the MIME string matters. */
  lemma {:induction false} FromMimeTypeIgnoresCase(a: string, b: string)
    requires EqualsIgnoreCase(a, b)
    ensures FromMimeType(Some(a)) == FromMimeType(Some(b))
  {
    forall t: TranslationType ensures Lists(t, Some(a)) == Lists(t, Some(b)) {
    }
    FindTypeRespects(Declared, Some(a), Some(b));
  }

  lemma {:induction false} FindTypeRespects(ts: seq<TranslationType>, a: Option<string>, b: Option<string>)
    requires forall t: TranslationType :: Lists(t, a) == Lists(t, b)
    ensures FindType(ts, a) == FindType(ts, b)
  {
    if ts != [] {
      FindTypeRespects(ts[1..], a, b);
    }
  }

  /** No MIME string is declared by two constants (up to case), so every
      declared MIME string maps back to its own constant. */
  lemma MimeRoundTrip(t: TranslationType, i: nat)
    requires i < |MimeTypes(t)|
    ensures FromMimeType(Some(MimeTypes(t)[i])) == t
  {
    var m := MimeTypes(t)[i];
    assert Lists(t, Some(m)) by {
      assert EqualsIgnoreCase(MimeTypes(t)[i], m);
    }
    if t != Text {
      OthersDoNotList(t, i, Text);
    }
    if t == Image || t == Html {
      OthersDoNotList(t, i, Document);
    }
    if t == Html {
      OthersDoNotList(t, i, Image);
    }
    FindTypeFirstMatch(Declared, Some(m), Ordinal(t));
  }

  lemma OthersDoNotList(t: TranslationType, i: nat, u: TranslationType)
    requires i < |MimeTypes(t)| && u != t
    ensures !Lists(u, Some(MimeTypes(t)[i]))
  {
    forall j | 0 <= j < |MimeTypes(u)| ensures Lower(MimeTypes(u)[j]) != Lower(MimeTypes(t)[i]) {
      DistinctMimes(t, i, u, j);
    }
  }

  /** The lower-cased first character, and for the two `text/...` types the
      sixth one, tell the declared MIME strings of different constants apart. */
  function Signature(t: TranslationType): (char, char) {
    match t
    case Text => ('t', 'p')
    case Document => ('a', 'i')
    case Image => ('i', 'i')
    case Html => ('t', 'h')
  }

  lemma MimeSignature(t: TranslationType, i: nat)
    requires i < |MimeTypes(t)|
    ensures |MimeTypes(t)[i]| > 5
    ensures Lower(MimeTypes(t)[i])[0] == Signature(t).0
    ensures Lower(MimeTypes(t)[i])[5] == Signature(t).1 || Signature(t).0 != 't'
  {
    var m := MimeTypes(t)[i];
    MimeHead(t, i);
    assert Lower(m)[0] == LowerChar(m[0]) && Lower(m)[5] == LowerChar(m[5]);
  }

  /** The declared strings are lower case already, so the signature can be
      read off them directly. */
  lemma MimeHead(t: TranslationType, i: nat)
    requires i < |MimeTypes(t)|
    ensures |MimeTypes(t)[i]| > 5 && MimeTypes(t)[i][0] == Signature(t).0
    ensures MimeTypes(t)[i][5] == Signature(t).1 || Signature(t).0 != 't'
  {
    var m := MimeTypes(t)[i];
    match t
    case Text => assert m == "text/plain";
    case Html => assert m == "text/html";
    case Document =>
      if i == 0 { assert m == "application/pdf"; }
      else if i == 1 { assert m == "application/msword"; }
      else { assert m == DocxMime && DocxMime[..12] == "application/"; }
    case Image =>
      if i == 0 { assert m == "image/jpeg"; }
      else if i == 1 { assert m == "image/png"; }
      else if i == 2 { assert m == "image/gif"; }
      else { assert m == "image/bmp"; }
  }

  lemma DistinctMimes(t: TranslationType, i: nat, u: TranslationType, j: nat)
    requires t != u && i < |MimeTypes(t)| && j < |MimeTypes(u)|
    ensures Lower(MimeTypes(u)[j]) != Lower(MimeTypes(t)[i])
  {
    MimeSignature(t, i);
    MimeSignature(u, j);
  }

  /** Example: the lookup ignores case. */
  lemma UpperCasePngIsImage()
    ensures FromMimeType(Some("IMAGE/PNG")) == Image
  {
    assert Lower("IMAGE/PNG") == "image/png";
    FromMimeTypeIgnoresCase("IMAGE/PNG", "image/png");
    MimeRoundTrip(Image, 1);
  }
}
