/** The four translation strategies. The vendor calls they make (AWS
    Translate, Apache Tika, Amazon Bedrock, the Jsoup walk of the HTML
    strategy, the platform charset decoder) are function-valued fields: a
    call that throws returns `None`. */
module Strategies {
  import opened Common
  import opened TranslationTypes
  import opened Model
  import opened Utf16

  /** `translateClient.translateText` on (text, source, target). */
  type TextClient = (string, string, string) -> Option<string>

  datatype Strategy =
    | TextStrategy(client: TextClient)
    /** `extract` is Tika's text extraction. */
    | DocumentStrategy(client: TextClient, extract: seq<byte> -> Option<string>)
    /** `vision` is the Bedrock call and the scraping of its answer. */
    | ImageStrategy(vision: (seq<byte>, string, string) -> Option<string>)
    /** `translateHtml` walks the document's text nodes; `decode` is
        `new String(bytes)`. */
    | HtmlStrategy(translateHtml: TextClient, decode: seq<byte> -> string)

  /** `getType()`. */
  function GetType(s: Strategy): TranslationType {
    match s
    case TextStrategy(_) => Text
    case DocumentStrategy(_, _) => Document
    case ImageStrategy(_) => Image
    case HtmlStrategy(_, _) => Html
  }

  /** `supports(type)`: each strategy compares against its own constant. */
  predicate Supports(s: Strategy, t: TranslationType) {
    match s
    case TextStrategy(_) => t == Text
    case DocumentStrategy(_, _) => t == Document
    case ImageStrategy(_) => t == Image
    case HtmlStrategy(_, _) => t == Html
  }

  /** A strategy supports exactly the type it reports. */
  lemma SupportsIffType(s: Strategy, t: TranslationType)
    ensures Supports(s, t) <==> GetType(s) == t
  {
  }

  /** A call with the try/catch fallback to the original text around it. */
  function TranslateOrKeep(client: TextClient, text: string, src: string, tgt: string): (r: string)
    ensures client(text, src, tgt).Some? ==> r == client(text, src, tgt).value
    ensures client(text, src, tgt).None? ==> r == text
  {
    match client(text, src, tgt)
    case Some(t) => t
    case None => text
  }

  // ---------------------------------------------------------------
  // Document chunking
  // ---------------------------------------------------------------

  /** `MAX_CHUNK_SIZE` of `translateLargeText`, in UTF-16 code units as
      `length()` and `substring` count them. */
  const MaxChunkSize: nat := 5000

  /** `splitIntoChunks(text, n)` on the code units of the text: consecutive
      pieces of `n` units, the last one shorter. A piece may end in the high
      half of a surrogate pair and the next begin with the low half. */
  function Chunks(units: seq<int>, n: nat): seq<seq<int>>
    requires n > 0
    decreases |units|
  {
    if |units| == 0 then []
    else if |units| <= n then [units]
    else [units[..n]] + Chunks(units[n..], n)
  }

  /** A `StringBuilder` appending pieces of code units. */
  function Concat(ss: seq<seq<int>>): seq<int> {
    if ss == [] then [] else Concat(ss[..|ss| - 1]) + ss[|ss| - 1]
  }

  lemma {:induction false} ConcatAppend(a: seq<seq<int>>, b: seq<seq<int>>)
    ensures Concat(a + b) == Concat(a) + Concat(b)
    decreases |b|
  {
    if b == [] {
      assert a + b == a;
    } else {
      var front, last := b[..|b| - 1], b[|b| - 1];
      assert (a + b)[..|a + b| - 1] == a + front;
      assert (a + b)[|a + b| - 1] == last;
      ConcatAppend(a, front);
      calc {
        Concat(a + b);
        Concat(a + front) + last;
        (Concat(a) + Concat(front)) + last;
        Concat(a) + (Concat(front) + last);
        Concat(a) + Concat(b);
      }
    }
  }

  /** Joining the chunks gives back the units. */
  lemma {:induction false} ChunksConcat(units: seq<int>, n: nat)
    requires n > 0
    ensures Concat(Chunks(units, n)) == units
    decreases |units|
  {
    if |units| == 0 {
    } else if |units| <= n {
      assert Concat([units]) == Concat([]) + units;
    } else {
      ChunksConcat(units[n..], n);
      ConcatAppend([units[..n]], Chunks(units[n..], n));
      assert Concat([units[..n]]) == Concat([]) + units[..n];
      assert units[..n] + units[n..] == units;
    }
  }

  lemma DivStep(x: nat, n: nat)
    requires n > 0
    ensures (x + n) / n == x / n + 1
  {
    var q, r := x / n, x % n;
    assert x == q * n + r && 0 <= r < n;
    assert x + n == (q + 1) * n + r;
    DivUnique(x + n, n, q + 1, r);
  }

  lemma DivUnique(a: int, n: int, q: int, r: int)
    requires n > 0 && 0 <= r < n && a == q * n + r
    ensures a / n == q
  {
    var q', r' := a / n, a % n;
    assert a == q' * n + r' && 0 <= r' < n;
    if q > q' {
      MulAtLeast(q - q', n);
      assert false;
    } else if q < q' {
      MulAtLeast(q' - q, n);
      assert false;
    }
  }

  lemma {:induction false} MulAtLeast(d: nat, n: nat)
    requires d >= 1
    ensures d * n >= n
  {
    if d > 1 {
      MulAtLeast(d - 1, n);
      assert d * n == (d - 1) * n + n;
    }
  }

  /** There are ceil(|units| / n) chunks. */
  lemma {:induction false} ChunkCount(units: seq<int>, n: nat)
    requires n > 0
    ensures |Chunks(units, n)| == (|units| + n - 1) / n
    decreases |units|
  {
    if |units| == 0 {
    } else if |units| <= n {
      assert (|units| + n - 1) / n == 1;
    } else {
      ChunkCount(units[n..], n);
      DivStep(|units| - n + n - 1, n);
    }
  }

  /** Every chunk is non-empty and at most `n` units long, and all but the
      last are exactly `n` units long. */
  lemma {:induction false} ChunkSizes(units: seq<int>, n: nat)
    requires n > 0
    ensures forall k :: 0 <= k < |Chunks(units, n)| ==> 0 < |Chunks(units, n)[k]| <= n
    ensures forall k :: 0 <= k < |Chunks(units, n)| - 1 ==> |Chunks(units, n)[k]| == n
    decreases |units|
  {
    if |units| > n {
      ChunkSizes(units[n..], n);
      var rest := Chunks(units[n..], n);
      assert Chunks(units, n) == [units[..n]] + rest;
    }
  }

  /** The suffix of `units` from `i` on; empty once `i` passes the end. */
  function Drop(units: seq<int>, i: nat): seq<int> {
    if i >= |units| then [] else units[i..]
  }

  /** The chunks from position `i` on: the units up to `i + n` (or the
      end), then the chunks from `i + n` on. */
  lemma ChunksFrom(units: seq<int>, n: nat, i: nat)
    requires n > 0 && i < |units|
    ensures var end := if i + n < |units| then i + n else |units|;
      Chunks(Drop(units, i), n) == [units[i..end]] + Chunks(Drop(units, i + n), n)
  {
    var end := if i + n < |units| then i + n else |units|;
    var t := units[i..];
    if |t| > n {
      assert t[..n] == units[i..end];
      assert t[n..] == Drop(units, i + n);
    } else {
      assert t == units[i..end];
      assert Drop(units, i + n) == [];
    }
  }

  /** One turn of the loop of `splitIntoChunks` keeps its invariant. */
  lemma ChunksStep(units: seq<int>, n: nat, i: nat, chunks: seq<seq<int>>)
    requires n > 0 && i < |units|
    requires chunks + Chunks(Drop(units, i), n) == Chunks(units, n)
    ensures var end := if i + n < |units| then i + n else |units|;
      (chunks + [units[i..end]]) + Chunks(Drop(units, i + n), n) == Chunks(units, n)
  {
    var end := if i + n < |units| then i + n else |units|;
    ChunksFrom(units, n, i);
    var rest := Chunks(Drop(units, i + n), n);
    assert (chunks + [units[i..end]]) + rest == chunks + ([units[i..end]] + rest);
  }

  /** `splitIntoChunks`: `for (i = 0; i < length; i += chunkSize)` adding
      `text.substring(i, min(i + chunkSize, length))`, on the code units. */
  method SplitIntoChunks(units: seq<int>, chunkSize: nat) returns (chunks: seq<seq<int>>)
    requires chunkSize > 0
    ensures chunks == Chunks(units, chunkSize)
  {
    chunks := [];
    var i := 0;
    while i < |units|
      invariant chunks + Chunks(Drop(units, i), chunkSize) == Chunks(units, chunkSize)
      decreases |units| - i
    {
      var end := if i + chunkSize < |units| then i + chunkSize else |units|;
      ChunksStep(units, chunkSize, i, chunks);
      chunks := chunks + [units[i..end]];
      i := i + chunkSize;
    }
    assert Drop(units, i) == [];
  }

  /** `translateChunk` on a piece of code units: the client is handed the
      piece as text, and its answer is appended as units; on failure the
      piece itself is appended. Either way the units read back as the
      client's answer or as the piece. */
  function TranslateChunk(client: TextClient, chunk: seq<int>, src: string, tgt: string): (r: seq<int>)
    ensures client(Utf16Decode(chunk), src, tgt).Some? ==> Utf16Decode(r) == client(Utf16Decode(chunk), src, tgt).value
    ensures client(Utf16Decode(chunk), src, tgt).None? ==> r == chunk
  {
    match client(Utf16Decode(chunk), src, tgt)
    case Some(t) => DecodeUnits(t); Utf16Units(t)
    case None => chunk
  }

  /** `translateChunk` on each chunk, in order. */
  function TranslateEach(client: TextClient, chunks: seq<seq<int>>, src: string, tgt: string): (rs: seq<seq<int>>)
    ensures |rs| == |chunks|
    ensures forall k :: 0 <= k < |chunks| ==> rs[k] == TranslateChunk(client, chunks[k], src, tgt)
  {
    if chunks == [] then []
    else TranslateEach(client, chunks[..|chunks| - 1], src, tgt) + [TranslateChunk(client, chunks[|chunks| - 1], src, tgt)]
  }

  /** `translateLargeText`: a text of at most 5000 code units is one chunk
      call; a longer one is split into pieces of 5000 units whose
      translations are joined. */
  function LargeText(client: TextClient, text: string, src: string, tgt: string): string {
    var units := Utf16Units(text);
    if |units| <= MaxChunkSize then TranslateOrKeep(client, text, src, tgt)
    else Utf16Decode(Concat(TranslateEach(client, Chunks(units, MaxChunkSize), src, tgt)))
  }

  /** The size test is only a shortcut: every non-empty text is translated
      as the join of its translated 5000-unit chunks. */
  lemma LargeTextIsChunkwise(client: TextClient, text: string, src: string, tgt: string)
    requires |text| > 0
    ensures LargeText(client, text, src, tgt) ==
      Utf16Decode(Concat(TranslateEach(client, Chunks(Utf16Units(text), MaxChunkSize), src, tgt)))
  {
    var units := Utf16Units(text);
    if |units| <= MaxChunkSize {
      var t := TranslateChunk(client, units, src, tgt);
      assert Chunks(units, MaxChunkSize) == [units];
      assert TranslateEach(client, [units], src, tgt) == [t];
      assert Concat([t]) == t by {
        assert Concat([t]) == Concat([t][..0]) + t;
      }
      WholeTextChunk(client, text, src, tgt);
    }
  }

  /** One chunk holding the whole text translates as the text does. */
  lemma WholeTextChunk(client: TextClient, text: string, src: string, tgt: string)
    ensures Utf16Decode(TranslateChunk(client, Utf16Units(text), src, tgt)) == TranslateOrKeep(client, text, src, tgt)
  {
    DecodeUnits(text);
    match client(text, src, tgt)
    case Some(x) => DecodeUnits(x);
    case None =>
  }

  /** The threshold counts code units: a text of more than 2500 characters
      above U+FFFF (an emoji, say) is more than 5000 units long and is sent
      in at least two chunks, whatever its character count. */
  lemma SupplementaryTextIsSplit(text: string)
    requires 2500 < |text|
    requires forall i :: 0 <= i < |text| ==> text[i] as int >= 0x1_0000
    ensures |Utf16Units(text)| > MaxChunkSize
    ensures |Chunks(Utf16Units(text), MaxChunkSize)| >= 2
  {
    SupplementaryUnits(text);
    ChunkCount(Utf16Units(text), MaxChunkSize);
    var u := |Utf16Units(text)|;
    DivUnique(10000, MaxChunkSize, 2, 0);
    DivMonotone(10000, u + MaxChunkSize - 1, MaxChunkSize);
  }

  lemma DivMonotone(a: nat, b: nat, n: nat)
    requires n > 0 && a <= b
    ensures a / n <= b / n
  {
    var qa, ra := a / n, a % n;
    var qb, rb := b / n, b % n;
    if qa > qb {
      MulAtLeast(qa - qb, n);
      assert false;
    }
  }

  /** A client that always fails leaves every text as it was. */
  lemma LargeTextAllFailing(client: TextClient, text: string, src: string, tgt: string)
    requires forall x, s, t :: client(x, s, t).None?
    ensures LargeText(client, text, src, tgt) == text
  {
    var units := Utf16Units(text);
    if |units| > MaxChunkSize {
      var chunks := Chunks(units, MaxChunkSize);
      assert TranslateEach(client, chunks, src, tgt) == chunks;
      ChunksConcat(units, MaxChunkSize);
      DecodeUnits(text);
    }
  }

  /** One more chunk appends its translation to the joined result. */
  lemma TranslateEachSnoc(client: TextClient, chunks: seq<seq<int>>, k: nat, src: string, tgt: string)
    requires k < |chunks|
    ensures Concat(TranslateEach(client, chunks[..k + 1], src, tgt)) ==
      Concat(TranslateEach(client, chunks[..k], src, tgt)) + TranslateChunk(client, chunks[k], src, tgt)
  {
    assert chunks[..k + 1][..k] == chunks[..k];
    var prev := TranslateEach(client, chunks[..k], src, tgt);
    var one := TranslateChunk(client, chunks[k], src, tgt);
    assert TranslateEach(client, chunks[..k + 1], src, tgt) == prev + [one];
    assert (prev + [one])[..|prev|] == prev;
  }

  /** `translateLargeText` with its StringBuilder loop. */
  method TranslateLargeText(client: TextClient, text: string, src: string, tgt: string) returns (r: string)
    ensures r == LargeText(client, text, src, tgt)
  {
    var units := Utf16Units(text);
    if |units| <= MaxChunkSize {
      return TranslateOrKeep(client, text, src, tgt);
    }
    var chunks := SplitIntoChunks(units, MaxChunkSize);
    var result: seq<int> := [];
    for k := 0 to |chunks|
      invariant result == Concat(TranslateEach(client, chunks[..k], src, tgt))
    {
      TranslateEachSnoc(client, chunks, k, src, tgt);
      result := result + TranslateChunk(client, chunks[k], src, tgt);
    }
    assert chunks[..|chunks|] == chunks;
    r := Utf16Decode(result);
  }

  // ---------------------------------------------------------------
  // translate / translateBinary
  // ---------------------------------------------------------------

  /** What a strategy's `translate` produces for one text. The document
      strategy's own catch never fires, because `translateLargeText` falls
      back per chunk; the image strategy returns its input. */
  function TranslateItem(s: Strategy, text: string, src: string, tgt: string): string {
    match s
    case TextStrategy(client) => TranslateOrKeep(client, text, src, tgt)
    case DocumentStrategy(client, _) => LargeText(client, text, src, tgt)
    case ImageStrategy(_) => text
    case HtmlStrategy(translateHtml, _) => TranslateOrKeep(translateHtml, text, src, tgt)
  }

  /** `translate(texts, sourceLang, targetLang)`: one output per input, in
      order. */
  function StrategyTranslate(s: Strategy, texts: seq<string>, src: string, tgt: string): (rs: seq<string>)
    ensures |rs| == |texts|
    ensures forall i :: 0 <= i < |texts| ==> rs[i] == TranslateItem(s, texts[i], src, tgt)
  {
    if texts == [] then []
    else StrategyTranslate(s, texts[..|texts| - 1], src, tgt) + [TranslateItem(s, texts[|texts| - 1], src, tgt)]
  }

  /** The TEXT strategy keeps exactly the items the client fails on and
      replaces every other item by the client's answer. */
  lemma TextStrategyPerItem(client: TextClient, texts: seq<string>, src: string, tgt: string, i: nat)
    requires i < |texts|
    ensures var rs := StrategyTranslate(TextStrategy(client), texts, src, tgt);
      (client(texts[i], src, tgt).None? ==> rs[i] == texts[i])
      && (client(texts[i], src, tgt).Some? ==> rs[i] == client(texts[i], src, tgt).value)
  {
  }

  /** The image strategy's `translate` is the identity. */
  lemma ImageTranslateIsIdentity(vision: (seq<byte>, string, string) -> Option<string>, texts: seq<string>, src: string, tgt: string)
    ensures StrategyTranslate(ImageStrategy(vision), texts, src, tgt) == texts
  {
  }

  /** The loops of the TEXT, DOCUMENT and HTML `translate` methods, which
      append one result per input; the IMAGE strategy copies its input. */
  method TranslateTexts(s: Strategy, texts: seq<string>, src: string, tgt: string) returns (translations: seq<string>)
    ensures translations == StrategyTranslate(s, texts, src, tgt)
  {
    if s.ImageStrategy? {
      ImageTranslateIsIdentity(s.vision, texts, src, tgt);
      return texts;
    }
    translations := [];
    for i := 0 to |texts|
      invariant translations == StrategyTranslate(s, texts[..i], src, tgt)
    {
      assert texts[..i + 1][..i] == texts[..i];
      var item: string;
      if s.DocumentStrategy? {
        item := TranslateLargeText(s.client, texts[i], src, tgt);
      } else {
        item := TranslateOrKeep(if s.TextStrategy? then s.client else s.translateHtml, texts[i], src, tgt);
      }
      translations := translations + [item];
    }
    assert texts[..|texts|] == texts;
  }

  /** `translateBinary(content, sourceLang, targetLang)`. */
  function StrategyTranslateBinary(s: Strategy, content: seq<byte>, src: string, tgt: string): (r: Result<string, Error>)
    ensures s.TextStrategy? ==> r == Err(UnsupportedOperation)
    ensures s.DocumentStrategy? ==> (r.Ok? <==> s.extract(content).Some?)
    ensures s.DocumentStrategy? && r.Ok? ==> r.value == LargeText(s.client, s.extract(content).value, src, tgt)
    ensures s.DocumentStrategy? && r.Err? ==> r.error == TranslationFailure("Failed to translate document")
    ensures s.ImageStrategy? ==> (r.Ok? <==> s.vision(content, src, tgt).Some?)
    ensures s.HtmlStrategy? ==> (r.Ok? <==> s.translateHtml(s.decode(content), src, tgt).Some?)
  {
    match s
    case TextStrategy(_) => Err(UnsupportedOperation)
    case DocumentStrategy(client, extract) =>
      (match extract(content)
       case Some(extracted) => Ok(LargeText(client, extracted, src, tgt))
       case None => Err(TranslationFailure("Failed to translate document")))
    case ImageStrategy(vision) =>
      (match vision(content, src, tgt)
       case Some(t) => Ok(t)
       case None => Err(TranslationFailure("Failed to translate image")))
    case HtmlStrategy(translateHtml, decode) =>
      (match translateHtml(decode(content), src, tgt)
       case Some(t) => Ok(t)
       case None => Err(ProviderFailure))
  }
}
