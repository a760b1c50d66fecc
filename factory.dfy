/** `TranslationStrategyFactory`: a type-to-strategy map built once from the
    list of strategies, then only read. */
module Factory {
  import opened Common
  import opened TranslationTypes
  import opened Model
  import opened Strategies

  datatype StrategyFactory = StrategyFactory(strategies: map<TranslationType, Strategy>)

  /** No two strategies of the list report the same type. */
  predicate DistinctTypes(list: seq<Strategy>) {
    forall i, j :: 0 <= i < j < |list| ==> GetType(list[i]) != GetType(list[j])
  }

  /** Every entry is filed under the type its strategy reports. */
  predicate WellKeyed(f: StrategyFactory) {
    forall t :: t in f.strategies ==> GetType(f.strategies[t]) == t
  }

  /** What a map built from `list` holds: each entry filed under the type
      its strategy reports, exactly the types of the list as keys, and each
      strategy of the list under its own type. */
  ghost predicate Records(list: seq<Strategy>, f: StrategyFactory) {
    && WellKeyed(f)
    && f.strategies.Keys == (set i | 0 <= i < |list| :: GetType(list[i]))
    && forall i :: 0 <= i < |list| ==> f.strategies[GetType(list[i])] == list[i]
  }

  /** The constructor's `Collectors.toMap(getType, identity())`, which throws
      `IllegalStateException` when a key comes a second time. */
  function BuildFactory(list: seq<Strategy>): (r: Result<StrategyFactory, Error>)
    ensures r.Ok? <==> DistinctTypes(list)
    ensures r.Ok? ==> Records(list, r.value)
    ensures r.Err? ==> r.error.DuplicateKey? && exists i :: 0 <= i < |list| - 1 && GetType(list[i]) == r.error.key
  {
    if list == [] then Ok(StrategyFactory(map[]))
    else
      var prefix := list[..|list| - 1];
      var last := list[|list| - 1];
      assert list == prefix + [last];
      match BuildFactory(prefix)
      case Err(e) => Err(e)
      case Ok(f) =>
        if GetType(last) in f.strategies then
          DuplicateType(prefix, last, f);
          Err(DuplicateKey(GetType(last)))
        else
          NewType(prefix, last, f);
          Ok(StrategyFactory(f.strategies[GetType(last) := last]))
  }

  /** A strategy whose type is already a key repeats an earlier type. */
  lemma DuplicateType(prefix: seq<Strategy>, last: Strategy, f: StrategyFactory)
    requires Records(prefix, f) && GetType(last) in f.strategies
    ensures !DistinctTypes(prefix + [last])
    ensures exists i :: 0 <= i < |prefix| && GetType(prefix[i]) == GetType(last)
  {
    var i :| 0 <= i < |prefix| && GetType(prefix[i]) == GetType(last);
    assert (prefix + [last])[i] == prefix[i] && (prefix + [last])[|prefix|] == last;
  }

  /** A strategy of a new type extends the map and keeps the types distinct. */
  lemma NewType(prefix: seq<Strategy>, last: Strategy, f: StrategyFactory)
    requires Records(prefix, f) && DistinctTypes(prefix) && GetType(last) !in f.strategies
    ensures DistinctTypes(prefix + [last])
    ensures Records(prefix + [last], StrategyFactory(f.strategies[GetType(last) := last]))
  {
    var list := prefix + [last];
    var g := StrategyFactory(f.strategies[GetType(last) := last]);
    forall i | 0 <= i < |prefix| ensures GetType(prefix[i]) != GetType(last) {
      assert GetType(prefix[i]) in f.strategies.Keys;
    }
    assert g.strategies.Keys == (set i | 0 <= i < |list| :: GetType(list[i])) by {
      forall t | t in g.strategies.Keys ensures t in (set i | 0 <= i < |list| :: GetType(list[i])) {
        if t == GetType(last) {
          assert GetType(list[|prefix|]) == t;
        } else {
          var i :| 0 <= i < |prefix| && GetType(prefix[i]) == t;
          assert GetType(list[i]) == t;
        }
      }
    }
  }

  /** `getStrategy(type)`. */
  function GetStrategy(f: StrategyFactory, t: TranslationType): (r: Result<Strategy, Error>)
    ensures r.Ok? <==> t in f.strategies
    ensures r.Ok? ==> r.value == f.strategies[t]
    ensures r.Err? ==> r.error == TranslationFailure("Unsupported translation type: " + Name(t))
  {
    if t in f.strategies then Ok(f.strategies[t])
    else Err(TranslationFailure("Unsupported translation type: " + Name(t)))
  }

  /** `hasStrategy(type)`. */
  predicate HasStrategy(f: StrategyFactory, t: TranslationType) {
    t in f.strategies
  }

  /** `getSupportedTypes()`; the list copies a key set, so only its
      elements are meaningful. */
  function SupportedTypes(f: StrategyFactory): set<TranslationType> {
    f.strategies.Keys
  }

  /** `hasStrategy` answers exactly whether `getStrategy` succeeds, and a
      strategy handed out by a built factory reports the requested type. */
  lemma HasStrategyIffFound(list: seq<Strategy>, t: TranslationType)
    requires BuildFactory(list).Ok?
    ensures var f := BuildFactory(list).value;
      (HasStrategy(f, t) <==> GetStrategy(f, t).Ok?)
      && (HasStrategy(f, t) <==> t in SupportedTypes(f))
      && (GetStrategy(f, t).Ok? ==> GetType(GetStrategy(f, t).value) == t)
      && (HasStrategy(f, t) <==> exists i :: 0 <= i < |list| && GetType(list[i]) == t)
  {
    var f := BuildFactory(list).value;
    if t in f.strategies {
      assert t in set i | 0 <= i < |list| :: GetType(list[i]);
    }
  }

  /** The application's four strategies build a factory that serves every
      type. */
  lemma StandardFactoryIsComplete(text: Strategy, document: Strategy, image: Strategy, html: Strategy, t: TranslationType)
    requires text.TextStrategy? && document.DocumentStrategy? && image.ImageStrategy? && html.HtmlStrategy?
    ensures BuildFactory([text, document, image, html]).Ok?
    ensures GetStrategy(BuildFactory([text, document, image, html]).value, t).Ok?
  {
    var list := [text, document, image, html];
    var f := BuildFactory(list).value;
    var i := match t case Text => 0 case Document => 1 case Image => 2 case Html => 3;
    assert GetType(list[i]) == t;
  }

  /** Two strategies for the same type make construction fail. */
  lemma TwoTextStrategiesFail(a: TextClient, b: TextClient)
    ensures BuildFactory([TextStrategy(a), TextStrategy(b)]) == Err(DuplicateKey(Text))
  {
    assert [TextStrategy(a), TextStrategy(b)][..1] == [TextStrategy(a)];
    assert [TextStrategy(a)][..0] == [];
  }
}
