/** Order-preserving duplicate removal, as `new LinkedHashSet<>(texts)`
    copied back into a list. */
module Deduplication {

  /** The first occurrence of each text, in input order. */
  function Dedup(s: seq<string>): (r: seq<string>)
    ensures forall x :: x in r <==> x in s
    ensures forall i, j :: 0 <= i < j < |r| ==> r[i] != r[j]
    ensures |r| <= |s|
  {
    if s == [] then []
    else
      var prefix := Dedup(s[..|s| - 1]);
      var x := s[|s| - 1];
      assert forall y :: y in s <==> y in s[..|s| - 1] || y == x by {
        assert s == s[..|s| - 1] + [x];
      }
      if x in prefix then prefix else prefix + [x]
  }

  predicate Distinct(s: seq<string>) {
    forall i, j :: 0 <= i < j < |s| ==> s[i] != s[j]
  }

  /** A list without duplicates is its own deduplication. */
  lemma {:induction false} DedupOfDistinct(s: seq<string>)
    requires Distinct(s)
    ensures Dedup(s) == s
  {
    if s != [] {
      var p := s[..|s| - 1];
      DedupOfDistinct(p);
      assert s[|s| - 1] !in p;
      assert p + [s[|s| - 1]] == s;
    }
  }

  /** Deduplicating twice is deduplicating once. */
  lemma DedupIdempotent(s: seq<string>)
    ensures Dedup(Dedup(s)) == Dedup(s)
  {
    DedupOfDistinct(Dedup(s));
  }

  /** The index of the first occurrence of `x`. */
  function FirstIndex(s: seq<string>, x: string): (i: nat)
    requires x in s
    ensures i < |s| && s[i] == x
    ensures forall j :: 0 <= j < i ==> s[j] != x
  {
    if s[0] == x then 0 else 1 + FirstIndex(s[1..], x)
  }

  lemma {:induction false} FirstIndexPrefix(s: seq<string>, x: string, n: nat)
    requires n <= |s| && x in s[..n]
    ensures FirstIndex(s, x) == FirstIndex(s[..n], x)
  {
    var i := FirstIndex(s[..n], x);
    assert s[i] == x;
    assert forall j :: 0 <= j < i ==> s[j] == s[..n][j];
  }

  /** Survivors keep the order of their first occurrences. */
  lemma {:induction false} DedupKeepsFirstOccurrenceOrder(s: seq<string>)
    ensures forall k, l :: 0 <= k < l < |Dedup(s)| ==> FirstIndex(s, Dedup(s)[k]) < FirstIndex(s, Dedup(s)[l])
  {
    if s != [] {
      var n := |s| - 1;
      var p := s[..n];
      var x := s[n];
      var r := Dedup(s);
      DedupKeepsFirstOccurrenceOrder(p);
      forall y | y in p ensures FirstIndex(s, y) == FirstIndex(p, y) && FirstIndex(s, y) < n {
        FirstIndexPrefix(s, y, n);
      }
      if x !in p {
        assert FirstIndex(s, x) == n;
      }
      forall k, l | 0 <= k < l < |r| ensures FirstIndex(s, r[k]) < FirstIndex(s, r[l]) {
        assert r[k] in Dedup(p);
        if l < |Dedup(p)| {
          assert r[l] == Dedup(p)[l];
        }
      }
    }
  }

  /** Example: ["a","b","a","c"] becomes ["a","b","c"]. */
  lemma DedupExample()
    ensures Dedup(["a", "b", "a", "c"]) == ["a", "b", "c"]
  {
    assert ["a", "b", "a", "c"][..3] == ["a", "b", "a"];
    assert ["a", "b", "a"][..2] == ["a", "b"];
    assert ["a", "b"][..1] == ["a"];
    assert ["a"][..0] == [];
  }

  /** Equality is exact: texts differing only in case or in surrounding
      blanks both survive. */
  lemma DedupIsExact()
    ensures Dedup(["Hello", "hello", "Hello "]) == ["Hello", "hello", "Hello "]
  {
    DedupOfDistinct(["Hello", "hello", "Hello "]);
  }

  /** Building the `LinkedHashSet` and copying it back: one pass with a set
      of the texts seen so far. */
  method DedupLinked(texts: seq<string>) returns (unique: seq<string>)
    ensures unique == Dedup(texts)
  {
    unique := [];
    var seen: set<string> := {};
    for i := 0 to |texts|
      invariant unique == Dedup(texts[..i])
      invariant forall x :: x in seen <==> x in texts[..i]
    {
      assert texts[..i + 1][..i] == texts[..i];
      assert texts[..i + 1] == texts[..i] + [texts[i]];
      if texts[i] !in seen {
        unique := unique + [texts[i]];
        seen := seen + {texts[i]};
      }
    }
    assert texts[..|texts|] == texts;
  }
}
