/** The cache key shared by the consult and save steps:
    `String.format("%s:%s:%s", sourceLang, targetLang, text.hashCode())`.
    `String.hashCode` is written out over UTF-16 code units with 32-bit
    two's-complement wrap-around, so collisions between distinct texts are
    visible in the model. */
module CacheKeys {
  import opened Utf16

  const TwoTo32: int := 0x1_0000_0000
  const TwoTo31: int := 0x8000_0000

  /** One step of the hash: `31 * h + unit`, kept modulo 2^32. */
  function HashStep(h: int, unit: int): (r: int)
    ensures 0 <= r < TwoTo32
  {
    (31 * h + unit) % TwoTo32
  }

  /** The hash over a sequence of UTF-16 units. */
  function HashBits(us: seq<int>): (h: int)
    ensures 0 <= h < TwoTo32
  {
    if us == [] then 0 else HashStep(HashBits(us[..|us| - 1]), us[|us| - 1])
  }

  /** The same hash, one character at a time: a character above U+FFFF
      contributes the two units of its surrogate pair. */
  function HashChars(s: string): (h: int)
    ensures 0 <= h < TwoTo32
  {
    if s == [] then 0
    else
      var h := HashChars(s[..|s| - 1]);
      var c := s[|s| - 1] as int;
      if c < 0x1_0000 then HashStep(h, c)
      else HashStep(HashStep(h, 0xD800 + (c - 0x1_0000) / 0x400), 0xDC00 + (c - 0x1_0000) % 0x400)
  }

  /** Hashing character by character is hashing the UTF-16 encoding. */
  lemma {:induction false} HashCharsIsHashBits(s: string)
    ensures HashChars(s) == HashBits(Utf16Units(s))
  {
    if s != [] {
      var p := s[..|s| - 1];
      HashCharsIsHashBits(p);
      var us := Utf16Units(p);
      var c := s[|s| - 1] as int;
      if c < 0x1_0000 {
        assert (us + [c])[..|us|] == us;
      } else {
        var hi := 0xD800 + (c - 0x1_0000) / 0x400;
        var lo := 0xDC00 + (c - 0x1_0000) % 0x400;
        assert (us + [hi, lo])[..|us| + 1] == us + [hi];
        assert (us + [hi])[..|us|] == us;
      }
    }
  }

  /** Reading 32 bits as a signed Java `int`. */
  function ToInt32(bits: int): (v: int)
    requires 0 <= bits < TwoTo32
    ensures -TwoTo31 <= v < TwoTo31
    ensures (v - bits) % TwoTo32 == 0
  {
    if bits < TwoTo31 then bits else bits - TwoTo32
  }

  /** `String.hashCode()`: the hash of the UTF-16 encoding (see
      `HashCharsIsHashBits`), read as a signed `int`. */
  function JavaHashCode(s: string): (h: int)
    ensures -TwoTo31 <= h < TwoTo31
  {
    ToInt32(HashChars(s))
  }

  function DigitChar(d: nat): (c: char)
    requires d < 10
    ensures '0' <= c <= '9'
  {
    "0123456789"[d]
  }

  /** Decimal digits of a natural number, no leading zeros. */
  function NatToDecimal(n: nat): (ds: string)
    ensures |ds| > 0
    ensures forall k :: 0 <= k < |ds| ==> '0' <= ds[k] <= '9'
  {
    if n < 10 then [DigitChar(n)] else NatToDecimal(n / 10) + [DigitChar(n % 10)]
  }

  /** `Integer.toString`: a minus sign, then the digits of the magnitude. */
  function IntToDecimal(n: int): (s: string)
    ensures |s| > 0
    ensures forall k :: 0 <= k < |s| ==> s[k] != ':'
  {
    if n < 0 then "-" + NatToDecimal(-n) else NatToDecimal(n)
  }

  /** `generateCacheKey(text, sourceLang, targetLang)`; identical in
      `CacheConsultStep` and `CacheSaveStep`. */
  function CacheKey(text: string, sourceLang: string, targetLang: string): string {
    sourceLang + ":" + targetLang + ":" + IntToDecimal(JavaHashCode(text))
  }

  predicate NoColon(s: string) {
    forall k :: 0 <= k < |s| ==> s[k] != ':'
  }

  /** The index of the first ':' in `s`, or `|s|` when there is none. */
  function FirstColon(s: string): (i: nat)
    ensures i <= |s|
    ensures NoColon(s[..i])
    ensures i < |s| ==> s[i] == ':'
  {
    if s == [] then 0
    else if s[0] == ':' then 0
    else
      var j := FirstColon(s[1..]);
      assert s[..j + 1] == [s[0]] + s[1..][..j];
      j + 1
  }

  lemma {:induction false} FirstColonAfter(x: string, rest: string)
    requires NoColon(x)
    ensures FirstColon(x + ":" + rest) == |x|
  {
    if x != [] {
      assert (x + ":" + rest)[1..] == x[1..] + ":" + rest;
      FirstColonAfter(x[1..], rest);
    }
  }

  /** Splitting at the first ':' undoes joining with ':'. */
  lemma SplitAtColon(x: string, r1: string, y: string, r2: string)
    requires NoColon(x) && NoColon(y)
    requires x + ":" + r1 == y + ":" + r2
    ensures x == y && r1 == r2
  {
    var k := x + ":" + r1;
    FirstColonAfter(x, r1);
    FirstColonAfter(y, r2);
    assert x == k[..|x|];
    assert y == k[..|y|];
    assert r1 == k[|x| + 1..];
    assert r2 == k[|y| + 1..];
  }

  /** Joining three parts with ':' is undone by splitting, when the first
      two have no ':'. */
  lemma JoinDeterminesParts(s1: string, g1: string, h1: string, s2: string, g2: string, h2: string)
    requires NoColon(s1) && NoColon(g1) && NoColon(s2) && NoColon(g2)
    requires s1 + ":" + g1 + ":" + h1 == s2 + ":" + g2 + ":" + h2
    ensures s1 == s2 && g1 == g2 && h1 == h2
  {
    assert s1 + ":" + (g1 + ":" + h1) == s2 + ":" + (g2 + ":" + h2) by {
      assert s1 + ":" + g1 + ":" + h1 == s1 + ":" + (g1 + ":" + h1);
      assert s2 + ":" + g2 + ":" + h2 == s2 + ":" + (g2 + ":" + h2);
    }
    SplitAtColon(s1, g1 + ":" + h1, s2, g2 + ":" + h2);
    SplitAtColon(g1, h1, g2, h2);
  }

  /** A key splits back into its parts: for language codes without ':' two
      keys are equal only when the codes are equal and the texts' hashes
      print the same. */
  lemma KeyDeterminesParts(t1: string, s1: string, g1: string, t2: string, s2: string, g2: string)
    requires NoColon(s1) && NoColon(g1) && NoColon(s2) && NoColon(g2)
    requires CacheKey(t1, s1, g1) == CacheKey(t2, s2, g2)
    ensures s1 == s2 && g1 == g2
    ensures IntToDecimal(JavaHashCode(t1)) == IntToDecimal(JavaHashCode(t2))
  {
    JoinDeterminesParts(s1, g1, IntToDecimal(JavaHashCode(t1)), s2, g2, IntToDecimal(JavaHashCode(t2)));
  }

  /** Texts with the same hash share a key: "Aa" and "BB" both hash to 2112. */
  lemma HashCollisionSharesKey(sourceLang: string, targetLang: string)
    ensures "Aa" != "BB"
    ensures JavaHashCode("Aa") == JavaHashCode("BB") == 2112
    ensures CacheKey("Aa", sourceLang, targetLang) == CacheKey("BB", sourceLang, targetLang)
  {
    assert HashChars("A") == 65 by { assert "A"[..0] == []; }
    assert HashChars("B") == 66 by { assert "B"[..0] == []; }
    assert HashChars("Aa") == 2112 by { assert "Aa"[..1] == "A"; }
    assert HashChars("BB") == 2112 by { assert "BB"[..1] == "B"; }
  }
}
