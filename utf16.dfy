/** A Java `String` is a sequence of UTF-16 code units, while a Dafny
    `string` is a sequence of Unicode scalar values. `Utf16Units` is the
    encoding; `Utf16Decode` reads units back, pairing a high surrogate with
    the low surrogate after it and showing any unpaired surrogate as
    U+FFFD. */
module Utf16 {
  import opened Common

  /** The UTF-16 encoding of a string: one unit below U+10000, a surrogate
      pair above. */
  function Utf16Units(s: string): (us: seq<int>)
    ensures |s| <= |us| <= 2 * |s|
    ensures forall k :: 0 <= k < |us| ==> 0 <= us[k] < 0x1_0000
  {
    if s == [] then []
    else
      var c := s[|s| - 1] as int;
      var unit := if c < 0x1_0000 then [c]
        else [0xD800 + (c - 0x1_0000) / 0x400, 0xDC00 + (c - 0x1_0000) % 0x400];
      Utf16Units(s[..|s| - 1]) + unit
  }

  predicate IsHigh(u: int) {
    0xD800 <= u < 0xDC00
  }

  predicate IsLow(u: int) {
    0xDC00 <= u < 0xE000
  }

  /** The character a surrogate pair stands for. */
  function PairChar(hi: int, lo: int): (c: char)
    requires IsHigh(hi) && IsLow(lo)
    ensures c as int == 0x1_0000 + (hi - 0xD800) * 0x400 + (lo - 0xDC00)
  {
    (0x1_0000 + (hi - 0xD800) * 0x400 + (lo - 0xDC00)) as char
  }

  /** The character a single unit stands for; an unpaired surrogate (or a
      value no `char` unit can hold) reads as U+FFFD. */
  function UnitChar(u: int): (c: char)
    ensures (0 <= u < 0xD800 || 0xE000 <= u < 0x1_0000) ==> c as int == u
  {
    if 0 <= u < 0xD800 || 0xE000 <= u < 0x1_0000 then u as char else '�'
  }

  /** Reading code units back as characters, from the end. */
  function Utf16Decode(us: seq<int>): (s: string)
    ensures |s| <= |us|
  {
    if us == [] then []
    else
      var n := |us|;
      if n >= 2 && IsHigh(us[n - 2]) && IsLow(us[n - 1]) then
        Utf16Decode(us[..n - 2]) + [PairChar(us[n - 2], us[n - 1])]
      else
        Utf16Decode(us[..n - 1]) + [UnitChar(us[n - 1])]
  }

  /** Decoding undoes encoding. */
  lemma {:induction false} DecodeUnits(s: string)
    ensures Utf16Decode(Utf16Units(s)) == s
  {
    if s != [] {
      var p := s[..|s| - 1];
      var c := s[|s| - 1] as int;
      DecodeUnits(p);
      assert s == p + [s[|s| - 1]];
      if c < 0x1_0000 {
        DecodeSnocUnit(Utf16Units(p), c);
      } else {
        var hi := 0xD800 + (c - 0x1_0000) / 0x400;
        var lo := 0xDC00 + (c - 0x1_0000) % 0x400;
        DecodeSnocPair(Utf16Units(p), hi, lo);
        assert PairChar(hi, lo) as int == c;
      }
    }
  }

  lemma DecodeSnocUnit(us: seq<int>, c: int)
    requires 0 <= c < 0xD800 || 0xE000 <= c < 0x1_0000
    ensures Utf16Decode(us + [c]) == Utf16Decode(us) + [c as char]
  {
    var all := us + [c];
    assert all[..|all| - 1] == us;
  }

  lemma DecodeSnocPair(us: seq<int>, hi: int, lo: int)
    requires IsHigh(hi) && IsLow(lo)
    ensures Utf16Decode(us + [hi, lo]) == Utf16Decode(us) + [PairChar(hi, lo)]
  {
    var all := us + [hi, lo];
    assert all[..|all| - 2] == us;
  }

  /** Different strings have different encodings. */
  lemma UnitsInjective(a: string, b: string)
    requires Utf16Units(a) == Utf16Units(b)
    ensures a == b
  {
    DecodeUnits(a);
    DecodeUnits(b);
  }

  /** `length()` counts the units of the encoding. */
  lemma {:induction false} UnitsLength(s: string)
    ensures |Utf16Units(s)| == Utf16Length(s)
  {
    if s != [] {
      var p := s[..|s| - 1];
      UnitsLength(p);
      LengthSnoc(p, s[|s| - 1]);
      assert s == p + [s[|s| - 1]];
    }
  }

  lemma {:induction false} LengthSnoc(p: string, c: char)
    ensures Utf16Length(p + [c]) == Utf16Length(p) + (if c as int >= 0x1_0000 then 2 else 1)
  {
    if p != [] {
      assert (p + [c])[1..] == p[1..] + [c];
      LengthSnoc(p[1..], c);
    } else {
      assert [c][1..] == [];
    }
  }

  /** A text of characters above U+FFFF has twice as many units as
      characters. */
  lemma {:induction false} SupplementaryUnits(s: string)
    requires forall i :: 0 <= i < |s| ==> s[i] as int >= 0x1_0000
    ensures |Utf16Units(s)| == 2 * |s|
  {
    if s != [] {
      SupplementaryUnits(s[..|s| - 1]);
    }
  }
}
