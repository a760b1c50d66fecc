/** Small shared vocabulary: optional values, outcomes, bytes, and the Java
    string helpers (`toLowerCase`, `equalsIgnoreCase`, `isBlank`, `length`)
    that the translation core relies on. */
module Common {

  /** A Java reference that may be null. */
  datatype Option<+T> = None | Some(value: T)

  /** A `void` call that either returns normally or throws `error`. */
  datatype Outcome<+E> = Pass | Fail(error: E)

  /** A value-returning call that either returns `value` or throws `error`. */
  datatype Result<+T, +E> = Ok(value: T) | Err(error: E)

  newtype byte = x: int | 0 <= x < 256

  /** ASCII lower-casing of one character; every other character is kept. */
  function LowerChar(c: char): (r: char)
    ensures 'A' <= c <= 'Z' ==> 'a' <= r <= 'z' && r as int == c as int + 32
    ensures !('A' <= c <= 'Z') ==> r == c
  {
    if 'A' <= c <= 'Z' then (c as int + 32) as char else c
  }

  /** `String.toLowerCase()` restricted to ASCII letters. */
  function Lower(s: string): (r: string)
    ensures |r| == |s|
    ensures forall i :: 0 <= i < |s| ==> r[i] == LowerChar(s[i])
  {
    seq(|s|, i requires 0 <= i < |s| => LowerChar(s[i]))
  }

  /** `a.equalsIgnoreCase(b)` with ASCII case folding. */
  predicate EqualsIgnoreCase(a: string, b: string) {
    Lower(a) == Lower(b)
  }

  lemma {:induction false} LowerIdempotent(s: string)
    ensures Lower(Lower(s)) == Lower(s)
  {
    assert forall i :: 0 <= i < |s| ==> LowerChar(LowerChar(s[i])) == LowerChar(s[i]);
  }

  /** `Character.isWhitespace`: the space, line and paragraph separators other
      than the no-break spaces, plus the ASCII controls U+0009..U+000D and
      U+001C..U+001F. */
  predicate IsWhitespace(c: char) {
    var n := c as int;
    (0x09 <= n <= 0x0D) || (0x1C <= n <= 0x20) || n == 0x1680
    || (0x2000 <= n <= 0x2006) || (0x2008 <= n <= 0x200A)
    || n == 0x2028 || n == 0x2029 || n == 0x205F || n == 0x3000
  }

  /** `String.isBlank()`: empty or whitespace only. */
  predicate IsBlank(s: string) {
    forall i :: 0 <= i < |s| ==> IsWhitespace(s[i])
  }

  /** `String.length()`: the number of UTF-16 code units. */
  function Utf16Length(s: string): (n: nat)
    ensures |s| <= n <= 2 * |s|
  {
    if s == [] then 0 else (if s[0] as int >= 0x10000 then 2 else 1) + Utf16Length(s[1..])
  }

  /** Number of `true` entries. */
  function CountTrue(bs: seq<bool>): (n: nat)
    ensures n <= |bs|
  {
    if bs == [] then 0 else CountTrue(bs[..|bs| - 1]) + (if bs[|bs| - 1] then 1 else 0)
  }

  /** One more entry adds one to the count of its own value. */
  lemma CountSnoc(bs: seq<bool>, b: bool)
    ensures CountTrue(bs + [b]) == CountTrue(bs) + (if b then 1 else 0)
    ensures CountFalse(bs + [b]) == CountFalse(bs) + (if b then 0 else 1)
  {
    assert (bs + [b])[..|bs|] == bs;
  }

  /** Number of `false` entries. */
  function CountFalse(bs: seq<bool>): (n: nat)
    ensures n + CountTrue(bs) == |bs|
  {
    if bs == [] then 0 else CountFalse(bs[..|bs| - 1]) + (if bs[|bs| - 1] then 0 else 1)
  }

  /** The indices `i` with `bs[i]`, in increasing order. */
  function Positions(bs: seq<bool>): (ps: seq<nat>)
    ensures |ps| == CountTrue(bs)
    ensures forall k :: 0 <= k < |ps| ==> ps[k] < |bs| && bs[ps[k]]
    ensures forall k, l :: 0 <= k < l < |ps| ==> ps[k] < ps[l]
    ensures forall i :: 0 <= i < |bs| && bs[i] ==> i in ps
  {
    if bs == [] then []
    else
      var prev := Positions(bs[..|bs| - 1]);
      assert forall i :: 0 <= i < |bs| - 1 ==> bs[..|bs| - 1][i] == bs[i];
      if bs[|bs| - 1] then prev + [|bs| - 1] else prev
  }

  /** One more entry adds its index when it is `true`. */
  lemma PositionsSnoc(bs: seq<bool>, i: nat)
    requires i < |bs|
    ensures Positions(bs[..i + 1]) == Positions(bs[..i]) + (if bs[i] then [i] else [])
  {
    assert bs[..i + 1][..i] == bs[..i];
  }
}
