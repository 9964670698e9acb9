/**
 * JavaScript strings as the route handlers see them. `s.length` in JavaScript
 * counts UTF-16 code units, not characters: a character outside the Basic
 * Multilingual Plane (an emoji, say) is stored as a surrogate pair and counts
 * twice. Dafny's `char` is a Unicode scalar value, so the count is written out.
 */
module JsString {

  /** Number of UTF-16 code units that encode `c`. */
  function CodeUnits(c: char): (n: nat)
    ensures 1 <= n <= 2
    ensures n == 1 <==> c as int < 0x1_0000
  {
    if c as int < 0x1_0000 then 1 else 2
  }

  /** The value of JavaScript's `s.length`. */
  function Length(s: string): (n: nat)
    ensures |s| <= n <= 2 * |s|
    ensures n == 0 <==> s == []
    ensures (forall i :: 0 <= i < |s| ==> s[i] as int < 0x1_0000) ==> n == |s|
  {
    if s == [] then 0 else CodeUnits(s[0]) + Length(s[1..])
  }

  /** The length of a concatenation is the sum of the lengths. */
  lemma {:induction false} LengthOfConcat(a: string, b: string)
    ensures Length(a + b) == Length(a) + Length(b)
  {
    if a == [] {
      assert a + b == b;
    } else {
      assert (a + b)[1..] == a[1..] + b;
      LengthOfConcat(a[1..], b);
    }
  }
}
