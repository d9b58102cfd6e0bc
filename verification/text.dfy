/** The two Kotlin string operations the core relies on:
    `contains(other, ignoreCase = true)` and `isNotBlank()`. Case folding
    covers ASCII letters only. */
module Text {

  /** Folds an ASCII upper-case letter to lower case; other characters are
      kept. */
  function Fold(c: char): (d: char)
    ensures 'A' <= c <= 'Z' ==> d as int == c as int + 32
    ensures !('A' <= c <= 'Z') ==> d == c
  {
    if 'A' <= c <= 'Z' then (c as int + 32) as char else c
  }

  predicate EqualIgnoreCase(a: char, b: char) {
    Fold(a) == Fold(b)
  }

  /** `needle` occurs in `hay` starting at offset `i`, up to case. */
  ghost predicate OccursAt(hay: string, needle: string, i: int)
  {
    0 <= i && i + |needle| <= |hay|
    && forall k :: 0 <= k < |needle| ==> EqualIgnoreCase(hay[i + k], needle[k])
  }

  /** Compares `needle` with the start of `hay`, up to case. */
  function StartsWithIgnoreCase(hay: string, needle: string): (r: bool)
    ensures r <==> OccursAt(hay, needle, 0)
  {
    if |needle| == 0 then true
    else if |hay| == 0 then false
    else EqualIgnoreCase(hay[0], needle[0]) && StartsWithIgnoreCase(hay[1..], needle[1..])
  }

  /** `hay.contains(needle, ignoreCase = true)`: tries every offset in turn.
      The empty needle occurs in every string. */
  function ContainsIgnoreCase(hay: string, needle: string): (r: bool)
    ensures r <==> exists i :: OccursAt(hay, needle, i)
    decreases |hay|
  {
    if StartsWithIgnoreCase(hay, needle) then true
    else if |hay| <= |needle| then
      assert forall i :: OccursAt(hay, needle, i) ==> i == 0;
      false
    else
      var r := ContainsIgnoreCase(hay[1..], needle);
      assert r ==> exists i :: OccursAt(hay, needle, i) by {
        if r {
          var j :| OccursAt(hay[1..], needle, j);
          assert OccursAt(hay, needle, j + 1);
        }
      }
      assert (exists i :: OccursAt(hay, needle, i)) ==> r by {
        if i :| OccursAt(hay, needle, i) {
          assert i != 0;
          assert OccursAt(hay[1..], needle, i - 1);
        }
      }
      r
  }

  /** Every string contains the empty string. */
  lemma ContainsEmpty(hay: string)
    ensures ContainsIgnoreCase(hay, "")
  {
    assert OccursAt(hay, "", 0);
  }

  /** Kotlin's `Char.isWhitespace()`: Java's `isWhitespace` or `isSpaceChar`,
      i.e. the controls U+0009..U+000D and U+001C..U+001F and the space,
      line and paragraph separators. */
  predicate IsWhitespace(c: char) {
    var n := c as int;
    (0x09 <= n <= 0x0D) || (0x1C <= n <= 0x20) || n == 0xA0 || n == 0x1680
    || (0x2000 <= n <= 0x200A) || n == 0x2028 || n == 0x2029 || n == 0x202F
    || n == 0x205F || n == 0x3000
  }

  /** `isBlank()`: empty or made only of whitespace. */
  function IsBlank(s: string): (r: bool)
    ensures r <==> forall i :: 0 <= i < |s| ==> IsWhitespace(s[i])
  {
    if |s| == 0 then true
    else IsWhitespace(s[0]) && IsBlank(s[1..])
  }
}
