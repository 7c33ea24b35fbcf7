/** The string operations the analyzer uses: lower-casing and substring search. */
module Text {

  /** ASCII lower-casing of one character; everything outside 'A'..'Z' is unchanged. */
  function LowerChar(c: char): (r: char)
    ensures 'A' <= c <= 'Z' ==> r as int == c as int + 32
    ensures !('A' <= c <= 'Z') ==> r == c
    ensures !('A' <= r <= 'Z')
  {
    if 'A' <= c <= 'Z' then (c as int + 32) as char else c
  }

  /** Python's `str.lower()`, restricted to ASCII letters. */
  function Lower(s: string): (r: string)
    ensures |r| == |s|
    ensures forall i :: 0 <= i < |s| ==> r[i] == LowerChar(s[i])
  {
    seq(|s|, i requires 0 <= i < |s| => LowerChar(s[i]))
  }

  /** `needle` occurs in `hay` starting at position `i`. */
  predicate OccursAt(needle: string, hay: string, i: int)
  {
    0 <= i && i + |needle| <= |hay| && hay[i..i + |needle|] == needle
  }

  lemma OccursShift(needle: string, hay: string, i: int)
    requires hay != [] && 0 <= i
    ensures OccursAt(needle, hay[1..], i) <==> OccursAt(needle, hay, i + 1)
  {
    if 0 <= i && i + |needle| <= |hay| - 1 {
      assert hay[1..][i..i + |needle|] == hay[i + 1..i + 1 + |needle|];
    }
  }

  /** Python's `needle in hay` on strings; the empty needle occurs everywhere. */
  function Contains(hay: string, needle: string): (r: bool)
    ensures r <==> exists i :: OccursAt(needle, hay, i)
    decreases |hay|
  {
    if |needle| <= |hay| && hay[..|needle|] == needle then
      assert OccursAt(needle, hay, 0);
      true
    else if hay == [] then
      assert forall i :: !OccursAt(needle, hay, i);
      false
    else
      assert !OccursAt(needle, hay, 0);
      assert forall i :: OccursAt(needle, hay, i) ==> i >= 1 && OccursAt(needle, hay[1..], i - 1) by {
        forall i | OccursAt(needle, hay, i) ensures i >= 1 && OccursAt(needle, hay[1..], i - 1) {
          assert i != 0;
          OccursShift(needle, hay, i - 1);
        }
      }
      assert forall i :: OccursAt(needle, hay[1..], i) ==> OccursAt(needle, hay, i + 1) by {
        forall i | OccursAt(needle, hay[1..], i) ensures OccursAt(needle, hay, i + 1) {
          assert 0 <= i;
          OccursShift(needle, hay, i);
        }
      }
      Contains(hay[1..], needle)
  }
}
