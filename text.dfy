/** The two string searches the client relies on: substring containment
    (`String.prototype.includes`, used by the drop handler) and the first
    position of a character (how a `/type/name` route splits its path). */
module Text {
  import opened Wrappers

  /** `needle` occurs in `hay` starting at index `i`. */
  ghost predicate OccursAt(hay: string, needle: string, i: int) {
    0 <= i && i + |needle| <= |hay| && hay[i..i + |needle|] == needle
  }

  /** An occurrence in `hay[1..]` is an occurrence in `hay` one place later. */
  lemma OccursShifted(hay: string, needle: string)
    requires |hay| > 0
    ensures forall j :: 0 <= j ==> (OccursAt(hay[1..], needle, j) <==> OccursAt(hay, needle, j + 1))
  {
    forall j | 0 <= j ensures OccursAt(hay[1..], needle, j) <==> OccursAt(hay, needle, j + 1) {
      if 0 <= j && j + |needle| <= |hay| - 1 {
        assert hay[1..][j..j + |needle|] == hay[j + 1..j + 1 + |needle|];
      }
    }
  }

  /** JavaScript's `hay.includes(needle)`: true exactly when `needle` occurs
      somewhere in `hay` (the empty needle occurs everywhere). */
  function Includes(hay: string, needle: string): (r: bool)
    ensures r <==> exists i :: OccursAt(hay, needle, i)
    decreases |hay|
  {
    if |needle| > |hay| then
      false
    else if hay[..|needle|] == needle then
      assert OccursAt(hay, needle, 0);
      true
    else
      assert !OccursAt(hay, needle, 0);
      OccursShifted(hay, needle);
      assert forall i :: OccursAt(hay, needle, i) ==> OccursAt(hay[1..], needle, i - 1);
      Includes(hay[1..], needle)
  }

  /** The index of the first `c` in `s`, if there is one. */
  function FirstIndex(s: string, c: char): (r: Option<nat>)
    ensures r.None? <==> c !in s
    ensures r.Some? ==> r.value < |s| && s[r.value] == c && c !in s[..r.value]
    decreases |s|
  {
    if s == [] then
      None
    else if s[0] == c then
      Some(0)
    else
      match FirstIndex(s[1..], c)
      case None => None
      case Some(k) =>
        assert s[..k + 1] == [s[0]] + s[1..][..k];
        Some(k + 1)
  }
}
