/** The two string operations search relies on: lower-casing and substring
    containment. Lower-casing is modelled on ASCII letters only. */
module Text {

  predicate IsUpper(c: char) {
    'A' <= c <= 'Z'
  }

  /** True when `s` holds no upper-case ASCII letter. */
  predicate NoUpper(s: string) {
    forall i :: 0 <= i < |s| ==> !IsUpper(s[i])
  }

  /** Maps an upper-case ASCII letter to its lower-case partner and leaves
      every other character alone. */
  function LowerChar(c: char): (r: char)
    ensures !IsUpper(r)
    ensures !IsUpper(c) ==> r == c
    ensures IsUpper(c) ==> 'a' <= r <= 'z' && r as int - 'a' as int == c as int - 'A' as int
  {
    if IsUpper(c) then (c as int - 'A' as int + 'a' as int) as char else c
  }

  /** Lower-cases a string character by character. */
  function Lower(s: string): (r: string)
    ensures |r| == |s|
    ensures NoUpper(r)
    ensures forall i :: 0 <= i < |s| ==> r[i] == LowerChar(s[i])
  {
    seq(|s|, i requires 0 <= i < |s| => LowerChar(s[i]))
  }

  /** Lower-casing a string that has no upper-case ASCII letter changes
      nothing. */
  lemma LowerKeepsLowercase(s: string)
    requires NoUpper(s)
    ensures Lower(s) == s
  {
  }

  /** Lower-casing twice is lower-casing once. */
  lemma LowerIdempotent(s: string)
    ensures Lower(Lower(s)) == Lower(s)
  {
  }

  /** Lower-casing commutes with taking a slice. */
  lemma LowerSlice(s: string, i: nat, j: nat)
    requires i <= j <= |s|
    ensures Lower(s)[i..j] == Lower(s[i..j])
  {
  }

  /** `needle` occurs in `hay` starting at position `i`. */
  predicate OccursAt(hay: string, needle: string, i: nat) {
    i + |needle| <= |hay| && hay[i..i + |needle|] == needle
  }

  /** Substring containment; the empty string is contained in every string. */
  predicate Contains(hay: string, needle: string): (b: bool)
    ensures |needle| == 0 ==> b
    ensures b ==> |needle| <= |hay|
  {
    assert |needle| == 0 ==> OccursAt(hay, needle, 0);
    exists i: nat :: i <= |hay| && OccursAt(hay, needle, i)
  }

  /** Containment survives lower-casing both sides. */
  lemma ContainsLower(hay: string, needle: string)
    requires Contains(hay, needle)
    ensures Contains(Lower(hay), Lower(needle))
  {
    var i: nat :| i <= |hay| && OccursAt(hay, needle, i);
    LowerSlice(hay, i, i + |needle|);
    assert OccursAt(Lower(hay), Lower(needle), i);
  }

  /** A lower-cased string never contains a needle that has an upper-case
      ASCII letter in it. */
  lemma LowerNeverContainsUpper(hay: string, needle: string, k: nat)
    requires k < |needle| && IsUpper(needle[k])
    ensures !Contains(Lower(hay), needle)
  {
  }

  /** What containment in a lower-cased string says about the needle: the
      empty needle is always found, a needle with an upper-case ASCII letter
      never is, and a needle with none is found wherever it occurs
      verbatim. */
  lemma LowerContainsFacts(hay: string, needle: string)
    ensures |needle| == 0 ==> Contains(Lower(hay), needle)
    ensures !NoUpper(needle) ==> !Contains(Lower(hay), needle)
    ensures NoUpper(needle) && Contains(hay, needle) ==> Contains(Lower(hay), needle)
  {
    if |needle| == 0 {
      assert OccursAt(Lower(hay), needle, 0);
    }
    if !NoUpper(needle) {
      var k :| 0 <= k < |needle| && IsUpper(needle[k]);
      LowerNeverContainsUpper(hay, needle, k);
    }
    if NoUpper(needle) && Contains(hay, needle) {
      LowerKeepsLowercase(needle);
      ContainsLower(hay, needle);
    }
  }
}
