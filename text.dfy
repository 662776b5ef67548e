/** Substring occurrence, for stating what a piece of printed text contains. */
module Text {

  /** `w` occurs in `s` starting at position `i`. */
  predicate OccursAt(s: string, w: string, i: nat) {
    i + |w| <= |s| && s[i..i + |w|] == w
  }

  /** `s.contains(w)`. */
  ghost predicate Contains(s: string, w: string) {
    exists i: nat :: OccursAt(s, w, i)
  }

  /** An occurrence moves right by the length of text put in front. */
  lemma Prepend(t: string, s: string, w: string, i: nat)
    requires OccursAt(s, w, i)
    ensures OccursAt(t + s, w, |t| + i)
  {
    assert (t + s)[|t| + i..|t| + i + |w|] == s[i..i + |w|];
  }
}
