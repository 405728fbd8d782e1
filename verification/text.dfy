/** Where one string stands inside another. */
module Text {

  /** `sub` stands in `s` starting at index `i`. */
  predicate OccursAt(sub: string, s: string, i: nat) {
    i + |sub| <= |s| && s[i..i + |sub|] == sub
  }

  /** Putting text in front of a string moves every occurrence along by that much. */
  lemma OccursAfterPrefix(sub: string, s: string, i: nat, prefix: string)
    requires OccursAt(sub, s, i)
    ensures OccursAt(sub, prefix + s, |prefix| + i)
  {
    assert (prefix + s)[|prefix| + i..|prefix| + i + |sub|] == s[i..i + |sub|];
  }

  /** A string stands at the very start of itself followed by anything. */
  lemma OccursAtStart(sub: string, suffix: string)
    ensures OccursAt(sub, sub + suffix, 0)
  {
    assert (sub + suffix)[..|sub|] == sub;
  }
}
