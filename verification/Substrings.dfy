/** Strings that stand at a position of a longer one, for the parsers. */
module Substrings {

  /** p stands in s at position i. */
  ghost predicate At(s: string, i: nat, p: string) {
    i + |p| <= |s| && s[i..i + |p|] == p
  }

  lemma AtParts(s: string, i: nat, a: string, b: string)
    requires At(s, i, a + b)
    ensures At(s, i, a) && At(s, i + |a|, b)
  {
    assert s[i..i + |a|] == s[i..i + |a + b|][..|a|];
    assert s[i + |a|..i + |a| + |b|] == s[i..i + |a + b|][|a|..];
  }

  lemma AtChar(s: string, i: nat, p: string, k: nat)
    requires At(s, i, p) && k < |p|
    ensures s[i + k] == p[k]
  {
    assert s[i + k] == s[i..i + |p|][k];
  }
}
