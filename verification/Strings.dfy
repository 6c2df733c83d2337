/** Regroupings of concatenated strings, one step each. */
module Strings {

  lemma Assoc(a: string, b: string, c: string)
    ensures (a + b) + c == a + (b + c)
  {}

  lemma Cut(a: string, b: string)
    ensures (a + b)[|a|..] == b && (a + b)[..|a|] == a
  {}

  lemma SameRest(a: string, b: string, c: string)
    requires a + b == a + c
    ensures b == c
  {
    Cut(a, b);
    Cut(a, c);
  }

  lemma Front(s: string)
    requires s != ""
    ensures [s[0]] + s[1..] == s
  {}

  lemma Back(s: string)
    requires s != ""
    ensures s[..|s| - 1] + [s[|s| - 1]] == s
  {}

  lemma Split(s: string, n: nat)
    requires n <= |s|
    ensures s[..n] + s[n..] == s
  {}

  lemma NoText(s: string)
    ensures "" + s == s == s + ""
  {}
}
