/**
 Facts about sequences that the solver does not find unprompted.

 Concatenation is associative, and a sequence is its front and its last element;
 the proofs that follow a text or a list piece by piece say where they use this.
 */
module Sequences {
  lemma Associative<T>(a: seq<T>, b: seq<T>, c: seq<T>)
    ensures a + (b + c) == (a + b) + c
  {
  }

  lemma SplitLast<T>(s: seq<T>)
    requires s != []
    ensures s == s[..|s| - 1] + [s[|s| - 1]]
  {
  }
}
