/** A fact about finite sets that the termination measures of the call
    graph construction and of the completion passes both rest on. */
module SetFacts {
  /** Adding to `a` an element of `d` it lacked shrinks what `d` has beyond
      it. */
  lemma DiffShrinks<T>(d: set<T>, a: set<T>, b: set<T>, x: T)
    requires a <= b && x in b && x !in a && x in d
    ensures |d - b| < |d - a|
  {
    var lost := (d - a) - (d - b);
    assert x in lost;
    assert d - a == (d - b) + lost;
    assert (d - b) * lost == {};
  }
}
