/** What several of the models use. */
module Common {

  datatype Option<+T> = None | Some(value: T)

  lemma SubsetSmaller<T>(a: set<T>, b: set<T>)
    requires a <= b
    ensures |a| <= |b|
  {
    assert b == a + (b - a);
  }
}
