/** What all modules share. */
module Basics {
  datatype Option<+T> = None | Some(value: T)

  lemma SizeOfSubset<T>(a: set<T>, b: set<T>)
    requires a <= b
    ensures |a| <= |b|
  {
    assert b == a + (b - a);
  }
}
