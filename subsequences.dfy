/**
 * Order-preserving selection, shared by the row filters of the scripts
 * (a boolean mask in pandas, a `continue` in a loop over triples).
 */
module Subsequences {
  /** `a` is `b` with some elements deleted, the rest in their original order. */
  predicate Subsequence<T(==)>(a: seq<T>, b: seq<T>)
    decreases |b|
  {
    if a == [] then true
    else if b == [] then false
    else (a[0] == b[0] && Subsequence(a[1..], b[1..])) || Subsequence(a, b[1..])
  }

  /** Appending one element to the source keeps a subsequence, whether or
    * not the selection takes that element too. */
  lemma {:induction false} SubsequenceAppend<T>(a: seq<T>, b: seq<T>, x: T)
    requires Subsequence(a, b)
    ensures Subsequence(a, b + [x])
    ensures Subsequence(a + [x], b + [x])
    decreases |b|
  {
    if b != [] {
      assert (b + [x])[0] == b[0] && (b + [x])[1..] == b[1..] + [x];
    }
    if a == [] {
      if b != [] {
        SubsequenceAppend(a, b[1..], x);
      }
      assert [x] + [] == [x];
    } else if a[0] == b[0] && Subsequence(a[1..], b[1..]) {
      SubsequenceAppend(a[1..], b[1..], x);
      assert (a + [x])[0] == a[0] && (a + [x])[1..] == a[1..] + [x];
    } else {
      SubsequenceAppend(a, b[1..], x);
    }
  }
}
