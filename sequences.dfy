/** Order-preserving subsequences, the shape of every `Array.prototype.filter` result. */
module Sequences {

  /** `a` is `b` with some elements left out and the rest kept in order. */
  predicate IsSubsequence<T(==)>(a: seq<T>, b: seq<T>)
    decreases |b|
  {
    if a == [] then true
    else if b == [] then false
    else if a[0] == b[0] then IsSubsequence(a[1..], b[1..])
    else IsSubsequence(a, b[1..])
  }

  /** Dropping the first element of a subsequence leaves a subsequence. */
  lemma {:induction false} SubsequenceTail<T>(a: seq<T>, b: seq<T>)
    requires a != [] && IsSubsequence(a, b)
    ensures IsSubsequence(a[1..], b)
    decreases |b|, 0
  {
    if a[0] == b[0] {
      if a[1..] != [] {
        SubsequenceTail(a[1..], b[1..]);
        SubsequenceSkip(b[0], a[1..], b[1..]);
      }
    } else {
      SubsequenceTail(a, b[1..]);
      SubsequenceSkip(b[0], a[1..], b[1..]);
    }
  }

  /** A subsequence of `b` is one of `[x] + b` as well. */
  lemma {:induction false} SubsequenceSkip<T>(x: T, a: seq<T>, b: seq<T>)
    requires IsSubsequence(a, b)
    ensures IsSubsequence(a, [x] + b)
    decreases |b|, 1
  {
    assert ([x] + b)[1..] == b;
    if a != [] && a[0] == x {
      SubsequenceTail(a, b);
    }
  }

  /** Keeping the first element on both sides preserves the relation. */
  lemma {:induction false} SubsequenceKeep<T>(x: T, a: seq<T>, b: seq<T>)
    requires IsSubsequence(a, b)
    ensures IsSubsequence([x] + a, [x] + b)
  {
    assert ([x] + a)[1..] == a && ([x] + b)[1..] == b;
  }
}
