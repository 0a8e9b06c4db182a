/**
 * Counting over label vectors: the `np.sum(v == x)` and `np.mean(v == x)`
 * idioms the classifier uses everywhere.
 */
module LabelCounts {

  /** Number of positions of `s` that hold `v` (its multiplicity in `s`). */
  function Count(s: seq<int>, v: int): (r: nat)
  {
    multiset(s)[v]
  }

  /** Dropping the last element removes exactly its own contribution. */
  lemma CountLast(s: seq<int>, v: int)
    requires |s| > 0
    ensures Count(s, v) == Count(s[..|s| - 1], v) + (if s[|s| - 1] == v then 1 else 0)
  {
    assert s == s[..|s| - 1] + [s[|s| - 1]];
  }

  /** A count never exceeds the length. */
  lemma {:induction false} CountBounded(s: seq<int>, v: int)
    ensures Count(s, v) <= |s|
  {
    if |s| > 0 {
      CountLast(s, v);
      CountBounded(s[..|s| - 1], v);
    }
  }

  /** Every label is 0 or 1. */
  predicate Binary(s: seq<int>)
  {
    forall i :: 0 <= i < |s| ==> s[i] == 0 || s[i] == 1
  }

  lemma CountAppend(a: seq<int>, b: seq<int>, v: int)
    ensures Count(a + b, v) == Count(a, v) + Count(b, v)
  {
  }

  /** The count of `v` is all of `s` exactly when every element is `v`. */
  lemma {:induction false} CountAll(s: seq<int>, v: int)
    ensures Count(s, v) == |s| <==> forall i :: 0 <= i < |s| ==> s[i] == v
  {
    if |s| > 0 {
      var init := s[..|s| - 1];
      CountLast(s, v);
      CountBounded(init, v);
      CountAll(init, v);
      assert forall i :: 0 <= i < |init| ==> init[i] == s[i];
    }
  }

  /** For 0/1 labels the zeros and the ones together are the whole vector. */
  lemma {:induction false} BinaryCounts(s: seq<int>)
    requires Binary(s)
    ensures Count(s, 0) + Count(s, 1) == |s|
  {
    if |s| > 0 {
      CountLast(s, 0);
      CountLast(s, 1);
      BinaryCounts(s[..|s| - 1]);
    }
  }
}
