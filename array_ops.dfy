/**
 * The numpy idioms the tree builder uses, over sequences: a matrix column
 * (`features[:, i]`), boolean-mask selection (`classes[mask]`), elementwise
 * comparison masks, and the minimum and maximum of a column.
 */
module ArrayOps {

  /** Every row of `m` has exactly `width` entries: `m` is an `|m| x width` matrix. */
  predicate Rect(m: seq<seq<real>>, width: nat)
  {
    forall r :: 0 <= r < |m| ==> |m[r]| == width
  }

  /** `m[:, i]`. */
  function Column(m: seq<seq<real>>, i: nat): (col: seq<real>)
    requires forall r :: 0 <= r < |m| ==> i < |m[r]|
    ensures |col| == |m|
    ensures forall r :: 0 <= r < |m| ==> col[r] == m[r][i]
  {
    seq(|m|, r requires 0 <= r < |m| => m[r][i])
  }

  /** `s[keep]`: the elements whose mask entry is true, in order. */
  function Select<T>(s: seq<T>, keep: seq<bool>): (r: seq<T>)
    requires |keep| == |s|
  {
    if |s| == 0 then []
    else
      var n := |s| - 1;
      Select(s[..n], keep[..n]) + (if keep[n] then [s[n]] else [])
  }

  /** `col <= thr`, elementwise. */
  function AtMost(col: seq<real>, thr: real): (mask: seq<bool>)
    ensures |mask| == |col|
  {
    seq(|col|, i requires 0 <= i < |col| => col[i] <= thr)
  }

  /** `col > thr`, elementwise. */
  function Above(col: seq<real>, thr: real): (mask: seq<bool>)
    ensures |mask| == |col|
  {
    seq(|col|, i requires 0 <= i < |col| => col[i] > thr)
  }

  /** The elementwise negation of a mask. */
  function Negate(keep: seq<bool>): (r: seq<bool>)
    ensures |r| == |keep|
  {
    seq(|keep|, i requires 0 <= i < |keep| => !keep[i])
  }

  /** The smallest entry of a non-empty vector (`min(features[:, i])`). */
  function Min(s: seq<real>): (m: real)
    requires |s| > 0
    ensures m in s
    ensures forall i :: 0 <= i < |s| ==> m <= s[i]
  {
    if |s| == 1 then s[0]
    else
      var rest := Min(s[..|s| - 1]);
      assert forall i :: 0 <= i < |s| - 1 ==> s[..|s| - 1][i] == s[i];
      if s[|s| - 1] < rest then s[|s| - 1] else rest
  }

  /** The largest entry of a non-empty vector (`max(features[:, i])`). */
  function Max(s: seq<real>): (m: real)
    requires |s| > 0
    ensures m in s
    ensures forall i :: 0 <= i < |s| ==> s[i] <= m
  {
    if |s| == 1 then s[0]
    else
      var rest := Max(s[..|s| - 1]);
      assert forall i :: 0 <= i < |s| - 1 ==> s[..|s| - 1][i] == s[i];
      if s[|s| - 1] > rest then s[|s| - 1] else rest
  }

  /** The mask `col > thr` is the negation of the mask `col <= thr`. */
  lemma AboveIsNegation(col: seq<real>, thr: real)
    ensures Above(col, thr) == Negate(AtMost(col, thr))
  {
  }

  /** Selecting from a non-empty vector adds the last element exactly when it is kept. */
  lemma SelectLast(s: seq<int>, keep: seq<bool>)
    requires |keep| == |s| > 0
    ensures var n := |s| - 1;
      multiset(Select(s, keep)) == multiset(Select(s[..n], keep[..n])) + (if keep[n] then multiset{s[n]} else multiset{})
  {
  }

  /** A non-empty vector's elements are those of its prefix and its last element. */
  lemma MultisetLast(s: seq<int>)
    requires |s| > 0
    ensures multiset(s) == multiset(s[..|s| - 1]) + multiset{s[|s| - 1]}
  {
    assert s == s[..|s| - 1] + [s[|s| - 1]];
  }

  /** The selection by the negated mask, one step. */
  lemma SelectNegatedLast(s: seq<int>, keep: seq<bool>)
    requires |keep| == |s| > 0
    ensures var n := |s| - 1;
      multiset(Select(s, Negate(keep))) == multiset(Select(s[..n], Negate(keep[..n]))) + (if keep[n] then multiset{} else multiset{s[n]})
  {
    var n := |s| - 1;
    assert Negate(keep)[..n] == Negate(keep[..n]);
    SelectLast(s, Negate(keep));
  }

  /** A selection and the selection by the negated mask split the vector's elements between them. */
  lemma {:induction false} SelectPartition(s: seq<int>, keep: seq<bool>)
    requires |keep| == |s|
    ensures multiset(Select(s, keep)) + multiset(Select(s, Negate(keep))) == multiset(s)
  {
    if |s| > 0 {
      var n := |s| - 1;
      SelectPartition(s[..n], keep[..n]);
      SelectLast(s, keep);
      SelectNegatedLast(s, keep);
      MultisetLast(s);
    }
  }

  /** The two selections' lengths add up to the vector's. */
  lemma SelectSizes(s: seq<int>, keep: seq<bool>)
    requires |keep| == |s|
    ensures |Select(s, keep)| + |Select(s, Negate(keep))| == |s|
  {
    SelectPartition(s, keep);
    assert |multiset(Select(s, keep))| + |multiset(Select(s, Negate(keep)))| == |multiset(s)|;
  }

  /** Every selected element comes from a kept position. */
  lemma {:induction false} SelectFrom<T>(s: seq<T>, keep: seq<bool>, x: T)
    requires |keep| == |s|
    ensures x in Select(s, keep) <==> exists i :: 0 <= i < |s| && keep[i] && s[i] == x
  {
    if |s| > 0 {
      var n := |s| - 1;
      SelectFrom(s[..n], keep[..n], x);
      if x in Select(s[..n], keep[..n]) {
        var i :| 0 <= i < n && keep[..n][i] && s[..n][i] == x;
        assert keep[i] && s[i] == x;
      }
      if exists i :: 0 <= i < |s| && keep[i] && s[i] == x {
        var i :| 0 <= i < |s| && keep[i] && s[i] == x;
        if i < n {
          assert keep[..n][i] && s[..n][i] == x;
        }
      }
    }
  }

  /** A mask with a true entry selects something. */
  lemma {:induction false} SelectNonEmpty<T>(s: seq<T>, keep: seq<bool>, i: nat)
    requires |keep| == |s| && i < |s| && keep[i]
    ensures |Select(s, keep)| > 0
  {
    SelectFrom(s, keep, s[i]);
  }

  /** Selection preserves the positions' correspondence between two vectors of the same length. */
  lemma {:induction false} SelectLength<T, U>(s: seq<T>, t: seq<U>, keep: seq<bool>)
    requires |keep| == |s| == |t|
    ensures |Select(s, keep)| == |Select(t, keep)|
  {
    if |s| > 0 {
      SelectLength(s[..|s| - 1], t[..|t| - 1], keep[..|s| - 1]);
    }
  }
}
