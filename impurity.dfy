/**
 * Split scoring: Gini impurity of a label vector and the Gini gain of a
 * proposed partition. Class fractions are computed from counts, over the
 * reals; the source's additive constant 1e-8 is kept exactly.
 */
module Impurity {
  import opened LabelCounts

  /** The constant the source adds to every non-empty impurity. */
  const Epsilon: real := 0.00000001

  /** `np.mean(classes == v)`: the fraction of the labels equal to `v`. */
  function Fraction(c: seq<int>, v: int): (p: real)
    requires |c| > 0
  {
    Count(c, v) as real / |c| as real
  }

  /** `1 - p0^2 - p1^2 + 1e-8`, or 0 for an empty vector. */
  function GiniImpurity(c: seq<int>): real
  {
    if |c| > 0 then
      var p0 := Fraction(c, 0);
      var p1 := Fraction(c, 1);
      1.0 - p0 * p0 - p1 * p1 + Epsilon
    else
      0.0
  }

  /** `1 - p0^2 - p1^2`: the impurity without the additive constant. */
  function RawGini(c: seq<int>): real
    requires |c| > 0
  {
    var p0 := Fraction(c, 0);
    var p1 := Fraction(c, 1);
    1.0 - p0 * p0 - p1 * p1
  }

  /** One child's term: its impurity weighted by its share of the `n` parent rows. */
  function Share(child: seq<int>, n: nat): real
    requires n > 0
  {
    GiniImpurity(child) * (|child| as real) / (n as real)
  }

  /** The weighted impurities of `children`, summed. */
  function WeightedImpurity(children: seq<seq<int>>, n: nat): real
    requires n > 0 || |children| == 0
  {
    if |children| == 0 then 0.0
    else WeightedImpurity(children[..|children| - 1], n) + Share(children[|children| - 1], n)
  }

  /** Specification of `gini_gain`: parent impurity minus the weighted child impurities. */
  function Gain(previous: seq<int>, current: seq<seq<int>>): real
    requires |current| > 0 ==> |previous| > 0
  {
    GiniImpurity(previous) - WeightedImpurity(current, |previous|)
  }

  /**
   * `gini_gain`: subtracts each child's weighted impurity from the parent's,
   * one child at a time. The source divides by `len(previous_classes)`, so an
   * empty parent with children is a division by zero there.
   */
  method GiniGain(previous: seq<int>, current: seq<seq<int>>) returns (gini: real)
    requires |current| > 0 ==> |previous| > 0
    ensures gini == Gain(previous, current)
  {
    var giniPrevious := GiniImpurity(previous);
    var children := |current|;
    var total := |previous|;
    gini := giniPrevious;
    for i := 0 to children
      invariant gini == giniPrevious - WeightedImpurity(current[..i], total)
    {
      assert current[..i + 1][..i] == current[..i];
      gini := gini - Share(current[i], total);
    }
    assert current[..children] == current;
  }

  // Real-arithmetic steps, kept apart so that each is a small proof obligation.

  lemma DivSum(x: real, y: real, n: real)
    requires n != 0.0
    ensures x / n + y / n == (x + y) / n
  {
  }

  lemma DivSelf(n: real)
    requires n != 0.0
    ensures n / n == 1.0
  {
  }

  lemma MulDivCancel(g: real, n: real)
    requires n != 0.0
    ensures g * n / n == g
  {
  }

  lemma ComplementSquares(p0: real, p1: real)
    requires p0 + p1 == 1.0
    ensures 1.0 - p0 * p0 - p1 * p1 == 2.0 * p0 * p1
    ensures 4.0 * p0 * p1 <= 1.0
  {
    assert p1 == 1.0 - p0;
    assert (p0 - p1) * (p0 - p1) >= 0.0;
  }

  /** For 0/1 labels the two fractions add up to 1. */
  lemma FractionsSum(c: seq<int>)
    requires |c| > 0 && Binary(c)
    ensures Fraction(c, 0) + Fraction(c, 1) == 1.0
  {
    BinaryCounts(c);
    var n, c0, c1 := |c| as real, Count(c, 0) as real, Count(c, 1) as real;
    assert c0 + c1 == n;
    assert Fraction(c, 0) == c0 / n && Fraction(c, 1) == c1 / n;
    DivSum(c0, c1, n);
    DivSelf(n);
  }

  /**
   * For 0/1 labels the impurity (less its constant) is `2 * p0 * p1`: the
   * probability that two labels drawn independently differ.
   */
  lemma RawGiniIsDisagreement(c: seq<int>)
    requires |c| > 0 && Binary(c)
    ensures RawGini(c) == 2.0 * Fraction(c, 0) * Fraction(c, 1)
    ensures GiniImpurity(c) == RawGini(c) + Epsilon
  {
    FractionsSum(c);
    ComplementSquares(Fraction(c, 0), Fraction(c, 1));
  }

  /** The impurity is 0 for an empty vector and between 1e-8 and 0.5 + 1e-8 otherwise. */
  lemma GiniBounds(c: seq<int>)
    requires Binary(c)
    ensures |c| == 0 ==> GiniImpurity(c) == 0.0
    ensures |c| > 0 ==> Epsilon <= GiniImpurity(c) <= 0.5 + Epsilon
  {
    if |c| > 0 {
      RawGiniIsDisagreement(c);
      FractionsSum(c);
      ComplementSquares(Fraction(c, 0), Fraction(c, 1));
      assert 0.0 <= Fraction(c, 0) * Fraction(c, 1);
    }
  }

  /** A pure vector (one class throughout) reaches the minimum, 1e-8. */
  lemma GiniPure(c: seq<int>)
    requires |c| > 0 && Binary(c)
    requires forall i :: 0 <= i < |c| ==> c[i] == c[0]
    ensures GiniImpurity(c) == Epsilon
  {
    RawGiniIsDisagreement(c);
    FractionsSum(c);
    CountAll(c, c[0]);
    assert Fraction(c, c[0]) == 1.0;
    assert Fraction(c, 1 - c[0]) == 0.0;
  }

  /** A perfectly balanced vector reaches the maximum, 0.5 + 1e-8. */
  lemma GiniBalanced(c: seq<int>)
    requires |c| > 0 && Binary(c)
    requires Count(c, 0) == Count(c, 1)
    ensures GiniImpurity(c) == 0.5 + Epsilon
  {
    RawGiniIsDisagreement(c);
    FractionsSum(c);
  }

  /** A "split" that keeps the whole vector in one child gains nothing. */
  lemma GainOfWholeIsZero(c: seq<int>)
    requires |c| > 0
    ensures Gain(c, [c]) == 0.0
  {
    assert [c][..0] == [];
    assert WeightedImpurity([c], |c|) == Share(c, |c|);
    MulDivCancel(GiniImpurity(c), |c| as real);
  }

  lemma ConstantShares(x: real, y: real, e: real, nl: real, nr: real, n: real)
    requires nl + nr == n && n > 0.0
    ensures (x + e) * nl / n + (y + e) * nr / n == (nl / n) * x + (nr / n) * y + e
  {
    assert (x + e) * nl / n == (nl / n) * x + e * nl / n;
    assert (y + e) * nr / n == (nr / n) * y + e * nr / n;
    assert e * nl / n + e * nr / n == e * (nl + nr) / n;
  }

  /**
   * Two non-empty children covering the parent: the 1e-8 constants cancel,
   * leaving the parent's impurity minus the children's, weighted by size.
   */
  lemma GainConstantsCancel(parent: seq<int>, left: seq<int>, right: seq<int>)
    requires |left| > 0 && |right| > 0 && |left| + |right| == |parent|
    ensures var n := |parent| as real;
      Gain(parent, [left, right])
        == RawGini(parent) - (|left| as real / n) * RawGini(left) - (|right| as real / n) * RawGini(right)
  {
    var n := |parent|;
    WeightedPair(left, right, n);
    var x, y, z := RawGini(left), RawGini(right), RawGini(parent);
    assert GiniImpurity(left) == x + Epsilon;
    assert GiniImpurity(right) == y + Epsilon;
    assert GiniImpurity(parent) == z + Epsilon;
    CancelConstants(Gain(parent, [left, right]), Share(left, n), Share(right, n), x, y, z, Epsilon,
                    |left| as real, |right| as real, n as real);
  }

  lemma CancelConstants(g: real, sl: real, sr: real, x: real, y: real, z: real, e: real, nl: real, nr: real, n: real)
    requires nl + nr == n && n > 0.0
    requires g == (z + e) - (sl + sr)
    requires sl == (x + e) * nl / n && sr == (y + e) * nr / n
    ensures g == z - (nl / n) * x - (nr / n) * y
  {
    ConstantShares(x, y, e, nl, nr, n);
  }

  lemma WeightedPair(left: seq<int>, right: seq<int>, n: nat)
    requires n > 0
    ensures WeightedImpurity([left, right], n) == Share(left, n) + Share(right, n)
  {
    assert [left, right][..1] == [left];
    assert [left][..0] == [];
    assert WeightedImpurity([left], n) == Share(left, n);
  }

  /** For 0/1 labels the impurity is `2 p (1 - p)` in the share `p` of class 0. */
  lemma RawGiniOfShare(c: seq<int>)
    requires |c| > 0 && Binary(c)
    ensures RawGini(c) == 2.0 * Fraction(c, 0) * (1.0 - Fraction(c, 0))
  {
    RawGiniIsDisagreement(c);
    FractionsSum(c);
  }

  lemma MixtureFraction(c: real, cl: real, cr: real, n: real, nl: real, nr: real)
    requires nl > 0.0 && nr > 0.0 && n == nl + nr && c == cl + cr
    ensures c / n == (nl / n) * (cl / nl) + (nr / n) * (cr / nr)
  {
    assert (nl / n) * (cl / nl) == cl / n;
    assert (nr / n) * (cr / nr) == cr / n;
  }

  /** The parent's class-0 share is the size-weighted mean of the children's shares. */
  lemma FractionMixture(parent: seq<int>, left: seq<int>, right: seq<int>)
    requires |left| > 0 && |right| > 0 && |left| + |right| == |parent|
    requires Count(left, 0) + Count(right, 0) == Count(parent, 0)
    ensures var n := |parent| as real;
      Fraction(parent, 0) == (|left| as real / n) * Fraction(left, 0) + (|right| as real / n) * Fraction(right, 0)
  {
    var c, cl, cr := Count(parent, 0) as real, Count(left, 0) as real, Count(right, 0) as real;
    var n, nl, nr := |parent| as real, |left| as real, |right| as real;
    assert Fraction(parent, 0) == c / n && Fraction(left, 0) == cl / nl && Fraction(right, 0) == cr / nr;
    MixtureFraction(c, cl, cr, n, nl, nr);
  }

  /** The parent's impurity in terms of its children's class-0 shares. */
  lemma ParentRawGini(parent: seq<int>, left: seq<int>, right: seq<int>) returns (p: real)
    requires |left| > 0 && |right| > 0 && Binary(parent)
    requires |left| + |right| == |parent|
    requires Count(left, 0) + Count(right, 0) == Count(parent, 0)
    ensures var n := |parent| as real;
      p == (|left| as real / n) * Fraction(left, 0) + (|right| as real / n) * Fraction(right, 0)
    ensures RawGini(parent) == 2.0 * p * (1.0 - p)
  {
    RawGiniOfShare(parent);
    FractionMixture(parent, left, right);
    p := Fraction(parent, 0);
  }

  /**
   * The gain of a two-way split of 0/1 labels as a function of the children's
   * class-0 shares `pl`, `pr` and weights `wl`, `wr` (their shares of the
   * parent's rows), without the constants, which cancel.
   */
  function SplitGain(pl: real, pr: real, wl: real, wr: real): real
  {
    var p := wl * pl + wr * pr;
    2.0 * p * (1.0 - p) - wl * (2.0 * pl * (1.0 - pl)) - wr * (2.0 * pr * (1.0 - pr))
  }

  /**
   * Concavity of `2 p (1 - p)`: mixing two shares with weights `wl` and `wr`
   * loses exactly `2 wl wr (pl - pr)^2` of impurity.
   */
  lemma SplitGainIdentity(pl: real, pr: real, wl: real, wr: real)
    requires wl + wr == 1.0
    ensures SplitGain(pl, pr, wl, wr) == 2.0 * (wl * wr) * ((pl - pr) * (pl - pr))
  {
    assert wr == 1.0 - wl;
  }

  /** Mixing never raises impurity: the gain of a split is at least 0, and 0 exactly for equal shares. */
  lemma SplitGainSign(pl: real, pr: real, wl: real, wr: real)
    requires wl > 0.0 && wr > 0.0 && wl + wr == 1.0
    ensures SplitGain(pl, pr, wl, wr) >= 0.0
    ensures SplitGain(pl, pr, wl, wr) == 0.0 <==> pl == pr
  {
    SplitGainIdentity(pl, pr, wl, wr);
    MulPositive(wl, wr);
    ScaledSquareSign(SplitGain(pl, pr, wl, wr), 2.0 * (wl * wr), pl - pr);
  }

  /** A two-way split's gain, once its impurities and shares are known, is `SplitGain`. */
  lemma SplitGainFromParts(g: real, gp: real, gl: real, gr: real, p: real, pl: real, pr: real, wl: real, wr: real)
    requires g == gp - wl * gl - wr * gr
    requires gp == 2.0 * p * (1.0 - p) && gl == 2.0 * pl * (1.0 - pl) && gr == 2.0 * pr * (1.0 - pr)
    requires p == wl * pl + wr * pr
    ensures g == SplitGain(pl, pr, wl, wr)
  {
  }

  lemma ScaledSquareSign(g: real, k: real, d: real)
    requires k > 0.0 && g == k * (d * d)
    ensures g >= 0.0
    ensures g == 0.0 <==> d == 0.0
  {
    SquareNonNeg(d);
    MulNonNeg(k, d * d);
    ZeroSquare(k, d);
  }

  lemma ShareSum(nl: real, nr: real, n: real)
    requires nl > 0.0 && nr > 0.0 && n == nl + nr
    ensures nl / n + nr / n == 1.0 && nl / n > 0.0 && nr / n > 0.0
  {
  }

  /**
   * The gain of a partition of 0/1 labels depends only on the children's
   * class-0 shares and their shares of the parent's rows.
   */
  lemma GainOfPartition(parent: seq<int>, left: seq<int>, right: seq<int>)
    requires |left| > 0 && |right| > 0 && Binary(left) && Binary(right) && Binary(parent)
    requires |left| + |right| == |parent|
    requires Count(left, 0) + Count(right, 0) == Count(parent, 0)
    ensures var n := |parent| as real;
      Gain(parent, [left, right])
        == SplitGain(Fraction(left, 0), Fraction(right, 0), |left| as real / n, |right| as real / n)
  {
    var g, gp, gl, gr, p, pl, pr, wl, wr := PartitionTerms(parent, left, right);
    SplitGainFromParts(g, gp, gl, gr, p, pl, pr, wl, wr);
  }

  /** The terms of a partition's gain: the three impurities, the parent's share and the weights. */
  lemma PartitionTerms(parent: seq<int>, left: seq<int>, right: seq<int>)
      returns (g: real, gp: real, gl: real, gr: real, p: real, pl: real, pr: real, wl: real, wr: real)
    requires |left| > 0 && |right| > 0 && Binary(left) && Binary(right) && Binary(parent)
    requires |left| + |right| == |parent|
    requires Count(left, 0) + Count(right, 0) == Count(parent, 0)
    ensures wl == |left| as real / |parent| as real && wr == |right| as real / |parent| as real
    ensures pl == Fraction(left, 0) && pr == Fraction(right, 0)
    ensures g == Gain(parent, [left, right]) && g == gp - wl * gl - wr * gr
    ensures gp == 2.0 * p * (1.0 - p) && gl == 2.0 * pl * (1.0 - pl) && gr == 2.0 * pr * (1.0 - pr)
    ensures p == wl * pl + wr * pr
  {
    GainConstantsCancel(parent, left, right);
    RawGiniOfShare(left);
    RawGiniOfShare(right);
    p := ParentRawGini(parent, left, right);
    g, gp, gl, gr := Gain(parent, [left, right]), RawGini(parent), RawGini(left), RawGini(right);
    pl, pr := Fraction(left, 0), Fraction(right, 0);
    wl, wr := |left| as real / |parent| as real, |right| as real / |parent| as real;
  }

  /**
   * Splitting a 0/1 vector into two non-empty parts never loses impurity:
   * the Gini gain of a partition is at least 0, and it is 0 exactly when
   * both parts have the same class-0 share.
   */
  lemma GainOfPartitionNonNegative(parent: seq<int>, left: seq<int>, right: seq<int>)
    requires |left| > 0 && |right| > 0 && Binary(left) && Binary(right) && Binary(parent)
    requires |left| + |right| == |parent|
    requires Count(left, 0) + Count(right, 0) == Count(parent, 0)
    ensures Gain(parent, [left, right]) >= 0.0
    ensures Gain(parent, [left, right]) == 0.0 <==> Fraction(left, 0) == Fraction(right, 0)
  {
    var n, nl, nr := |parent| as real, |left| as real, |right| as real;
    GainOfPartition(parent, left, right);
    ShareSum(nl, nr, n);
    SplitGainSign(Fraction(left, 0), Fraction(right, 0), nl / n, nr / n);
  }

  lemma MulNonNeg(x: real, y: real)
    requires x >= 0.0 && y >= 0.0
    ensures x * y >= 0.0
  {
  }

  lemma SquareNonNeg(d: real)
    ensures d * d >= 0.0
  {
    if d < 0.0 {
      MulNonNeg(-d, -d);
    } else {
      MulNonNeg(d, d);
    }
  }

  lemma MulPositive(x: real, y: real)
    requires x > 0.0 && y > 0.0
    ensures x * y > 0.0
  {
  }

  lemma ProductZero(x: real, y: real)
    requires x * y == 0.0
    ensures x == 0.0 || y == 0.0
  {
  }

  lemma ZeroSquare(k: real, d: real)
    requires k > 0.0
    ensures k * (d * d) == 0.0 <==> d == 0.0
  {
    if k * (d * d) == 0.0 {
      ProductZero(k, d * d);
      ProductZero(d, d);
    }
  }
}
