/**
 * `RandomForest`: bootstrap aggregation of decision trees. Every tree is fitted
 * on rows drawn with replacement and on a set of distinct columns; a row is
 * classified by the mean of the trees' labels compared with 0.5. The random
 * draws are parameters of `Fit`.
 */
module RandomForests {
  import opened Wrappers
  import opened LabelCounts
  import opened ArrayOps
  import opened DecisionNodes
  import opened DecisionTrees

  /** Python's `int(x)`: truncation toward zero. */
  function Trunc(x: real): int
  {
    if x >= 0.0 then x.Floor else -((-x).Floor)
  }

  /** `int(rate * n)`: the number of rows or columns drawn. */
  function SampleSize(rate: real, n: nat): int
  {
    Trunc(rate * (n as real))
  }

  /** Every column index of `cols` is an index of `row`. */
  predicate Selects(row: seq<real>, cols: seq<nat>)
  {
    forall j :: 0 <= j < |cols| ==> cols[j] < |row|
  }

  /** `row[cols]`: the chosen columns of one row, in the order drawn. */
  function Project(row: seq<real>, cols: seq<nat>): (p: seq<real>)
    requires Selects(row, cols)
    ensures |p| == |cols|
  {
    seq(|cols|, j requires 0 <= j < |cols| => row[cols[j]])
  }

  /** `features[:, cols]`. */
  function ProjectAll(features: seq<seq<real>>, cols: seq<nat>): (m: seq<seq<real>>)
    requires forall r :: 0 <= r < |features| ==> Selects(features[r], cols)
    ensures |m| == |features| && Rect(m, |cols|)
  {
    seq(|features|, r requires 0 <= r < |features| => Project(features[r], cols))
  }

  /** `features[rows][:, cols]`: the bootstrap sample of one tree. */
  function SampleRows(features: seq<seq<real>>, rows: seq<nat>, cols: seq<nat>): (m: seq<seq<real>>)
    requires forall a :: 0 <= a < |rows| ==> rows[a] < |features| && Selects(features[rows[a]], cols)
    ensures |m| == |rows| && Rect(m, |cols|)
  {
    seq(|rows|, a requires 0 <= a < |rows| => Project(features[rows[a]], cols))
  }

  /** `classes[rows]`. */
  function SampleClasses(classes: seq<int>, rows: seq<nat>): (c: seq<int>)
    requires forall a :: 0 <= a < |rows| ==> rows[a] < |classes|
    ensures |c| == |rows|
  {
    seq(|rows|, a requires 0 <= a < |rows| => classes[rows[a]])
  }

  /** No index is drawn twice (`replace=False`). */
  predicate Distinct(cols: seq<nat>)
  {
    forall j, k :: 0 <= j < k < |cols| ==> cols[j] != cols[k]
  }

  /** A valid draw of rows for one tree: indices below `m`, repeats allowed. */
  predicate RowDraw(rows: seq<nat>, m: nat)
  {
    forall a :: 0 <= a < |rows| ==> rows[a] < m
  }

  /** A valid draw of columns for one tree: distinct indices below `width`. */
  predicate ColumnDraw(cols: seq<nat>, width: nat)
  {
    Distinct(cols) && forall j :: 0 <= j < |cols| ==> cols[j] < width
  }

  function Sum(votes: seq<int>): int
  {
    if |votes| == 0 then 0 else Sum(votes[..|votes| - 1]) + votes[|votes| - 1]
  }

  /** `np.mean(votes) > 0.5`. */
  predicate Vote(votes: seq<int>)
    requires |votes| > 0
  {
    (Sum(votes) as real) / (|votes| as real) > 0.5
  }

  /** The label every tree gives one row, each tree reading its own columns. */
  function TreeVotes(roots: seq<Node>, cols: seq<seq<nat>>, row: seq<real>): (votes: seq<int>)
    requires |roots| == |cols|
    requires forall i :: 0 <= i < |roots| ==> Selects(row, cols[i]) && Defined(roots[i], Project(row, cols[i]))
    ensures |votes| == |roots|
  {
    seq(|roots|, i requires 0 <= i < |roots| => Decide(roots[i], Project(row, cols[i])))
  }

  /** The `r`-th entry of each column of labels. */
  function RowOf(columns: seq<seq<int>>, r: nat): (row: seq<int>)
    requires forall i :: 0 <= i < |columns| ==> r < |columns[i]|
    ensures |row| == |columns|
  {
    seq(|columns|, i requires 0 <= i < |columns| => columns[i][r])
  }

  // ---------------------------------------------------------------------
  // Properties of the sizes and the vote.

  /** `int` truncates toward zero: the result has the sign of `x` and lies within 1 of it. */
  lemma TruncBounds(x: real)
    ensures x >= 0.0 ==> 0 <= Trunc(x) && Trunc(x) as real <= x < Trunc(x) as real + 1.0
    ensures x < 0.0 ==> Trunc(x) <= 0 && Trunc(x) as real - 1.0 < x <= Trunc(x) as real
  {
  }

  /** A rate in `[0, 1]` draws between 0 and `n` items. */
  lemma SampleSizeBounds(rate: real, n: nat)
    requires 0.0 <= rate <= 1.0
    ensures 0 <= SampleSize(rate, n) <= n
  {
    var x := rate * (n as real);
    assert 0.0 <= x <= n as real by {
      Impurity.MulNonNeg(rate, n as real);
      Impurity.MulNonNeg(1.0 - rate, n as real);
      assert (1.0 - rate) * (n as real) == (n as real) - x;
    }
    TruncBounds(x);
  }

  /** The sum of 0/1 votes counts the 1 votes. */
  lemma {:induction false} SumCountsOnes(votes: seq<int>)
    requires Binary(votes)
    ensures Sum(votes) == Count(votes, 1)
  {
    if |votes| > 0 {
      var n := |votes| - 1;
      SumCountsOnes(votes[..n]);
      CountLast(votes, 1);
    }
  }

  /** For a positive `n`, `s / n > 0.5` exactly when `2 s > n`. */
  lemma RatioAboveHalf(s: real, n: real)
    requires n > 0.0
    ensures s / n > 0.5 <==> 2.0 * s > n
  {
    var q := s / n;
    assert q * n == s;
    if q > 0.5 {
      assert (q - 0.5) * n > 0.0 by { Impurity.MulPositive(q - 0.5, n); }
    } else {
      assert (0.5 - q) * n >= 0.0 by { Impurity.MulNonNeg(0.5 - q, n); }
    }
  }

  /** A forest of 0/1 trees predicts 1 exactly when strictly more than half the trees vote 1. */
  lemma MajorityVote(votes: seq<int>)
    requires |votes| > 0 && Binary(votes)
    ensures Vote(votes) <==> 2 * Count(votes, 1) > |votes|
  {
    SumCountsOnes(votes);
    RatioAboveHalf(Sum(votes) as real, |votes| as real);
  }

  /** A tie, or a minority of 1 votes, predicts 0. */
  lemma TieVotesZero(votes: seq<int>)
    requires |votes| > 0 && Binary(votes) && 2 * Count(votes, 1) == |votes|
    ensures !Vote(votes)
  {
    MajorityVote(votes);
  }

  /** A bootstrap sample of 0/1 labels is 0/1, so every sampled tree can be fitted. */
  lemma SampleInput(features: seq<seq<real>>, classes: seq<int>, width: nat, rows: seq<nat>, cols: seq<nat>)
    requires Input(features, classes, width) && |rows| > 0
    requires RowDraw(rows, |classes|) && ColumnDraw(cols, width)
    ensures forall a :: 0 <= a < |rows| ==> Selects(features[rows[a]], cols)
    ensures Input(SampleRows(features, rows, cols), SampleClasses(classes, rows), |cols|)
  {
  }

  /**
   * The votes of trees built from 0/1 labels are 0/1, whatever the rows
   * they classify, so the forest's prediction is the strict majority.
   */
  lemma FittedVotesBinary(roots: seq<Node>, cols: seq<seq<nat>>, row: seq<real>)
    requires |roots| == |cols|
    requires forall i :: 0 <= i < |roots| ==> Selects(row, cols[i]) && Defined(roots[i], Project(row, cols[i]))
    requires forall i :: 0 <= i < |roots| ==> Labels(roots[i]) <= {0, 1}
    ensures Binary(TreeVotes(roots, cols, row))
  {
  }

  /** The tree fitted on one bootstrap sample: the rows `rows` restricted to the columns `cols`. */
  function FittedTree(features: seq<seq<real>>, classes: seq<int>, width: nat,
                      rows: seq<nat>, cols: seq<nat>, lim: DepthLimit): Node
    requires Input(features, classes, width) && |rows| > 0
    requires RowDraw(rows, |classes|) && ColumnDraw(cols, width)
  {
    SampleInput(features, classes, width, rows, cols);
    Build(SampleRows(features, rows, cols), SampleClasses(classes, rows), |cols|, 0, lim)
  }

  /** A tree fitted on a sample of 0/1 labels has only the leaf labels 0 and 1. */
  lemma FittedTreeLabels(features: seq<seq<real>>, classes: seq<int>, width: nat,
                         rows: seq<nat>, cols: seq<nat>, lim: DepthLimit)
    requires Input(features, classes, width) && |rows| > 0
    requires RowDraw(rows, |classes|) && ColumnDraw(cols, width)
    ensures Labels(FittedTree(features, classes, width, rows, cols, lim)) <= {0, 1}
  {
    SampleInput(features, classes, width, rows, cols);
    var sample := SampleClasses(classes, rows);
    BuildLabels(SampleRows(features, rows, cols), sample, |cols|, 0, lim);
    forall l | l in Labels(FittedTree(features, classes, width, rows, cols, lim))
      ensures l in {0, 1}
    {
      var a :| 0 <= a < |sample| && sample[a] == l;
    }
  }

  /**
   * The forest's prediction for a row, for trees with 0/1 leaves: 1 exactly
   * when strictly more than half of the trees label the row 1.
   */
  lemma ForestMajority(roots: seq<Node>, cols: seq<seq<nat>>, row: seq<real>)
    requires |roots| == |cols| > 0
    requires forall i :: 0 <= i < |roots| ==> Selects(row, cols[i]) && Defined(roots[i], Project(row, cols[i]))
    requires forall i :: 0 <= i < |roots| ==> Labels(roots[i]) <= {0, 1}
    ensures Vote(TreeVotes(roots, cols, row)) <==> 2 * Count(TreeVotes(roots, cols, row), 1) > |roots|
  {
    FittedVotesBinary(roots, cols, row);
    MajorityVote(TreeVotes(roots, cols, row));
  }

  // ---------------------------------------------------------------------
  // The class.

  class RandomForest {
    /** The fitted trees, in the order built; `Fit` appends to them. */
    var trees: seq<DecisionTree>
    var numTrees: nat
    var depthLimit: DepthLimit
    var exampleRate: real
    var attrRate: real
    /** The columns each tree was fitted on, parallel to `trees`. */
    var featureList: seq<seq<nat>>

    /** An empty forest. */
    constructor (numTrees: nat, depthLimit: DepthLimit, exampleRate: real, attrRate: real)
      ensures trees == [] && featureList == []
      ensures this.numTrees == numTrees && this.depthLimit == depthLimit
      ensures this.exampleRate == exampleRate && this.attrRate == attrRate
    {
      trees := [];
      this.numTrees := numTrees;
      this.depthLimit := depthLimit;
      this.exampleRate := exampleRate;
      this.attrRate := attrRate;
      featureList := [];
    }

    /** The fitted roots of the first `numTrees` trees. */
    function Roots(): (roots: seq<Node>)
      reads this, trees
      requires numTrees <= |trees|
      requires forall i :: 0 <= i < numTrees ==> trees[i].root.Some?
      ensures |roots| == numTrees
      ensures forall i :: 0 <= i < numTrees ==> roots[i] == trees[i].root.value
    {
      seq(numTrees, i requires 0 <= i < numTrees <= |trees| && trees[i].root.Some? reads this, trees => trees[i].root.value)
    }

    /**
     * `fit`: for each of `numTrees` rounds, takes the round's draw of rows and
     * of columns, records the columns and appends a tree of the forest's depth
     * limit fitted on that sample. Earlier trees and columns are kept.
     */
    method Fit(features: seq<seq<real>>, classes: seq<int>, width: nat,
               rowDraws: seq<seq<nat>>, colDraws: seq<seq<nat>>)
      requires Input(features, classes, width)
      requires |rowDraws| >= numTrees && |colDraws| >= numTrees
      requires SampleSize(exampleRate, |classes|) >= 2 && width >= 2
      requires forall t :: 0 <= t < numTrees ==>
        |rowDraws[t]| == SampleSize(exampleRate, |classes|) && RowDraw(rowDraws[t], |classes|)
      requires forall t :: 0 <= t < numTrees ==>
        |colDraws[t]| == SampleSize(attrRate, width) && ColumnDraw(colDraws[t], width)
      modifies this
      ensures numTrees == old(numTrees) && depthLimit == old(depthLimit)
      ensures exampleRate == old(exampleRate) && attrRate == old(attrRate)
      ensures featureList == old(featureList) + colDraws[..numTrees]
      ensures |trees| == |old(trees)| + numTrees && trees[..|old(trees)|] == old(trees)
      ensures forall j :: |old(trees)| <= j < |trees| ==>
        && fresh(trees[j])
        && trees[j].depthLimit == depthLimit
        && trees[j].root == Some(FittedTree(features, classes, width,
                                            rowDraws[j - |old(trees)|], colDraws[j - |old(trees)|], depthLimit))
    {
      var before := |trees|;
      for t := 0 to numTrees
        invariant numTrees == old(numTrees) && depthLimit == old(depthLimit)
        invariant exampleRate == old(exampleRate) && attrRate == old(attrRate)
        invariant featureList == old(featureList) + colDraws[..t]
        invariant |trees| == before + t && trees[..before] == old(trees)
        invariant forall j :: before <= j < |trees| ==>
          && fresh(trees[j])
          && trees[j].depthLimit == depthLimit
          && trees[j].root == Some(FittedTree(features, classes, width, rowDraws[j - before], colDraws[j - before], depthLimit))
      {
        var cols := colDraws[t];
        assert colDraws[..t + 1] == colDraws[..t] + [cols];
        featureList := featureList + [cols];
        var tree := FitOne(features, classes, width, rowDraws[t], cols);
        trees := trees + [tree];
      }
    }

    /** One round of `fit`: a new tree of the forest's depth limit, fitted on one bootstrap sample. */
    method FitOne(features: seq<seq<real>>, classes: seq<int>, width: nat, rows: seq<nat>, cols: seq<nat>)
      returns (tree: DecisionTree)
      requires Input(features, classes, width) && |rows| > 0
      requires RowDraw(rows, |classes|) && ColumnDraw(cols, width)
      ensures fresh(tree) && tree.depthLimit == depthLimit
      ensures tree.root == Some(FittedTree(features, classes, width, rows, cols, depthLimit))
    {
      SampleInput(features, classes, width, rows, cols);
      tree := new DecisionTree(depthLimit);
      tree.Fit(SampleRows(features, rows, cols), SampleClasses(classes, rows), |cols|);
    }

    /**
     * `classify`: every one of the first `numTrees` trees labels every row
     * on its own columns; a row is predicted 1 (`True`) when the mean of its
     * labels exceeds 0.5.
     */
    method Classify(features: seq<seq<real>>) returns (predictions: seq<bool>)
      requires 1 <= numTrees <= |trees| && numTrees <= |featureList|
      requires forall i :: 0 <= i < numTrees ==> trees[i].root.Some?
      requires forall r, i :: 0 <= r < |features| && 0 <= i < numTrees ==>
        Selects(features[r], featureList[i]) && Defined(trees[i].root.value, Project(features[r], featureList[i]))
      ensures |predictions| == |features|
      ensures forall r :: 0 <= r < |features| ==>
        predictions[r] == Vote(TreeVotes(Roots(), featureList[..numTrees], features[r]))
    {
      var columns: seq<seq<int>> := [];
      for i := 0 to numTrees
        invariant |columns| == i
        invariant forall j :: 0 <= j < i ==> |columns[j]| == |features|
        invariant forall j, r :: 0 <= j < i && 0 <= r < |features| ==>
          columns[j][r] == Decide(trees[j].root.value, Project(features[r], featureList[j]))
      {
        var labels := trees[i].Classify(ProjectAll(features, featureList[i]));
        columns := columns + [labels];
      }
      predictions := [];
      for r := 0 to |features|
        invariant |predictions| == r
        invariant forall q :: 0 <= q < r ==>
          predictions[q] == Vote(TreeVotes(Roots(), featureList[..numTrees], features[q]))
      {
        var votes := RowOf(columns, r);
        assert votes == TreeVotes(Roots(), featureList[..numTrees], features[r]);
        var total := 0;
        for i := 0 to numTrees
          invariant total == Sum(votes[..i])
        {
          assert votes[..i + 1][..i] == votes[..i];
          total := total + columns[i][r];
        }
        assert votes[..numTrees] == votes;
        predictions := predictions + [(total as real) / (numTrees as real) > 0.5];
      }
    }
  }
}
