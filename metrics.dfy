/**
 * Evaluation metrics over a classifier output and the true labels:
 * the confusion matrix, precision, recall and accuracy. Each is the
 * source's mask-and-count expression over two equal-length label vectors.
 */
module Metrics {
  import opened LabelCounts
  import ArrayOps

  /** The true labels at the positions where the output agrees with them, in order. */
  function Agreeing(output: seq<int>, truth: seq<int>): (r: seq<int>)
    requires |output| == |truth|
  {
    if |truth| == 0 then []
    else
      var n := |truth| - 1;
      Agreeing(output[..n], truth[..n]) + (if output[n] == truth[n] then [truth[n]] else [])
  }

  /** The true labels at the positions where the output differs from them, in order. */
  function Disagreeing(output: seq<int>, truth: seq<int>): (r: seq<int>)
    requires |output| == |truth|
  {
    if |truth| == 0 then []
    else
      var n := |truth| - 1;
      Disagreeing(output[..n], truth[..n]) + (if output[n] != truth[n] then [truth[n]] else [])
  }

  function TruePositives(output: seq<int>, truth: seq<int>): nat
    requires |output| == |truth|
  {
    Count(Agreeing(output, truth), 1)
  }

  function TrueNegatives(output: seq<int>, truth: seq<int>): nat
    requires |output| == |truth|
  {
    Count(Agreeing(output, truth), 0)
  }

  function FalseNegatives(output: seq<int>, truth: seq<int>): nat
    requires |output| == |truth|
  {
    Count(Disagreeing(output, truth), 1)
  }

  function FalsePositives(output: seq<int>, truth: seq<int>): nat
    requires |output| == |truth|
  {
    Count(Disagreeing(output, truth), 0)
  }

  /**
   * Reference definition of a confusion-matrix cell: the number of positions
   * where the output is `predicted` and the true label is `actual`.
   */
  function Tally(output: seq<int>, truth: seq<int>, predicted: int, actual: int): nat
    requires |output| == |truth|
  {
    if |truth| == 0 then 0
    else
      var n := |truth| - 1;
      Tally(output[..n], truth[..n], predicted, actual)
        + (if output[n] == predicted && truth[n] == actual then 1 else 0)
  }

  /** Number of positions where output and truth agree (`np.sum(output == truth)`). */
  function Matches(output: seq<int>, truth: seq<int>): nat
    requires |output| == |truth|
  {
    if |truth| == 0 then 0
    else
      var n := |truth| - 1;
      Matches(output[..n], truth[..n]) + (if output[n] == truth[n] then 1 else 0)
  }

  /** `[[TP, FN], [FP, TN]]`, as floats. */
  function ConfusionMatrix(output: seq<int>, truth: seq<int>): (m: seq<seq<real>>)
    requires |output| == |truth|
    ensures |m| == 2 && |m[0]| == 2 && |m[1]| == 2
    ensures m[0][0] + m[0][1] == Count(truth, 1) as real
    ensures m[1][0] + m[1][1] == Count(truth, 0) as real
  {
    RowSums(output, truth);
    [[TruePositives(output, truth) as real, FalseNegatives(output, truth) as real],
     [FalsePositives(output, truth) as real, TrueNegatives(output, truth) as real]]
  }

  /** TP / (TP + FP); the source does not guard the division. */
  function Precision(output: seq<int>, truth: seq<int>): (p: real)
    requires |output| == |truth|
    requires TruePositives(output, truth) + FalsePositives(output, truth) > 0
    ensures 0.0 <= p <= 1.0
    ensures p == 1.0 <==> FalsePositives(output, truth) == 0
  {
    Ratio(TruePositives(output, truth), FalsePositives(output, truth))
  }

  /** TP / (TP + FN); the source does not guard the division. */
  function Recall(output: seq<int>, truth: seq<int>): (r: real)
    requires |output| == |truth|
    requires TruePositives(output, truth) + FalseNegatives(output, truth) > 0
    ensures 0.0 <= r <= 1.0
    ensures r == 1.0 <==> FalseNegatives(output, truth) == 0
  {
    Ratio(TruePositives(output, truth), FalseNegatives(output, truth))
  }

  /** Correct classifications over the number of examples. */
  function Accuracy(output: seq<int>, truth: seq<int>): (a: real)
    requires |output| == |truth| && |truth| > 0
    ensures 0.0 <= a <= 1.0
  {
    MatchesBounded(output, truth);
    Matches(output, truth) as real / |truth| as real
  }

  /** `good / (good + bad)`, a fraction in [0, 1] that is 1 exactly when `bad` is 0. */
  function Ratio(good: nat, bad: nat): (q: real)
    requires good + bad > 0
    ensures 0.0 <= q <= 1.0
    ensures q == 1.0 <==> bad == 0
  {
    var d := (good + bad) as real;
    assert good as real <= d;
    assert good as real / d == 1.0 ==> good as real == d;
    good as real / d
  }

  lemma {:induction false} MatchesBounded(output: seq<int>, truth: seq<int>)
    requires |output| == |truth|
    ensures Matches(output, truth) <= |truth|
  {
    if |truth| > 0 {
      MatchesBounded(output[..|truth| - 1], truth[..|truth| - 1]);
    }
  }

  /** One step of the agreeing and disagreeing lists, as multisets. */
  lemma PartitionLast(output: seq<int>, truth: seq<int>)
    requires |output| == |truth| > 0
    ensures var n := |truth| - 1;
      && multiset(Agreeing(output, truth))
         == multiset(Agreeing(output[..n], truth[..n])) + (if output[n] == truth[n] then multiset{truth[n]} else multiset{})
      && multiset(Disagreeing(output, truth))
         == multiset(Disagreeing(output[..n], truth[..n])) + (if output[n] != truth[n] then multiset{truth[n]} else multiset{})
  {
  }

  /** The agreeing and disagreeing lists together hold every true label once. */
  lemma {:induction false} PartitionLabels(output: seq<int>, truth: seq<int>)
    requires |output| == |truth|
    ensures multiset(Agreeing(output, truth)) + multiset(Disagreeing(output, truth)) == multiset(truth)
  {
    if |truth| > 0 {
      var n := |truth| - 1;
      PartitionLabels(output[..n], truth[..n]);
      PartitionLast(output, truth);
      ArrayOps.MultisetLast(truth);
    }
  }

  /** The two partitions of the true labels together count every true label once. */
  lemma PartitionCounts(output: seq<int>, truth: seq<int>, v: int)
    requires |output| == |truth|
    ensures Count(Agreeing(output, truth), v) + Count(Disagreeing(output, truth), v) == Count(truth, v)
  {
    PartitionLabels(output, truth);
  }

  /** Each row of the matrix adds up to the number of examples of that true class. */
  lemma RowSums(output: seq<int>, truth: seq<int>)
    requires |output| == |truth|
    ensures TruePositives(output, truth) + FalseNegatives(output, truth) == Count(truth, 1)
    ensures FalsePositives(output, truth) + TrueNegatives(output, truth) == Count(truth, 0)
  {
    PartitionCounts(output, truth, 1);
    PartitionCounts(output, truth, 0);
  }

  /** One step of the agreeing/disagreeing counts, split by the last position. */
  lemma CountsStep(output: seq<int>, truth: seq<int>, v: int)
    requires |output| == |truth| > 0
    ensures var n := |truth| - 1;
      && Count(Agreeing(output, truth), v)
         == Count(Agreeing(output[..n], truth[..n]), v) + (if output[n] == truth[n] && truth[n] == v then 1 else 0)
      && Count(Disagreeing(output, truth), v)
         == Count(Disagreeing(output[..n], truth[..n]), v) + (if output[n] != truth[n] && truth[n] == v then 1 else 0)
  {
    var n := |truth| - 1;
    CountAppend(Agreeing(output[..n], truth[..n]), if output[n] == truth[n] then [truth[n]] else [], v);
    CountAppend(Disagreeing(output[..n], truth[..n]), if output[n] != truth[n] then [truth[n]] else [], v);
  }

  /**
   * For 0/1 labels the matrix is `[[TP, FN], [FP, TN]]` in the usual sense:
   * row = true class (1 first), column = predicted class (1 first).
   */
  lemma {:induction false} ConfusionMatrixCells(output: seq<int>, truth: seq<int>)
    requires |output| == |truth| && Binary(output) && Binary(truth)
    ensures TruePositives(output, truth) == Tally(output, truth, 1, 1)
    ensures FalseNegatives(output, truth) == Tally(output, truth, 0, 1)
    ensures FalsePositives(output, truth) == Tally(output, truth, 1, 0)
    ensures TrueNegatives(output, truth) == Tally(output, truth, 0, 0)
  {
    if |truth| > 0 {
      var n := |truth| - 1;
      ConfusionMatrixCells(output[..n], truth[..n]);
      CountsStep(output, truth, 1);
      CountsStep(output, truth, 0);
    }
  }

  /** For 0/1 true labels the four cells add up to the number of examples. */
  lemma ConfusionMatrixTotal(output: seq<int>, truth: seq<int>)
    requires |output| == |truth| && Binary(truth)
    ensures var m := ConfusionMatrix(output, truth);
      m[0][0] + m[0][1] + m[1][0] + m[1][1] == |truth| as real
  {
    BinaryCounts(truth);
  }

  /** Agreements are the true positives plus the true negatives, for 0/1 true labels. */
  lemma {:induction false} MatchesAreDiagonal(output: seq<int>, truth: seq<int>)
    requires |output| == |truth| && Binary(truth)
    ensures Matches(output, truth) == TruePositives(output, truth) + TrueNegatives(output, truth)
  {
    if |truth| > 0 {
      var n := |truth| - 1;
      MatchesAreDiagonal(output[..n], truth[..n]);
      CountsStep(output, truth, 1);
      CountsStep(output, truth, 0);
    }
  }

  /** accuracy = (TP + TN) / n for 0/1 true labels. */
  lemma AccuracyFromMatrix(output: seq<int>, truth: seq<int>)
    requires |output| == |truth| && |truth| > 0 && Binary(truth)
    ensures var m := ConfusionMatrix(output, truth);
      Accuracy(output, truth) == (m[0][0] + m[1][1]) / |truth| as real
  {
    MatchesAreDiagonal(output, truth);
  }

  lemma {:induction false} MatchesSelf(labels: seq<int>)
    ensures Matches(labels, labels) == |labels|
  {
    if |labels| > 0 {
      MatchesSelf(labels[..|labels| - 1]);
    }
  }

  /** A classifier agreeing with itself has accuracy 1. */
  lemma AccuracySelf(labels: seq<int>)
    requires |labels| > 0
    ensures Accuracy(labels, labels) == 1.0
  {
    MatchesSelf(labels);
  }

  /** The partitions of the worked example's true labels. */
  lemma WorkedExamplePartitions()
    ensures Agreeing([1, 1, 0, 0], [1, 0, 0, 1]) == [1, 0]
    ensures Disagreeing([1, 1, 0, 0], [1, 0, 0, 1]) == [0, 1]
    ensures Matches([1, 1, 0, 0], [1, 0, 0, 1]) == 2
  {
    var o, t := [1, 1, 0, 0], [1, 0, 0, 1];
    assert o[..3] == [1, 1, 0] && t[..3] == [1, 0, 0];
    assert [1, 1, 0][..2] == [1, 1] && [1, 0, 0][..2] == [1, 0];
    assert [1, 1][..1] == [1] && [1, 0][..1] == [1];
    assert Agreeing([1, 1], [1, 0]) == [1] && Disagreeing([1, 1], [1, 0]) == [0];
    assert Matches([1, 1], [1, 0]) == 1;
  }

  /** The four cells of the worked example. */
  lemma WorkedExampleCells()
    ensures TruePositives([1, 1, 0, 0], [1, 0, 0, 1]) == 1 && TrueNegatives([1, 1, 0, 0], [1, 0, 0, 1]) == 1
    ensures FalsePositives([1, 1, 0, 0], [1, 0, 0, 1]) == 1 && FalseNegatives([1, 1, 0, 0], [1, 0, 0, 1]) == 1
  {
    WorkedExamplePartitions();
    assert multiset([1, 0]) == multiset{0, 1} && multiset([0, 1]) == multiset{0, 1};
  }

  /** The worked example: output [1,1,0,0] against truth [1,0,0,1]. */
  lemma WorkedExample()
    ensures ConfusionMatrix([1, 1, 0, 0], [1, 0, 0, 1]) == [[1.0, 1.0], [1.0, 1.0]]
  {
    WorkedExampleCells();
  }

  /** The worked example's precision, recall and accuracy are all one half. */
  lemma WorkedExampleScores()
    ensures var output, truth := [1, 1, 0, 0], [1, 0, 0, 1];
      && TruePositives(output, truth) + FalsePositives(output, truth) > 0
      && TruePositives(output, truth) + FalseNegatives(output, truth) > 0
      && Precision(output, truth) == 0.5 && Recall(output, truth) == 0.5 && Accuracy(output, truth) == 0.5
  {
    WorkedExamplePartitions();
    WorkedExampleCells();
  }
}
