/**
 * `DecisionTree`: the recursive tree builder `__build_tree__`, `fit` and
 * `classify`. The specification function `Build` states the tree the builder
 * returns; the class's methods are proved to compute it.
 */
module DecisionTrees {
  import opened Wrappers
  import opened LabelCounts
  import opened Impurity
  import opened ArrayOps
  import opened DecisionNodes
  import opened SplitSearch

  /** `depth_limit`: `float('inf')` by default, otherwise a bound on the depth. */
  datatype DepthLimit = Unlimited | Limited(limit: int)

  /** `depth >= self.depth_limit`. */
  predicate Reached(depth: nat, lim: DepthLimit)
  {
    lim.Limited? && depth >= lim.limit
  }

  /** `len(set(classes)) == 1` for a non-empty vector. */
  predicate Uniform(classes: seq<int>)
    requires |classes| > 0
  {
    forall a :: 0 <= a < |classes| ==> classes[a] == classes[0]
  }

  /** The leaf label at the depth limit: 1 when strictly more 1s than 0s, otherwise 0. */
  function Majority(classes: seq<int>): int
  {
    if Count(classes, 1) > Count(classes, 0) then 1 else 0
  }

  /** The preconditions of a call of `__build_tree__`: rows, an `m x width` matrix, 0/1 labels. */
  predicate Input(features: seq<seq<real>>, classes: seq<int>, width: nat)
  {
    |features| == |classes| > 0 && Rect(features, width) && Binary(classes)
  }

  /**
   * The tree `__build_tree__(features, classes, depth)` returns: a leaf for a
   * single row, for uniform labels, at the depth limit (the majority label),
   * and when no split has positive gain; otherwise an internal node testing
   * `f[feat] <= thr` over the two sub-trees of the rows on either side.
   */
  function Build(features: seq<seq<real>>, classes: seq<int>, width: nat, depth: nat, lim: DepthLimit): Node
    requires Input(features, classes, width)
    decreases |classes|
  {
    if |features| <= 1 || Uniform(classes) then Leaf(classes[0])
    else if Reached(depth, lim) then Leaf(Majority(classes))
    else
      var c := BestSplit(features, classes, width);
      BestGiniZero(FeatureBests(features, classes, width), width);
      if BestGini(c) == 0.0 then Leaf(classes[0])
      else
        BestSplitInside(features, classes, width);
        var lk, rk := LeftMask(features, c.feat, c.thr), RightMask(features, c.feat, c.thr);
        SplitShrinks(features, classes, width, c.feat, c.thr);
        Split(Le(c.feat, c.thr),
          Build(Select(features, lk), Select(classes, lk), width, depth + 1, lim),
          Build(Select(features, rk), Select(classes, rk), width, depth + 1, lim))
  }

  // ---------------------------------------------------------------------
  // Selection keeps the inputs well formed.

  /** Selected rows all have width `width`. */
  lemma SelectRect(m: seq<seq<real>>, keep: seq<bool>, width: nat)
    requires |keep| == |m| && Rect(m, width)
    ensures Rect(Select(m, keep), width)
  {
    var s := Select(m, keep);
    forall r | 0 <= r < |s|
      ensures |s[r]| == width
    {
      SelectFrom(m, keep, s[r]);
    }
  }

  /** Selected labels are still 0/1. */
  lemma SelectBinary(c: seq<int>, keep: seq<bool>)
    requires |keep| == |c| && Binary(c)
    ensures Binary(Select(c, keep))
  {
    var s := Select(c, keep);
    forall r | 0 <= r < |s|
      ensures s[r] == 0 || s[r] == 1
    {
      SelectFrom(c, keep, s[r]);
    }
  }

  /**
   * A threshold strictly inside a feature's range sends at least one row to
   * each side, so both sides are well-formed inputs with fewer rows; the two
   * sides together hold every label.
   */
  lemma SplitShrinks(features: seq<seq<real>>, classes: seq<int>, width: nat, feat: nat, thr: real)
    requires Input(features, classes, width) && feat < width
    requires Min(Column(features, feat)) < thr < Max(Column(features, feat))
    ensures var lk, rk := LeftMask(features, feat, thr), RightMask(features, feat, thr);
      && Input(Select(features, lk), Select(classes, lk), width) && |Select(classes, lk)| < |classes|
      && Input(Select(features, rk), Select(classes, rk), width) && |Select(classes, rk)| < |classes|
      && multiset(Select(classes, lk)) + multiset(Select(classes, rk)) == multiset(classes)
  {
    var col := Column(features, feat);
    var lk, rk := LeftMask(features, feat, thr), RightMask(features, feat, thr);
    var lo :| 0 <= lo < |col| && col[lo] == Min(col);
    var hi :| 0 <= hi < |col| && col[hi] == Max(col);
    SelectNonEmpty(classes, lk, lo);
    SelectNonEmpty(classes, rk, hi);
    AboveIsNegation(col, thr);
    SelectPartition(classes, lk);
    SelectSizes(classes, lk);
    SelectLength(features, classes, lk);
    SelectLength(features, classes, rk);
    SelectRect(features, lk, width);
    SelectRect(features, rk, width);
    SelectBinary(classes, lk);
    SelectBinary(classes, rk);
  }

  // ---------------------------------------------------------------------
  // Properties of the built tree.

  /** A single row, or uniform labels, give a single leaf carrying the first label, at any depth. */
  lemma BuildUniform(features: seq<seq<real>>, classes: seq<int>, width: nat, depth: nat, lim: DepthLimit)
    requires Input(features, classes, width) && (|features| <= 1 || Uniform(classes))
    ensures Build(features, classes, width, depth, lim) == Leaf(classes[0])
  {
  }

  /**
   * At the depth limit the leaf is the strict majority label: 1 when more
   * than half of the labels are 1, and 0 on a tie.
   */
  lemma BuildAtDepthLimit(features: seq<seq<real>>, classes: seq<int>, width: nat, depth: nat, lim: DepthLimit)
    requires Input(features, classes, width) && |features| > 1 && !Uniform(classes) && Reached(depth, lim)
    ensures Build(features, classes, width, depth, lim) == Leaf(1) <==> 2 * Count(classes, 1) > |classes|
    ensures Build(features, classes, width, depth, lim) == Leaf(0) <==> 2 * Count(classes, 1) <= |classes|
  {
    BinaryCounts(classes);
  }

  /**
   * Past the first three stopping rules, the builder returns a leaf exactly
   * when no feature has a candidate threshold with a positive gain, and that
   * leaf carries the first label.
   */
  lemma BuildLeafWithoutGain(features: seq<seq<real>>, classes: seq<int>, width: nat, depth: nat, lim: DepthLimit)
    requires Input(features, classes, width) && |features| > 1 && !Uniform(classes) && !Reached(depth, lim)
    ensures Build(features, classes, width, depth, lim).Leaf? <==>
      forall j {:trigger FeatureBest(features, classes, j)} :: 0 <= j < width && FeatureBest(features, classes, j).Some? ==>
        FeatureBest(features, classes, j).value.gain <= 0.0
    ensures Build(features, classes, width, depth, lim) == Leaf(classes[0]) <==>
      forall j {:trigger FeatureBest(features, classes, j)} :: 0 <= j < width && FeatureBest(features, classes, j).Some? ==>
        FeatureBest(features, classes, j).value.gain <= 0.0
  {
    var bests := FeatureBests(features, classes, width);
    BestGiniZero(bests, width);
    NoSplitIff(bests, width);
    FeatureBestsListed(features, classes, width);
  }

  /** With both labels present, the majority label is one of them. */
  lemma MajorityPresent(classes: seq<int>)
    requires |classes| > 0 && Binary(classes) && !Uniform(classes)
    ensures Majority(classes) in classes
  {
    var a :| 0 <= a < |classes| && classes[a] != classes[0];
    assert classes[0] in classes && classes[a] in classes;
  }

  /**
   * The two shapes of a built tree: a leaf carrying one of the training
   * labels, or a split on a feature of the matrix whose children are the
   * trees built one level deeper from the rows on either side. The node's
   * stored test holds for a training row exactly when the row went left; the
   * two sides are smaller well-formed inputs that together hold every label.
   */
  lemma BuildCases(features: seq<seq<real>>, classes: seq<int>, width: nat, depth: nat, lim: DepthLimit)
    returns (lk: seq<bool>, rk: seq<bool>)
    requires Input(features, classes, width)
    ensures var node := Build(features, classes, width, depth, lim);
      && (node.Leaf? ==> node.classLabel in classes)
      && (node.Split? ==>
        && |lk| == |rk| == |classes|
        && !Reached(depth, lim) && node.test.Le? && node.test.feat < width
        && lk == LeftMask(features, node.test.feat, node.test.thr)
        && rk == RightMask(features, node.test.feat, node.test.thr)
        && (forall r :: 0 <= r < |features| ==>
          && node.test.feat < |features[r]|
          && (Holds(node.test, features[r]) <==> lk[r])
          && (!Holds(node.test, features[r]) <==> rk[r]))
        && Input(Select(features, lk), Select(classes, lk), width) && |Select(classes, lk)| < |classes|
        && Input(Select(features, rk), Select(classes, rk), width) && |Select(classes, rk)| < |classes|
        && multiset(Select(classes, lk)) + multiset(Select(classes, rk)) == multiset(classes)
        && node.left == Build(Select(features, lk), Select(classes, lk), width, depth + 1, lim)
        && node.right == Build(Select(features, rk), Select(classes, rk), width, depth + 1, lim))
  {
    lk, rk := [], [];
    if |features| <= 1 || Uniform(classes) {
    } else if Reached(depth, lim) {
      MajorityPresent(classes);
    } else {
      var c := BestSplit(features, classes, width);
      BestGiniZero(FeatureBests(features, classes, width), width);
      if BestGini(c) != 0.0 {
        BestSplitInside(features, classes, width);
        lk, rk := LeftMask(features, c.feat, c.thr), RightMask(features, c.feat, c.thr);
        SplitShrinks(features, classes, width, c.feat, c.thr);
      }
    }
  }

  /** Values drawn from two parts of a vector are values of the vector. */
  lemma LabelsOfParts(ls: set<int>, rs: set<int>, left: seq<int>, right: seq<int>, classes: seq<int>)
    requires forall l :: l in ls ==> l in left
    requires forall l :: l in rs ==> l in right
    requires multiset(left) + multiset(right) == multiset(classes)
    ensures forall l :: l in ls + rs ==> l in classes
  {
    forall l | l in ls + rs
      ensures l in classes
    {
      if l in ls {
        assert l in multiset(left);
      } else {
        assert l in multiset(right);
      }
      assert l in multiset(classes);
    }
  }

  /** Every leaf label of the built tree is one of the training labels. */
  lemma {:induction false} BuildLabels(features: seq<seq<real>>, classes: seq<int>, width: nat, depth: nat, lim: DepthLimit)
    requires Input(features, classes, width)
    ensures forall l :: l in Labels(Build(features, classes, width, depth, lim)) ==> l in classes
    decreases |classes|
  {
    var node := Build(features, classes, width, depth, lim);
    var lk, rk := BuildCases(features, classes, width, depth, lim);
    if node.Split? {
      BuildLabels(Select(features, lk), Select(classes, lk), width, depth + 1, lim);
      BuildLabels(Select(features, rk), Select(classes, rk), width, depth + 1, lim);
      LabelsOfParts(Labels(node.left), Labels(node.right), Select(classes, lk), Select(classes, rk), classes);
    }
  }

  /** Every test of the built tree reads a feature below `width`, so classifying any row of that width is defined. */
  lemma {:induction false} BuildFits(features: seq<seq<real>>, classes: seq<int>, width: nat, depth: nat, lim: DepthLimit)
    requires Input(features, classes, width)
    ensures Fits(Build(features, classes, width, depth, lim), width)
    decreases |classes|
  {
    var lk, rk := BuildCases(features, classes, width, depth, lim);
    if Build(features, classes, width, depth, lim).Split? {
      BuildFits(Select(features, lk), Select(classes, lk), width, depth + 1, lim);
      BuildFits(Select(features, rk), Select(classes, rk), width, depth + 1, lim);
    }
  }

  /** A tree built from depth `depth` under limit `limit` is at most `limit - depth` splits high (a leaf once the limit is reached). */
  lemma {:induction false} BuildHeight(features: seq<seq<real>>, classes: seq<int>, width: nat, depth: nat, limit: int)
    requires Input(features, classes, width)
    ensures Height(Build(features, classes, width, depth, Limited(limit))) <= if depth >= limit then 0 else limit - depth
    decreases |classes|
  {
    var lim := Limited(limit);
    var lk, rk := BuildCases(features, classes, width, depth, lim);
    if Build(features, classes, width, depth, lim).Split? {
      BuildHeight(Select(features, lk), Select(classes, lk), width, depth + 1, limit);
      BuildHeight(Select(features, rk), Select(classes, rk), width, depth + 1, limit);
    }
  }

  /**
   * The chosen split separates the labels: both sides are non-empty and the
   * share of label 0 differs between them, since its Gini gain is positive.
   */
  lemma ChosenSplitSeparates(features: seq<seq<real>>, classes: seq<int>, width: nat)
    requires Input(features, classes, width)
    requires BestSplit(features, classes, width).Chosen?
    ensures var c := BestSplit(features, classes, width);
      c.feat < width &&
      var left := Select(classes, LeftMask(features, c.feat, c.thr));
      var right := Select(classes, RightMask(features, c.feat, c.thr));
      |left| > 0 && |right| > 0 && Fraction(left, 0) != Fraction(right, 0)
  {
    var c := BestSplit(features, classes, width);
    BestSplitInside(features, classes, width);
    BestSplitGain(features, classes, width);
    var lk, rk := LeftMask(features, c.feat, c.thr), RightMask(features, c.feat, c.thr);
    SplitShrinks(features, classes, width, c.feat, c.thr);
    var left, right := Select(classes, lk), Select(classes, rk);
    assert Children(features, classes, c.feat, c.thr) == [left, right];
    assert Count(left, 0) + Count(right, 0) == Count(classes, 0);
    GainOfPartitionNonNegative(classes, left, right);
  }

  /**
   * A split node at the root tests `f[feat] <= thr` for a feature of the
   * matrix and a threshold strictly inside that column's range, and the
   * share of label 0 differs between the rows it sends left and right.
   */
  lemma RootSplitSeparates(features: seq<seq<real>>, classes: seq<int>, width: nat, depth: nat, lim: DepthLimit)
    requires Input(features, classes, width)
    requires Build(features, classes, width, depth, lim).Split?
    ensures var node := Build(features, classes, width, depth, lim);
      && node.test.Le? && node.test.feat < width
      && Min(Column(features, node.test.feat)) < node.test.thr < Max(Column(features, node.test.feat))
      && var left := Select(classes, LeftMask(features, node.test.feat, node.test.thr));
      var right := Select(classes, RightMask(features, node.test.feat, node.test.thr));
      |left| > 0 && |right| > 0 && Fraction(left, 0) != Fraction(right, 0)
  {
    BestGiniZero(FeatureBests(features, classes, width), width);
    BestSplitInside(features, classes, width);
    ChosenSplitSeparates(features, classes, width);
  }

  // ---------------------------------------------------------------------
  // The class.

  class DecisionTree {
    /** The fitted tree; `None` until `Fit`. */
    var root: Option<Node>
    var depthLimit: DepthLimit

    /** A tree with no root yet. */
    constructor (depthLimit: DepthLimit)
      ensures root == None && this.depthLimit == depthLimit
    {
      root := None;
      this.depthLimit := depthLimit;
    }

    /** `fit`: builds the tree from depth 0 and stores it as the root. */
    method Fit(features: seq<seq<real>>, classes: seq<int>, width: nat)
      requires Input(features, classes, width)
      modifies this
      ensures root == Some(Build(features, classes, width, 0, depthLimit))
      ensures depthLimit == old(depthLimit)
    {
      var node := BuildTree(features, classes, width, 0);
      root := Some(node);
    }

    /** `__build_tree__`, recursively, with the split search of the source's loops. */
    method BuildTree(features: seq<seq<real>>, classes: seq<int>, width: nat, depth: nat) returns (node: Node)
      requires Input(features, classes, width)
      ensures node == Build(features, classes, width, depth, depthLimit)
      decreases |classes|
    {
      if |features| <= 1 || Uniform(classes) {
        return Leaf(classes[0]);
      }
      if Reached(depth, depthLimit) {
        if Count(classes, 1) > Count(classes, 0) {
          return Leaf(1);
        } else {
          return Leaf(0);
        }
      }
      FeatureBestsListed(features, classes, width);
      var c := ChooseSplit(features, classes, width, FeatureBests(features, classes, width));
      BestGiniZero(FeatureBests(features, classes, width), width);
      if BestGini(c) == 0.0 {
        return Leaf(classes[0]);
      }
      BestSplitInside(features, classes, width);
      var lk, rk := LeftMask(features, c.feat, c.thr), RightMask(features, c.feat, c.thr);
      SplitShrinks(features, classes, width, c.feat, c.thr);
      var left := BuildTree(Select(features, lk), Select(classes, lk), width, depth + 1);
      var right := BuildTree(Select(features, rk), Select(classes, rk), width, depth + 1);
      node := Split(Le(c.feat, c.thr), left, right);
    }

    /** `classify`: the fitted tree's label for every row, in order. */
    method Classify(features: seq<seq<real>>) returns (labels: seq<int>)
      requires root.Some?
      requires forall r :: 0 <= r < |features| ==> Defined(root.value, features[r])
      ensures |labels| == |features|
      ensures forall r :: 0 <= r < |features| ==> labels[r] == Decide(root.value, features[r])
    {
      labels := [];
      for r := 0 to |features|
        invariant |labels| == r
        invariant forall q :: 0 <= q < r ==> labels[q] == Decide(root.value, features[q])
      {
        labels := labels + [Decide(root.value, features[r])];
      }
    }
  }

  /** After `Fit`, classifying rows of the training width is defined and yields training labels. */
  lemma FittedClassifies(features: seq<seq<real>>, classes: seq<int>, width: nat, lim: DepthLimit, row: seq<real>)
    requires Input(features, classes, width) && |row| == width
    ensures var root := Build(features, classes, width, 0, lim);
      Defined(root, row) && Decide(root, row) in classes
  {
    var root := Build(features, classes, width, 0, lim);
    BuildFits(features, classes, width, 0, lim);
    FitsDefined(root, row);
    BuildLabels(features, classes, width, 0, lim);
  }
}
