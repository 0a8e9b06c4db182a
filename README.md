# Decision tree and random forest classifier, in Dafny

A model of `submission.py`: a binary decision-tree classifier with a bagged
random forest, Gini split scoring and confusion-matrix metrics, plus two of
its loop/array exercise pairs. Labels are integers (0 or 1 where the code
needs it), features are `real`, a feature matrix is a `seq<seq<real>>` of
rows of one width, and the constant `1e-8` is the exact real `0.00000001`.

| Dafny module | file | models |
|---|---|---|
| `LabelCounts` | label_counts.dfy | `np.sum(v == x)` counting, shared by every part |
| `Metrics` | metrics.dfy | `confusion_matrix`, `precision`, `recall`, `accuracy` |
| `Impurity` | impurity.dfy | `gini_impurity` and `gini_gain` (the accumulator loop as a method) |
| `DecisionNodes` | decision_nodes.dfy | `DecisionNode.decide` and the hand-built `build_decision_tree` |
| `ArrayOps` | array_ops.dfy | the numpy column, min/max and boolean-mask helpers |
| `SplitSearch` | split_search.dfy | the threshold and feature loops of `__build_tree__` |
| `DecisionTrees` | decision_trees.dfy | `__build_tree__` as the function `Build`, and the class `DecisionTree` |
| `RandomForests` | random_forests.dfy | the class `RandomForest`, with the random draws as parameters |
| `Vectorization` | vectorization.dfy | `non_vectorized_glue`/`vectorized_glue` and `non_vectorized_mask`/`vectorized_mask` |

The pure parts of the source are functions: decide, the metrics, the impurity,
and the numpy one-liners. Each imperative part is a method proved against a
specification function, and the specification functions' properties are
lemmas:
- `GiniGain`'s loop is proved against `Gain`.
- The threshold scan `ScanFeature` is proved against `FeatureBest`.
- The feature loop `ChooseSplit` is proved against `BestSplit`.
- The recursive method `DecisionTree.BuildTree` is proved against `Build`.
- `DecisionTree.Classify` and the loops of `RandomForest` are proved against `Decide` and `Vote`.
- The glue and mask loops fill fresh `array2`s and are proved equal to the vectorized versions.

The first-seen tie-breaks of the two scans are proved exactly: strict `>` per
threshold and strict `<` per feature. So are `bestgini == 0.0` and the
`<=`/`>` partition: both sides are non-empty and together they hold every
row. The model also proves that a chosen split separates the label shares.

Notes on the source:
- The sample sizes are `int(rate * n)`, which truncates toward zero.
- The scan tests the 399 inner points of a 400-step grid.
- The hand-built tree sends `f[0] == 0` left, so a vector whose first feature is not 0 is class 1.

## Model

| member | source | states |
|---|---|---|
| `Metrics.ConfusionMatrix` | submission.py:129-137 | the matrix is 2x2; row 0 (TP, FN) adds up to the number of true 1s, row 1 (FP, TN) to the number of true 0s |
| `Metrics.PartitionLabels` | submission.py:131-132 | the agreeing and disagreeing label lists together hold every true label exactly once (as multisets) |
| `Metrics.PartitionCounts` | submission.py:131-137 | for every label value, its count among the agreeing labels plus its count among the disagreeing labels is its count among the true labels |
| `Metrics.RowSums` | submission.py:133-137 | TP + FN = count of true 1s and FP + TN = count of true 0s |
| `Metrics.ConfusionMatrixCells` | submission.py:129-137 | for 0/1 labels each cell equals an independent tally of (predicted, actual) pairs: TP = (1,1), FN = (0,1), FP = (1,0), TN = (0,0) |
| `Metrics.ConfusionMatrixTotal` | submission.py:133-137 | for 0/1 true labels the four cells add up to n |
| `Metrics.Precision` | submission.py:152-160 | TP/(TP+FP) lies in [0, 1] and is 1 exactly when there are no false positives; the unguarded division is a precondition |
| `Metrics.Recall` | submission.py:174-183 | TP/(TP+FN) lies in [0, 1] and is 1 exactly when there are no false negatives; the unguarded division is a precondition |
| `Metrics.Accuracy` | submission.py:196-200 | matches over n lies in [0, 1] |
| `Metrics.AccuracyFromMatrix` | submission.py:196-199 | for 0/1 true labels accuracy = (TP + TN)/n, read off the confusion matrix |
| `Metrics.AccuracySelf` | submission.py:196-199 | a prediction equal to the truth has accuracy 1 |
| `Metrics.WorkedExample` | submission.py:129-137 | output [1,1,0,0] against truth [1,0,0,1] gives the matrix [[1,1],[1,1]] |
| `Metrics.WorkedExampleScores` | submission.py:152-199 | the same pair has non-zero denominators and precision 0.5, recall 0.5, accuracy 0.5 |
| `Impurity.GiniImpurity` | submission.py:203-223 | 1 - p0² - p1² + 1e-8 for a non-empty vector, 0.0 for an empty one; its range and extremes are stated by `GiniBounds`, `GiniPure`, `GiniBalanced` and `RawGiniIsDisagreement` |
| `Impurity.Gain` | submission.py:228-245 | the parent's impurity minus each child's impurity times its size over the parent's size; the specification of `GiniGain`, with properties in `GainOfWholeIsZero`, `GainConstantsCancel` and `GainOfPartitionNonNegative` |
| `Impurity.GiniGain` | submission.py:238-245 | the accumulator loop returns parent impurity minus each child's impurity weighted by its size over the parent's |
| `Impurity.FractionsSum` | submission.py:218-219 | for 0/1 labels the shares of 0 and of 1 add up to 1 |
| `Impurity.RawGiniIsDisagreement` | submission.py:216-220 | for 0/1 labels the impurity is 2·p0·p1 + 1e-8 |
| `Impurity.GiniBounds` | submission.py:216-223 | 0 for an empty vector; otherwise between 1e-8 and 0.5 + 1e-8 |
| `Impurity.GiniPure` | submission.py:209-220 | a one-class vector has the minimum impurity 1e-8 |
| `Impurity.GiniBalanced` | submission.py:216-220 | a vector with as many 0s as 1s has the maximum impurity 0.5 + 1e-8 |
| `Impurity.GainOfWholeIsZero` | submission.py:238-245 | `gini_gain(L, [L])` is 0 |
| `Impurity.GainConstantsCancel` | submission.py:238-245 | for a split into two non-empty parts the 1e-8 terms cancel: the gain is computed from the impurities without the constant |
| `Impurity.GainOfPartitionNonNegative` | submission.py:238-245 | a two-way partition of 0/1 labels has gain >= 0, and gain 0 exactly when both sides have the same share of 0s |
| `DecisionNodes.Decide` | submission.py:43-50 | the label returned is the label of one of the tree's leaves |
| `DecisionNodes.FitsDefined` | submission.py:43-50 | a tree whose tests read features below the vector's length never indexes out of range |
| `DecisionNodes.BuildDecisionTree` | submission.py:82-104 | the hand-built tree reads features 0-3 only, is three tests deep and has the leaves 0 and 1 |
| `DecisionNodes.HandBuiltLeftTable` | submission.py:93-102 | the subtree under `f[0] == 0` gives 0 exactly when (`f[3] == 0` and `f[2] == 1`) or (`f[3] != 0` and `f[1] == 1`) |
| `DecisionNodes.HandBuiltFirstFeature` | submission.py:90-92 | `f[0] != 0` gives 1 |
| `DecisionNodes.HandBuiltThirdFeature` | submission.py:93-102 | `f[0] == 0`, `f[3] == 0`, `f[2] == 1` gives 0 |
| `DecisionNodes.HandBuiltSecondFeature` | submission.py:93-102 | `f[0] == 0`, `f[3] != 0`, `f[1] == 1` gives 0 |
| `DecisionNodes.HandBuiltTable` | submission.py:82-104 | for every four-feature vector: 0 exactly in the two cases above, 1 in every other case |
| `ArrayOps.Min` | submission.py:302 | `min(features[:, i])`: a value of the column that is at most every value |
| `ArrayOps.Max` | submission.py:302 | `max(features[:, i])`: a value of the column that is at least every value |
| `ArrayOps.SelectPartition` | submission.py:332-335 | a mask and its negation split a vector into two parts whose multisets add up to the whole |
| `ArrayOps.SelectSizes` | submission.py:332-335 | the two parts' lengths add up to the vector's length |
| `ArrayOps.AboveIsNegation` | submission.py:332-335 | the `> thr` mask is the negation of the `<= thr` mask |
| `SplitSearch.ScanAmong` | submission.py:306-320 | the threshold loop over the first k gains: a candidate replaces the held one only when its gain is strictly greater; properties in `ScanOptimal`, `ScanFirstSeen` and `ScanBest` |
| `SplitSearch.FeatureBest` | submission.py:302-320 | one feature's best candidate over its 399 thresholds, none for a constant column; properties in `FeatureBestInside` and `FeatureBestOptimal` |
| `SplitSearch.ChooseAmong` | submission.py:301-325 | the feature loop over the first i features: starting from gain 0.0, a feature replaces the held choice only when its best gain is strictly greater; properties in `ChoiceGainPositive`, `ChoiceOptimal`, `BestGiniZero` and `NoSplitIff` |
| `SplitSearch.BestSplit` | submission.py:301-325 | the choice over all features' best candidates; properties in `BestSplitInside` and `BestSplitGain` |
| `SplitSearch.SplitMarks` | submission.py:308-313 | `splitdis` is a fresh array holding 1 for rows above the threshold and 0 for the others |
| `SplitSearch.MarksSides` | submission.py:315-316 | rows marked 0 are exactly those `<= thr`, rows marked 1 exactly those `> thr` |
| `SplitSearch.CandidateGainAt` | submission.py:308-316 | the gain of one threshold is the Gini gain of the `<=`/`>` partition |
| `SplitSearch.ThresholdInside` | submission.py:302-306 | every candidate `min + k·step`, k = 1..399, lies strictly between the column's min and max |
| `SplitSearch.ScanOptimal` | submission.py:317-320 | after k > 0 candidates the scan holds a candidate whose gain is at least every gain seen |
| `SplitSearch.ScanFirstSeen` | submission.py:317-320 | the scan holds the j-th candidate and every earlier gain is strictly smaller (first seen wins ties) |
| `SplitSearch.ThresholdGain` | submission.py:307-316 | the marks-and-gain step for the k-th threshold returns that threshold's gain |
| `SplitSearch.ScanThresholds` | submission.py:306-320 | the threshold loop keeps the first candidate with the largest gain among the 399 |
| `SplitSearch.ScanBest` | submission.py:317-320 | after k > 0 candidates the scan holds the j-th candidate: its gain is at least every gain seen, and every earlier gain is strictly smaller |
| `SplitSearch.ScanFeature` | submission.py:302-320 | the threshold loop of one feature returns that feature's best candidate |
| `SplitSearch.FeatureBestInside` | submission.py:302-320 | a feature's best threshold is one of the candidates, strictly inside the column's range, with that threshold's gain |
| `SplitSearch.FeatureBestOptimal` | submission.py:302-320 | a feature's best gain is the largest of its 399 candidates' gains, and every earlier candidate's is strictly smaller |
| `SplitSearch.ChooseSplit` | submission.py:301-325 | the feature loop returns the first-seen choice among the features' best candidates |
| `SplitSearch.ChoiceGainPositive` | submission.py:321-325 | a chosen split has positive gain and is its feature's best candidate |
| `SplitSearch.BestGiniZero` | submission.py:321-329 | `bestgini == 0.0` after the loop exactly when no feature was chosen |
| `SplitSearch.ChoiceOptimal` | submission.py:321-325 | no feature's best gain exceeds the chosen one, and every earlier feature's is strictly smaller (first feature wins ties) |
| `SplitSearch.NoSplitIff` | submission.py:321-329 | no split is chosen exactly when no feature has a candidate with positive gain |
| `SplitSearch.BestSplitInside` | submission.py:301-325 | the chosen feature is a column of the matrix, its gain is positive and `min < thr < max` for that column |
| `SplitSearch.BestSplitGain` | submission.py:315-324 | the chosen gain is the Gini gain of the partition at the chosen feature and threshold |
| `DecisionTrees.Majority` | submission.py:287-292 | 1 when strictly more labels are 1 than 0, otherwise 0; properties in `BuildAtDepthLimit` and `MajorityPresent` |
| `DecisionTrees.Build` | submission.py:271-343 | the tree `__build_tree__` returns, by its four stopping rules and the recursive split; the specification of `DecisionTree.BuildTree`, with properties in `BuildUniform`, `BuildAtDepthLimit`, `BuildLeafWithoutGain`, `BuildCases`, `BuildLabels`, `BuildFits` and `BuildHeight` |
| `DecisionTrees.SplitShrinks` | submission.py:332-341 | both sides of a split strictly inside the range are non-empty, smaller, well-formed, and their labels add up to the parent's |
| `DecisionTrees.BuildUniform` | submission.py:281-285 | one row, or a single distinct label, gives `Leaf(classes[0])` at any depth |
| `DecisionTrees.BuildAtDepthLimit` | submission.py:287-292 | at the depth limit the leaf is 1 exactly when more than half the labels are 1, and 0 otherwise (ties go to 0) |
| `DecisionTrees.BuildLeafWithoutGain` | submission.py:301-329 | past the first stopping rules, the result is a leaf exactly when no feature has a candidate with positive gain |
| `DecisionTrees.MajorityPresent` | submission.py:287-292 | with both labels present the majority label is one of the training labels |
| `DecisionTrees.BuildCases` | submission.py:271-343 | a built node is a leaf with a training label, or a `<=` test on a column of the matrix whose test holds for a row exactly when it went left, with children built one level deeper from the two smaller sides |
| `DecisionTrees.BuildLabels` | submission.py:271-343 | every leaf label of the built tree is one of the training labels |
| `DecisionTrees.BuildFits` | submission.py:337 | every test of the built tree reads a feature below the matrix's width |
| `DecisionTrees.BuildHeight` | submission.py:287-292 | built from depth d under limit L, the tree has at most L - d levels of tests |
| `DecisionTrees.ChosenSplitSeparates` | submission.py:315-341 | the chosen split sends rows to both sides, and the share of label 0 differs between them |
| `DecisionTrees.RootSplitSeparates` | submission.py:332-339 | a split node tests `f[feat] <= thr` with `min < thr < max`, and its two sides differ in their share of label 0 |
| `DecisionTrees.DecisionTree.constructor` | submission.py:251-259 | a new tree has no root and the given depth limit |
| `DecisionTrees.DecisionTree.Fit` | submission.py:261-268 | the root becomes the tree built from depth 0; the depth limit is kept |
| `DecisionTrees.DecisionTree.BuildTree` | submission.py:271-343 | the recursive builder, with its loops, returns the specified tree |
| `DecisionTrees.DecisionTree.Classify` | submission.py:349-358 | one label per row, in row order, each the root's `decide` of that row |
| `DecisionTrees.FittedClassifies` | submission.py:349-357 | after fitting, classifying a row of the training width is defined and yields one of the training labels |
| `RandomForests.Trunc` | submission.py:387-389 | `int()` on a float, toward zero; property in `TruncBounds` |
| `RandomForests.SampleSize` | submission.py:386-389 | `int(rate * n)`; property in `SampleSizeBounds` |
| `RandomForests.TruncBounds` | submission.py:387-389 | `int()` truncates toward zero: the result has the sign of x and lies within 1 of it |
| `RandomForests.SampleSizeBounds` | submission.py:386-389 | a rate in [0, 1] draws between 0 and n rows or columns |
| `RandomForests.Vote` | submission.py:414-416 | `mean(votes) > 0.5`; properties in `MajorityVote`, `TieVotesZero` and `ForestMajority` |
| `RandomForests.SumCountsOnes` | submission.py:414-415 | the sum of 0/1 votes is the number of 1 votes |
| `RandomForests.MajorityVote` | submission.py:414-416 | mean > 0.5 exactly when 2·(1 votes) > number of trees |
| `RandomForests.TieVotesZero` | submission.py:415-416 | a tie is predicted 0 |
| `RandomForests.SampleInput` | submission.py:391-398 | a bootstrap sample, projected on distinct columns, is a well-formed training input |
| `RandomForests.FittedVotesBinary` | submission.py:409-414 | trees with 0/1 leaves give 0/1 votes |
| `RandomForests.FittedTreeLabels` | submission.py:391-398 | a tree fitted on a sample of 0/1 labels has only the leaves 0 and 1 |
| `RandomForests.ForestMajority` | submission.py:408-418 | a row is predicted 1 exactly when 2·(trees voting 1) > number of trees |
| `RandomForests.RandomForest.constructor` | submission.py:364-379 | a new forest has no trees and no column lists, and keeps its parameters |
| `RandomForests.RandomForest.Fit` | submission.py:381-399 | appends num_trees fresh trees, each fitted on its round's rows and columns, and their column lists; earlier trees are kept |
| `RandomForests.RandomForest.FitOne` | submission.py:391-399 | one round: a fresh tree of the forest's depth limit fitted on the sample |
| `RandomForests.RandomForest.Classify` | submission.py:402-418 | one prediction per row: the strict-majority vote of the first num_trees trees, tree i reading columns `feature_list[i]` |
| `Vectorization.VectorizedGlue` | submission.py:560-577 | `np.column_stack` for `'c'`, `np.row_stack` otherwise; properties in `GlueCells`, `ColumnStackInverse` and `RowStackInverse`, and the loop version `NonVectorizedGlue` is proved equal to it |
| `Vectorization.NonVectorizedGlue` | submission.py:535-558 | fails with the ValueError message exactly when the dimension and length do not fit; otherwise a fresh array equal to `vectorized_glue` |
| `Vectorization.GlueCells` | submission.py:555-557 | a matrix holding the data in the old cells and the vector in the new column or row is the glued matrix |
| `Vectorization.ColumnStackInverse` | submission.py:573-574 | gluing a column is undone by dropping each row's last entry, which is the vector's |
| `Vectorization.RowStackInverse` | submission.py:575-576 | gluing a row is undone by dropping the last row, which is the vector |
| `Vectorization.NonVectorizedMask` | submission.py:579-599 | a fresh array equal, cell by cell, to `np.where(data < threshold, data*data, data)` |
| `Vectorization.VectorizedMask` | submission.py:601-613 | `np.where(data < threshold, data*data, data)`, of the data's shape; property in `MaskFixesLarge`, and the loop version `NonVectorizedMask` is proved equal to it |
| `Vectorization.MaskFixesLarge` | submission.py:612 | the mask leaves a matrix whose entries are all at least the threshold unchanged |

## Left out

- `load_csv` (file I/O and float parsing) is not modelled.
- `np.random.choice` is replaced by parameters. `RandomForest.Fit` takes each round's row draw and column draw. Rows are indices below m, repeats allowed; columns are distinct indices below n. The sizes are `int(rate * m)` and `int(rate * n)`.
- IEEE floating point is not modelled. Thresholds, impurities and gains are exact reals, and `1e-8` is an exact constant. So `np.arange`'s rounding, which can add or drop a candidate next to the maximum, is not modelled.
- A constant column has no candidates in the model. In the source, `np.arange(min, max, 0.0)` raises, so `__build_tree__` raises at any node past the stopping rules where some column is constant, while the model goes on and builds a tree from the other columns.
- The `-inf` sentinels of the scans are modelled as `None`. `NaN` inputs are not modelled.
- `Metrics.Precision`: the zero denominator, which returns `nan` with a warning in numpy, is a precondition.
- `Metrics.Recall`: the zero denominator, which returns `nan` with a warning in numpy, is a precondition.
- `Metrics.Accuracy`: the zero denominator, which returns `nan` with a warning in numpy, is a precondition.
- `DecisionTrees.DecisionTree.Fit` requires at least one row and 0/1 labels throughout. The source indexes `classes[0]`, so it fails on no rows. It unpacks `np.bincount` into two counts only once the depth limit is reached, so other labels fail only there; with the default unbounded limit, labels such as {0, 2} run to completion, which the model does not cover.
- `Impurity.GiniGain` requires a non-empty parent whenever there are children. With an empty parent the source divides by `len(previous_classes) == 0`: an empty child raises ZeroDivisionError (`0.0*0/0` is a Python float division), and a non-empty child gives inf or nan. That error path is not modelled.
- `depth_limit` is either unbounded (`float('inf')`) or an integer bound. Fractional float limits are not modelled.
- `RandomForests.RandomForest.Fit` requires a row sample of at least 2 and at least 2 features. With 1, `np.squeeze` drops an axis and the indexing that follows fails. The model does not capture that failure.
- `num_trees` is a `nat`; a negative count, which fits nothing, is not modelled.
- `RandomForests.RandomForest.Classify` requires at least one tree (`np.column_stack` of nothing fails). It returns the predictions as a sequence of booleans, not an `m x 1` numpy column.
- `Vectorization.NonVectorizedGlue` models the data as a two-dimensional real array and the vector as a sequence. `vectorized_glue`'s own behaviour on mismatched shapes (numpy raises its own errors) is not modelled; it is only the specification of the accepted inputs.
- `non_vectorized_loops`/`vectorized_loops`, `non_vectorized_slice`/`vectorized_slice` and `non_vectorized_flatten`/`vectorized_flatten` are not part of this model. The slice pair is not equivalent: it starts from a maximum of 0 and assumes 100 rows.
- `return_your_name` and the unused `time` import are trivial and are left out.
