/**
 * The split search of `DecisionTree.__build_tree__`: for every feature, a
 * scan of 399 evenly spaced thresholds strictly between the column's minimum
 * and maximum, each scored by the Gini gain of the partition it induces; then
 * a scan over the features for the best positive gain. Both scans keep the
 * first best seen (strict comparisons).
 */
module SplitSearch {
  import opened Wrappers
  import opened LabelCounts
  import opened Impurity
  import opened ArrayOps

  /** The column range is cut into this many steps; the candidates are the 399 inner cut points. */
  const Steps: nat := 400

  /** `(max - min) / 400.0`. */
  function Step(lo: real, hi: real): real
  {
    (hi - lo) / (Steps as real)
  }

  /**
   * The `k`-th value of `np.arange(min + step, max, step)`, counting from 1:
   * `min + k * step`. Over the reals the range holds exactly `k = 1 .. 399`.
   */
  function Threshold(lo: real, hi: real, k: nat): real
  {
    lo + (k as real) * Step(lo, hi)
  }

  /** `splitdis`: 1 for the rows whose value is above the threshold, 0 for the others. */
  function Marks(col: seq<real>, thr: real): (marks: seq<int>)
    ensures |marks| == |col|
  {
    seq(|col|, a requires 0 <= a < |col| => if col[a] > thr then 1 else 0)
  }

  /** `splitdis == v`, elementwise. */
  function MarksEqual(marks: seq<int>, v: int): (mask: seq<bool>)
    ensures |mask| == |marks|
  {
    seq(|marks|, a requires 0 <= a < |marks| => marks[a] == v)
  }

  /** Every row has an `i`-th feature. */
  predicate HasFeature(features: seq<seq<real>>, i: nat)
  {
    forall r :: 0 <= r < |features| ==> i < |features[r]|
  }

  /** The row masks of a split on feature `feat` at threshold `thr`: `<=` goes left. */
  function LeftMask(features: seq<seq<real>>, feat: nat, thr: real): seq<bool>
    requires HasFeature(features, feat)
  {
    AtMost(Column(features, feat), thr)
  }

  function RightMask(features: seq<seq<real>>, feat: nat, thr: real): seq<bool>
    requires HasFeature(features, feat)
  {
    Above(Column(features, feat), thr)
  }

  /** The class vectors on either side of threshold `thr` on feature `i`: `<=` left, `>` right. */
  function Children(features: seq<seq<real>>, classes: seq<int>, i: nat, thr: real): seq<seq<int>>
    requires |features| == |classes| && HasFeature(features, i)
  {
    [Select(classes, LeftMask(features, i, thr)), Select(classes, RightMask(features, i, thr))]
  }

  /** The Gini gain of splitting the rows at threshold `thr` on feature `i`. */
  function CandidateGain(features: seq<seq<real>>, classes: seq<int>, i: nat, thr: real): real
    requires |features| == |classes| > 0 && HasFeature(features, i)
  {
    Gain(classes, Children(features, classes, i, thr))
  }

  /** A feature's best threshold and its gain. */
  datatype Candidate = Candidate(gain: real, thr: real)

  /**
   * The feature scan after candidates `1 .. k`, whose gains are `gains[0 .. k - 1]`:
   * `None` before any candidate (the source's `-inf` sentinels), then the
   * first candidate with the largest gain (`gini > bestginigain`).
   */
  function ScanAmong(gains: seq<real>, lo: real, hi: real, k: nat): Option<Candidate>
    requires k <= |gains|
  {
    if k == 0 then None
    else
      var prev := ScanAmong(gains, lo, hi, k - 1);
      var g := gains[k - 1];
      if prev.None? || g > prev.value.gain then Some(Candidate(g, Threshold(lo, hi, k))) else prev
  }

  /** The gains of the 399 candidate thresholds of feature `i`, in scan order. */
  function CandidateGains(features: seq<seq<real>>, classes: seq<int>, i: nat, lo: real, hi: real): (gains: seq<real>)
    requires |features| == |classes| > 0 && HasFeature(features, i)
    ensures |gains| == Steps - 1
  {
    seq(Steps - 1, j requires 0 <= j < Steps - 1 => CandidateGain(features, classes, i, Threshold(lo, hi, j + 1)))
  }

  /** The best candidate of feature `i`; a constant column has no candidates. */
  function FeatureBest(features: seq<seq<real>>, classes: seq<int>, i: nat): Option<Candidate>
    requires |features| == |classes| > 0 && HasFeature(features, i)
  {
    var col := Column(features, i);
    var lo, hi := Min(col), Max(col);
    if lo < hi then ScanAmong(CandidateGains(features, classes, i, lo, hi), lo, hi, Steps - 1) else None
  }

  /** The outcome of the search: no split, or the winning gain, feature and threshold. */
  datatype Choice = NoSplit | Chosen(gain: real, feat: nat, thr: real)

  /** `bestgini`: 0.0 until a feature improves on it. */
  function BestGini(c: Choice): real
  {
    if c.NoSplit? then 0.0 else c.gain
  }

  /**
   * The feature loop after features `0 .. i - 1`, whose best candidates are
   * `bests[0 .. i - 1]`: a feature replaces the current choice only when its
   * best gain is strictly larger (`bestgini < bestginigain`), starting from 0.0.
   */
  function ChooseAmong(bests: seq<Option<Candidate>>, i: nat): Choice
    requires i <= |bests|
  {
    if i == 0 then NoSplit
    else
      var prev := ChooseAmong(bests, i - 1);
      var best := bests[i - 1];
      if best.Some? && BestGini(prev) < best.value.gain then Chosen(best.value.gain, i - 1, best.value.thr)
      else prev
  }

  /** The best candidate of every feature of an `|features| x width` matrix. */
  function FeatureBests(features: seq<seq<real>>, classes: seq<int>, width: nat): (bests: seq<Option<Candidate>>)
    requires |features| == |classes| > 0 && Rect(features, width)
    ensures |bests| == width
  {
    seq(width, j requires 0 <= j < width => FeatureBest(features, classes, j))
  }

  /** The outcome of the split search over all features. */
  function BestSplit(features: seq<seq<real>>, classes: seq<int>, width: nat): Choice
    requires |features| == |classes| > 0 && Rect(features, width)
  {
    ChooseAmong(FeatureBests(features, classes, width), width)
  }

  // ---------------------------------------------------------------------
  // The loops of the source, proved against the functions above.

  /**
   * Fills `splitdis` for threshold `thr` on feature `i`, one row at a time.
   */
  method SplitMarks(features: seq<seq<real>>, i: nat, thr: real) returns (splitdis: array<int>)
    requires HasFeature(features, i)
    ensures fresh(splitdis)
    ensures splitdis[..] == Marks(Column(features, i), thr)
  {
    splitdis := new int[|features|](_ => 0);
    for a := 0 to |features|
      invariant forall b :: 0 <= b < a ==> splitdis[b] == (if features[b][i] > thr then 1 else 0)
    {
      if features[a][i] > thr {
        splitdis[a] := 1;
      } else {
        splitdis[a] := 0;
      }
    }
  }

  /** The gain of one candidate threshold, computed as the source does. */
  method CandidateGainAt(features: seq<seq<real>>, classes: seq<int>, i: nat, thr: real) returns (gini: real)
    requires |features| == |classes| > 0 && HasFeature(features, i)
    ensures gini == CandidateGain(features, classes, i, thr)
  {
    var splitdis := SplitMarks(features, i, thr);
    MarksSides(Column(features, i), thr);
    var left := Select(classes, MarksEqual(splitdis[..], 0));
    var right := Select(classes, MarksEqual(splitdis[..], 1));
    gini := GiniGain(classes, [left, right]);
  }

  /**
   * `bests` lists every feature's best candidate. The trigger keeps the
   * candidates' definitions out of proofs that only pass them along.
   */
  predicate ListsFeatureBests(features: seq<seq<real>>, classes: seq<int>, width: nat, bests: seq<Option<Candidate>>)
    requires |features| == |classes| > 0 && Rect(features, width)
  {
    |bests| == width &&
    forall j {:trigger FeatureBest(features, classes, j)} :: 0 <= j < width ==> bests[j] == FeatureBest(features, classes, j)
  }

  /**
   * `gains` lists the gains of the 399 candidate thresholds of feature `i`.
   * The trigger keeps the gains' definitions out of the loop that scans them.
   */
  predicate ListsGains(features: seq<seq<real>>, classes: seq<int>, i: nat, lo: real, hi: real, gains: seq<real>)
    requires |features| == |classes| > 0 && HasFeature(features, i)
  {
    |gains| == Steps - 1 &&
    forall k {:trigger CandidateGain(features, classes, i, Threshold(lo, hi, k))} :: 1 <= k < Steps ==>
      gains[k - 1] == CandidateGain(features, classes, i, Threshold(lo, hi, k))
  }

  /** The gain of the `k`-th candidate threshold, `gains[k - 1]`. */
  method ThresholdGain(features: seq<seq<real>>, classes: seq<int>, i: nat, lo: real, hi: real, k: nat,
                       ghost gains: seq<real>) returns (gini: real)
    requires |features| == |classes| > 0 && HasFeature(features, i) && 1 <= k < Steps
    requires ListsGains(features, classes, i, lo, hi, gains)
    ensures gini == gains[k - 1]
  {
    gini := CandidateGainAt(features, classes, i, Threshold(lo, hi, k));
  }

  /** The threshold loop over one column's range: the scan of all 399 candidates. */
  method ScanThresholds(features: seq<seq<real>>, classes: seq<int>, i: nat, lo: real, hi: real,
                        ghost gains: seq<real>) returns (best: Option<Candidate>)
    requires |features| == |classes| > 0 && HasFeature(features, i)
    requires ListsGains(features, classes, i, lo, hi, gains)
    ensures best == ScanAmong(gains, lo, hi, Steps - 1)
  {
    best := None;
    for k := 1 to Steps
      invariant best == ScanAmong(gains, lo, hi, k - 1)
    {
      var thr := Threshold(lo, hi, k);
      var gini := ThresholdGain(features, classes, i, lo, hi, k, gains);
      if best.None? || gini > best.value.gain {
        best := Some(Candidate(gini, thr));
      }
    }
  }

  /** The threshold scan of feature `i`: its best candidate, `bests[i]`. */
  method ScanFeature(features: seq<seq<real>>, classes: seq<int>, width: nat, i: nat, ghost bests: seq<Option<Candidate>>)
    returns (best: Option<Candidate>)
    requires |features| == |classes| > 0 && Rect(features, width) && i < width
    requires ListsFeatureBests(features, classes, width, bests)
    ensures best == bests[i]
  {
    var col := Column(features, i);
    var lo, hi := Min(col), Max(col);
    best := None;
    if lo < hi {
      GainsListed(features, classes, i, lo, hi);
      best := ScanThresholds(features, classes, i, lo, hi, CandidateGains(features, classes, i, lo, hi));
    }
    assert best == FeatureBest(features, classes, i);
  }

  /** The feature loop of `__build_tree__`: the choice among the features' best candidates. */
  method ChooseSplit(features: seq<seq<real>>, classes: seq<int>, width: nat, ghost bests: seq<Option<Candidate>>)
    returns (choice: Choice)
    requires |features| == |classes| > 0 && Rect(features, width)
    requires ListsFeatureBests(features, classes, width, bests)
    ensures choice == ChooseAmong(bests, width)
  {
    choice := NoSplit;
    for i := 0 to width
      invariant choice == ChooseAmong(bests, i)
    {
      var best := ScanFeature(features, classes, width, i, bests);
      if best.Some? && BestGini(choice) < best.value.gain {
        choice := Chosen(best.value.gain, i, best.value.thr);
      }
    }
  }

  /** The features' best candidates, as the search lists them. */
  lemma FeatureBestsListed(features: seq<seq<real>>, classes: seq<int>, width: nat)
    requires |features| == |classes| > 0 && Rect(features, width)
    ensures ListsFeatureBests(features, classes, width, FeatureBests(features, classes, width))
  {
  }

  // ---------------------------------------------------------------------
  // Properties of the search.

  /** The rows marked 0 are those at or below the threshold, the rows marked 1 those above. */
  lemma MarksSides(col: seq<real>, thr: real)
    ensures MarksEqual(Marks(col, thr), 0) == AtMost(col, thr)
    ensures MarksEqual(Marks(col, thr), 1) == Above(col, thr)
  {
  }

  lemma StepBounds(lo: real, hi: real, k: nat)
    requires lo < hi && 1 <= k < Steps
    ensures 0.0 < (k as real) * Step(lo, hi) < hi - lo
  {
    var d := Step(lo, hi);
    assert d > 0.0;
    assert (k as real) * d >= d;
    assert (k as real) * d <= 399.0 * d;
  }

  /** Every candidate threshold lies strictly between the column's minimum and maximum. */
  lemma ThresholdInside(lo: real, hi: real, k: nat)
    requires lo < hi && 1 <= k < Steps
    ensures lo < Threshold(lo, hi, k) < hi
  {
    StepBounds(lo, hi, k);
  }

  /** After `k > 0` candidates the scan holds one of them, and its gain is the largest seen. */
  lemma {:induction false} ScanOptimal(gains: seq<real>, lo: real, hi: real, k: nat)
    requires k <= |gains|
    ensures ScanAmong(gains, lo, hi, k).Some? <==> k > 0
    ensures ScanAmong(gains, lo, hi, k).Some? ==>
      forall j :: 0 <= j < k ==> gains[j] <= ScanAmong(gains, lo, hi, k).value.gain
  {
    if k > 0 {
      ScanOptimal(gains, lo, hi, k - 1);
    }
  }

  /**
   * The scan keeps the first best: its candidate is the `j`-th, with the `j`-th
   * gain, and every earlier candidate's gain is strictly smaller.
   */
  lemma {:induction false} ScanFirstSeen(gains: seq<real>, lo: real, hi: real, k: nat) returns (j: nat)
    requires k <= |gains| && ScanAmong(gains, lo, hi, k).Some?
    ensures 1 <= j <= k
    ensures ScanAmong(gains, lo, hi, k).value == Candidate(gains[j - 1], Threshold(lo, hi, j))
    ensures forall j' :: 0 <= j' < j - 1 ==> gains[j'] < gains[j - 1]
  {
    var prev := ScanAmong(gains, lo, hi, k - 1);
    ScanOptimal(gains, lo, hi, k - 1);
    if prev.None? || gains[k - 1] > prev.value.gain {
      j := k;
    } else {
      j := ScanFirstSeen(gains, lo, hi, k - 1);
    }
  }

  /**
   * A feature's best candidate is the `j`-th threshold, strictly inside the
   * column's range, and carries that threshold's gain.
   */
  lemma FeatureBestInside(features: seq<seq<real>>, classes: seq<int>, i: nat) returns (j: nat)
    requires |features| == |classes| > 0 && HasFeature(features, i)
    requires FeatureBest(features, classes, i).Some?
    ensures var col := Column(features, i);
      var lo, hi, c := Min(col), Max(col), FeatureBest(features, classes, i).value;
      && 1 <= j < Steps && lo < hi
      && c.thr == Threshold(lo, hi, j) && lo < c.thr < hi
      && c.gain == CandidateGain(features, classes, i, c.thr)
  {
    var col := Column(features, i);
    var lo, hi := Min(col), Max(col);
    var gains := CandidateGains(features, classes, i, lo, hi);
    assert FeatureBest(features, classes, i) == ScanAmong(gains, lo, hi, Steps - 1);
    j := ScanBest(gains, lo, hi, Steps - 1);
    CandidateGainsAt(features, classes, i, lo, hi);
    ThresholdInside(lo, hi, j);
  }

  /** The scan's candidate is the first one with the largest gain of the `k` seen. */
  lemma ScanBest(gains: seq<real>, lo: real, hi: real, k: nat) returns (j: nat)
    requires 0 < k <= |gains|
    ensures ScanAmong(gains, lo, hi, k).Some?
    ensures 1 <= j <= k && ScanAmong(gains, lo, hi, k).value == Candidate(gains[j - 1], Threshold(lo, hi, j))
    ensures forall t :: 0 <= t < k ==> gains[t] <= gains[j - 1]
    ensures forall t :: 0 <= t < j - 1 ==> gains[t] < gains[j - 1]
  {
    ScanOptimal(gains, lo, hi, k);
    j := ScanFirstSeen(gains, lo, hi, k);
  }

  /** The `k`-th candidate's gain, as listed by `CandidateGains`. */
  lemma CandidateGainsAt(features: seq<seq<real>>, classes: seq<int>, i: nat, lo: real, hi: real)
    requires |features| == |classes| > 0 && HasFeature(features, i)
    ensures forall k :: 1 <= k < Steps ==>
      CandidateGain(features, classes, i, Threshold(lo, hi, k)) == CandidateGains(features, classes, i, lo, hi)[k - 1]
  {
    var gains := CandidateGains(features, classes, i, lo, hi);
    forall k | 1 <= k < Steps
      ensures CandidateGain(features, classes, i, Threshold(lo, hi, k)) == gains[k - 1]
    {
      assert gains[k - 1] == CandidateGain(features, classes, i, Threshold(lo, hi, (k - 1) + 1));
    }
  }

  /** `CandidateGains` lists the candidates' gains. */
  lemma GainsListed(features: seq<seq<real>>, classes: seq<int>, i: nat, lo: real, hi: real)
    requires |features| == |classes| > 0 && HasFeature(features, i)
    ensures ListsGains(features, classes, i, lo, hi, CandidateGains(features, classes, i, lo, hi))
  {
    CandidateGainsAt(features, classes, i, lo, hi);
  }

  /**
   * A feature's best candidate has the largest gain of the feature's 399
   * thresholds, and every earlier threshold's gain is strictly smaller.
   */
  lemma FeatureBestOptimal(features: seq<seq<real>>, classes: seq<int>, i: nat) returns (j: nat)
    requires |features| == |classes| > 0 && HasFeature(features, i)
    requires FeatureBest(features, classes, i).Some?
    ensures var col := Column(features, i);
      var lo, hi, c := Min(col), Max(col), FeatureBest(features, classes, i).value;
      && 1 <= j < Steps && c.thr == Threshold(lo, hi, j)
      && (forall k :: 1 <= k < Steps ==> CandidateGain(features, classes, i, Threshold(lo, hi, k)) <= c.gain)
      && (forall k :: 1 <= k < j ==> CandidateGain(features, classes, i, Threshold(lo, hi, k)) < c.gain)
  {
    var col := Column(features, i);
    var lo, hi := Min(col), Max(col);
    var gains := CandidateGains(features, classes, i, lo, hi);
    assert FeatureBest(features, classes, i) == ScanAmong(gains, lo, hi, Steps - 1);
    j := ScanBest(gains, lo, hi, Steps - 1);
    CandidateGainsAt(features, classes, i, lo, hi);
  }

  /** A chosen split has positive gain and is some feature's best candidate. */
  lemma {:induction false} ChoiceGainPositive(bests: seq<Option<Candidate>>, i: nat)
    requires i <= |bests|
    ensures var c := ChooseAmong(bests, i);
      c.Chosen? ==> (c.gain > 0.0 && c.feat < i && bests[c.feat] == Some(Candidate(c.gain, c.thr)))
  {
    if i > 0 {
      ChoiceGainPositive(bests, i - 1);
    }
  }

  /** `bestgini == 0.0` holds after the loop exactly when no feature was chosen. */
  lemma BestGiniZero(bests: seq<Option<Candidate>>, i: nat)
    requires i <= |bests|
    ensures BestGini(ChooseAmong(bests, i)) == 0.0 <==> ChooseAmong(bests, i).NoSplit?
  {
    ChoiceGainPositive(bests, i);
  }

  /**
   * The feature loop keeps the first best feature: no feature's best gain
   * exceeds the choice's (or 0.0 when nothing was chosen), and every earlier
   * feature's best gain is strictly below the chosen one.
   */
  lemma {:induction false} ChoiceOptimal(bests: seq<Option<Candidate>>, i: nat)
    requires i <= |bests|
    ensures forall j :: 0 <= j < i && bests[j].Some? ==> bests[j].value.gain <= BestGini(ChooseAmong(bests, i))
    ensures var c := ChooseAmong(bests, i);
      c.Chosen? ==> c.feat < i && forall j :: 0 <= j < c.feat && bests[j].Some? ==> bests[j].value.gain < c.gain
  {
    if i > 0 {
      ChoiceOptimal(bests, i - 1);
      ChoiceGainPositive(bests, i - 1);
    }
  }

  /** No split is chosen exactly when no feature has a candidate with positive gain. */
  lemma NoSplitIff(bests: seq<Option<Candidate>>, i: nat)
    requires i <= |bests|
    ensures ChooseAmong(bests, i).NoSplit? <==> forall j :: 0 <= j < i && bests[j].Some? ==> bests[j].value.gain <= 0.0
  {
    ChoiceOptimal(bests, i);
    ChoiceGainPositive(bests, i);
  }

  /**
   * The chosen split of the search: a feature of the matrix with a positive
   * gain, and a threshold strictly inside that column's range.
   */
  lemma BestSplitInside(features: seq<seq<real>>, classes: seq<int>, width: nat)
    requires |features| == |classes| > 0 && Rect(features, width)
    requires BestSplit(features, classes, width).Chosen?
    ensures var c := BestSplit(features, classes, width);
      c.feat < width && c.gain > 0.0
      && Min(Column(features, c.feat)) < c.thr < Max(Column(features, c.feat))
  {
    var bests := FeatureBests(features, classes, width);
    ChoiceGainPositive(bests, width);
    var c := BestSplit(features, classes, width);
    var j := FeatureBestInside(features, classes, c.feat);
  }

  /** The chosen split's gain is the Gini gain of the partition at its threshold. */
  lemma BestSplitGain(features: seq<seq<real>>, classes: seq<int>, width: nat)
    requires |features| == |classes| > 0 && Rect(features, width)
    requires BestSplit(features, classes, width).Chosen?
    ensures var c := BestSplit(features, classes, width);
      c.feat < width && c.gain == CandidateGain(features, classes, c.feat, c.thr)
  {
    var bests := FeatureBests(features, classes, width);
    ChoiceGainPositive(bests, width);
    var c := BestSplit(features, classes, width);
    var j := FeatureBestInside(features, classes, c.feat);
  }
}
