/**
 * Decision-tree nodes and the walk that classifies one feature vector.
 * A node is either a leaf carrying a class label or an internal node with
 * a test on one feature; a true test sends the walk to the left child.
 */
module DecisionNodes {

  /**
   * The decision function of an internal node. Learned trees test
   * `f[feat] <= thr`; the hand-built tree tests `f[feat] == v`.
   */
  datatype Test = Le(feat: nat, thr: real) | Eq(feat: nat, v: real)

  datatype Node = Leaf(classLabel: int) | Split(test: Test, left: Node, right: Node)

  /** The test reads feature `t.feat`, so the vector must have that index. */
  predicate Holds(t: Test, f: seq<real>)
    requires t.feat < |f|
  {
    match t
    case Le(i, thr) => f[i] <= thr
    case Eq(i, v) => f[i] == v
  }

  /**
   * Every test met on the walk of `f` reads an index of `f`: the walk
   * raises no index error. Only the tests on the path are evaluated.
   */
  predicate Defined(node: Node, f: seq<real>)
  {
    match node
    case Leaf(_) => true
    case Split(t, l, r) => t.feat < |f| && if Holds(t, f) then Defined(l, f) else Defined(r, f)
  }

  /** Every test of the tree reads a feature index below `width`. */
  predicate Fits(node: Node, width: nat)
  {
    match node
    case Leaf(_) => true
    case Split(t, l, r) => t.feat < width && Fits(l, width) && Fits(r, width)
  }

  /** The labels of the leaves. */
  function Labels(node: Node): set<int>
  {
    match node
    case Leaf(c) => {c}
    case Split(_, l, r) => Labels(l) + Labels(r)
  }

  /** Number of internal nodes on the longest root-to-leaf path. */
  function Height(node: Node): nat
  {
    match node
    case Leaf(_) => 0
    case Split(_, l, r) => 1 + (if Height(l) < Height(r) then Height(r) else Height(l))
  }

  /** `DecisionNode.decide`: the label of the leaf reached by following the tests. */
  function Decide(node: Node, f: seq<real>): (r: int)
    requires Defined(node, f)
    ensures r in Labels(node)
  {
    match node
    case Leaf(c) => c
    case Split(t, l, r) => if Holds(t, f) then Decide(l, f) else Decide(r, f)
  }

  /** A tree whose tests all fit the vector's width never raises an index error. */
  lemma {:induction false} FitsDefined(node: Node, f: seq<real>)
    requires Fits(node, |f|)
    ensures Defined(node, f)
  {
    match node
    case Leaf(_) =>
    case Split(t, l, r) =>
      FitsDefined(l, f);
      FitsDefined(r, f);
  }

  /** `build_decision_tree`: the hand-built tree for the sample data. */
  function BuildDecisionTree(): (root: Node)
    ensures Fits(root, 4) && Height(root) == 3 && Labels(root) == {0, 1}
  {
    Split(Eq(0, 0.0), HandBuiltLeft(), Leaf(1))
  }

  /** The hand-built tree's left subtree, reached when the first feature is 0. */
  function HandBuiltLeft(): Node
  {
    Split(Eq(3, 0.0),
      Split(Eq(2, 1.0), Leaf(0), Leaf(1)),
      Split(Eq(1, 1.0), Leaf(0), Leaf(1)))
  }

  /** The walk through the left subtree, for four-feature vectors. */
  lemma HandBuiltLeftTable(f: seq<real>)
    requires |f| >= 4
    ensures Defined(HandBuiltLeft(), f)
    ensures Decide(HandBuiltLeft(), f) == 0 <==> (f[3] == 0.0 && f[2] == 1.0) || (f[3] != 0.0 && f[1] == 1.0)
    ensures Decide(HandBuiltLeft(), f) in {0, 1}
  {
    var ll, lr := Split(Eq(2, 1.0), Leaf(0), Leaf(1)), Split(Eq(1, 1.0), Leaf(0), Leaf(1));
    assert Defined(ll, f) && Defined(lr, f);
    assert Decide(ll, f) == (if f[2] == 1.0 then 0 else 1);
    assert Decide(lr, f) == (if f[1] == 1.0 then 0 else 1);
  }

  /** A vector whose first feature is not 0 is class 1, whatever its other features. */
  lemma HandBuiltFirstFeature(f: seq<real>)
    requires |f| >= 1 && f[0] != 0.0
    ensures Defined(BuildDecisionTree(), f) && Decide(BuildDecisionTree(), f) == 1
  {
  }

  /** First feature 0, fourth 0 and third 1 gives class 0. */
  lemma HandBuiltThirdFeature(f: seq<real>)
    requires |f| >= 4 && f[0] == 0.0 && f[3] == 0.0 && f[2] == 1.0
    ensures Defined(BuildDecisionTree(), f) && Decide(BuildDecisionTree(), f) == 0
  {
    HandBuiltLeftTable(f);
  }

  /** First feature 0, fourth not 0 and second 1 gives class 0. */
  lemma HandBuiltSecondFeature(f: seq<real>)
    requires |f| >= 4 && f[0] == 0.0 && f[3] != 0.0 && f[1] == 1.0
    ensures Defined(BuildDecisionTree(), f) && Decide(BuildDecisionTree(), f) == 0
  {
    HandBuiltLeftTable(f);
  }

  /**
   * The whole truth table of the hand-built tree: class 0 exactly in the two
   * cases above, class 1 for every other four-feature vector.
   */
  lemma HandBuiltTable(f: seq<real>)
    requires |f| >= 4
    ensures Defined(BuildDecisionTree(), f)
    ensures Decide(BuildDecisionTree(), f) == 0
        <==> f[0] == 0.0 && ((f[3] == 0.0 && f[2] == 1.0) || (f[3] != 0.0 && f[1] == 1.0))
    ensures Decide(BuildDecisionTree(), f) == 1
        <==> !(f[0] == 0.0 && ((f[3] == 0.0 && f[2] == 1.0) || (f[3] != 0.0 && f[1] == 1.0)))
  {
    HandBuiltLeftTable(f);
  }
}
