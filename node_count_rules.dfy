/**
 * The "excessive imports", "excessive parameter list" and "excessive
 * method count" rules: one depth-first visitor that counts the nodes of a
 * counted class below each node and records a data point and a violation on
 * each node of the target class that the visitor reaches and that is not
 * itself counted. A counted node returns 1 without being visited, so when
 * the two classes coincide nothing is ever recorded.
 */
module ExcessiveNodeCount {
  import opened Wrappers
  import opened JavaAst
  import opened Stat

  predicate IsCounted(counted: Option<NodeClass>, n: Node)
  {
    counted.Some? && IsInstance(counted.value, n.kind)
  }

  /** The value the visitor returns for a node: 1 for a node the counting
      override receives, else the sum over its children. */
  function Score(n: Node, counted: Option<NodeClass>): (s: int)
    decreases n, 1
    ensures s >= 0
  {
    if IsCounted(counted, n) then 1 else SumScores(n.children, counted)
  }

  function SumScores(cs: seq<Node>, counted: Option<NodeClass>): (s: int)
    decreases cs, 0
    ensures s >= 0
  {
    if cs == [] then 0 else SumScores(cs[..|cs| - 1], counted) + Score(cs[|cs| - 1], counted)
  }

  /** The data points the visitor records below and at a node, in the
      order it records them: children first, then the node itself. */
  function Points(n: Node, target: NodeClass, counted: Option<NodeClass>): seq<DataPoint>
    decreases n, 1
  {
    if IsCounted(counted, n) then []
    else PointsOf(n.children, target, counted)
         + (if IsInstance(target, n.kind) then [DataPoint(n, Score(n, counted) as real)] else [])
  }

  function PointsOf(cs: seq<Node>, target: NodeClass, counted: Option<NodeClass>): seq<DataPoint>
    decreases cs, 0
  {
    if cs == [] then [] else PointsOf(cs[..|cs| - 1], target, counted) + Points(cs[|cs| - 1], target, counted)
  }

  /** The nodes the visitor is dispatched to, in pre-order: it does not
      descend below a counted node. */
  function Reached(n: Node, counted: Option<NodeClass>): (r: seq<Node>)
    decreases n, 1
    ensures |r| >= 1 && r[0] == n
  {
    [n] + (if IsCounted(counted, n) then [] else ReachedOf(n.children, counted))
  }

  function ReachedOf(cs: seq<Node>, counted: Option<NodeClass>): seq<Node>
    decreases cs, 0
  {
    if cs == [] then [] else ReachedOf(cs[..|cs| - 1], counted) + Reached(cs[|cs| - 1], counted)
  }

  /** No node of class `c` has another one below it: the precondition of
      the no-nesting corollaries below. */
  predicate NoNestedCounted(n: Node, c: NodeClass)
    decreases n, 1
  {
    if IsInstance(c, n.kind) then CountOf(c, AllNodesOf(n.children)) == 0
    else NoNestedCountedOf(n.children, c)
  }

  predicate NoNestedCountedOf(cs: seq<Node>, c: NodeClass)
    decreases cs, 0
  {
    forall i :: 0 <= i < |cs| ==> NoNestedCounted(cs[i], c)
  }

  /** A node's score is the number of nodes of the counted class among the
      nodes the visitor reaches below and at it: a counted node counts once
      and hides whatever lies below it. */
  lemma {:induction false} ScoreCountsReached(n: Node, c: NodeClass)
    ensures Score(n, Some(c)) == CountOf(c, Reached(n, Some(c)))
    decreases n, 1
  {
    if IsInstance(c, n.kind) {
      assert Reached(n, Some(c)) == [n];
      assert [n][..0] == [];
    } else {
      CountOfAppend(c, [n], ReachedOf(n.children, Some(c)));
      assert [n][..0] == [];
      SumScoresCountsReached(n.children, c);
    }
  }

  lemma {:induction false} SumScoresCountsReached(cs: seq<Node>, c: NodeClass)
    ensures SumScores(cs, Some(c)) == CountOf(c, ReachedOf(cs, Some(c)))
    decreases cs, 0
  {
    if cs != [] {
      var init, last := cs[..|cs| - 1], cs[|cs| - 1];
      SumScoresCountsReached(init, c);
      ScoreCountsReached(last, c);
      CountOfAppend(c, ReachedOf(init, Some(c)), Reached(last, Some(c)));
    }
  }

  /** Corollary for the usual trees, where counted nodes do not nest (an
      import declaration holds no import declaration, a formal parameter no
      formal parameter): the score counts every counted node of the subtree. */
  lemma {:induction false} ScoreCountsCounted(n: Node, c: NodeClass)
    requires NoNestedCounted(n, c)
    ensures Score(n, Some(c)) == CountOf(c, AllNodes(n))
    decreases n, 1
  {
    CountOfAppend(c, [n], AllNodesOf(n.children));
    assert [n][..0] == [];
    if !IsInstance(c, n.kind) {
      SumScoresCountsCounted(n.children, c);
    }
  }

  /** Corollary of `SumScoresCountsReached` for trees without nesting. */
  lemma {:induction false} SumScoresCountsCounted(cs: seq<Node>, c: NodeClass)
    requires NoNestedCountedOf(cs, c)
    ensures SumScores(cs, Some(c)) == CountOf(c, AllNodesOf(cs))
    decreases cs, 0
  {
    if cs != [] {
      var init, last := cs[..|cs| - 1], cs[|cs| - 1];
      assert NoNestedCountedOf(init, c) by {
        forall i | 0 <= i < |init| ensures NoNestedCounted(init[i], c) {
          assert init[i] == cs[i];
        }
      }
      SumScoresCountsCounted(init, c);
      ScoreCountsCounted(last, c);
      CountOfAppend(c, AllNodesOf(init), AllNodes(last));
    }
  }

  /** Without a counting override nothing is counted: every score is 0. */
  lemma {:induction false} NoOverrideScoresZero(n: Node)
    ensures Score(n, None) == 0
    decreases n, 1
  {
    NoOverrideSumsZero(n.children);
  }

  lemma {:induction false} NoOverrideSumsZero(cs: seq<Node>)
    ensures SumScores(cs, None) == 0
    decreases cs, 0
  {
    if cs != [] {
      NoOverrideSumsZero(cs[..|cs| - 1]);
      NoOverrideScoresZero(cs[|cs| - 1]);
    }
  }

  /** The visitor records a data point exactly for each node it reaches that
      is of the target class and not counted, with that node's score. */
  lemma {:induction false} PointsAreReachedTargets(n: Node, target: NodeClass, counted: Option<NodeClass>)
    ensures forall p :: p in Points(n, target, counted) <==>
              p.node in Reached(n, counted) && IsInstance(target, p.node.kind)
              && !IsCounted(counted, p.node) && p.score == Score(p.node, counted) as real
    decreases n, 1
  {
    if !IsCounted(counted, n) {
      PointsOfAreReachedTargets(n.children, target, counted);
    }
  }

  lemma {:induction false} PointsOfAreReachedTargets(cs: seq<Node>, target: NodeClass, counted: Option<NodeClass>)
    ensures forall p :: p in PointsOf(cs, target, counted) <==>
              p.node in ReachedOf(cs, counted) && IsInstance(target, p.node.kind)
              && !IsCounted(counted, p.node) && p.score == Score(p.node, counted) as real
    decreases cs, 0
  {
    if cs != [] {
      PointsOfAreReachedTargets(cs[..|cs| - 1], target, counted);
      PointsAreReachedTargets(cs[|cs| - 1], target, counted);
    }
  }

  /** When the target class is also the counted class, as in the method-count
      rule once its counting override is reached, a target node is always
      counted and never reaches the generic visit: nothing is recorded on
      any tree. */
  lemma {:induction false} SameClassNoPoints(n: Node, c: NodeClass)
    ensures Points(n, c, Some(c)) == []
    decreases n, 1
  {
    if !IsCounted(Some(c), n) {
      SameClassNoPointsOf(n.children, c);
    }
  }

  lemma {:induction false} SameClassNoPointsOf(cs: seq<Node>, c: NodeClass)
    ensures PointsOf(cs, c, Some(c)) == []
    decreases cs, 0
  {
    if cs != [] {
      SameClassNoPointsOf(cs[..|cs| - 1], c);
      SameClassNoPoints(cs[|cs| - 1], c);
    }
  }

  /** Extending a prefix of the children by one child extends the sum and
      the recorded points by that child's. */
  lemma PrefixStep(cs: seq<Node>, i: nat, target: NodeClass, counted: Option<NodeClass>)
    requires i < |cs|
    ensures SumScores(cs[..i + 1], counted) == SumScores(cs[..i], counted) + Score(cs[i], counted)
    ensures PointsOf(cs[..i + 1], target, counted) == PointsOf(cs[..i], target, counted) + Points(cs[i], target, counted)
  {
    assert cs[..i + 1][..i] == cs[..i];
  }

  /** A compilation unit holding three import declarations gets one data
      point, scored 3; one holding none gets a data point scored 0. */
  lemma ImportCountExample(imp: Node, unit: Node, empty: Node)
    requires imp.kind == ImportDeclaration
    requires unit == Node(CompilationUnit, 1, 10, [imp, imp, imp])
    requires empty == Node(CompilationUnit, 1, 1, [])
    ensures Points(unit, CompilationUnitClass, Some(ImportDeclarationClass)) == [DataPoint(unit, 3.0)]
    ensures Points(empty, CompilationUnitClass, Some(ImportDeclarationClass)) == [DataPoint(empty, 0.0)]
  {
    var counted := Some(ImportDeclarationClass);
    var cs := unit.children;
    assert cs[..2] == [imp, imp] && cs[..2][..1] == [imp] && [imp][..0] == [];
    assert Score(imp, counted) == 1 && Points(imp, CompilationUnitClass, counted) == [];
    assert SumScores([imp], counted) == 1 && PointsOf([imp], CompilationUnitClass, counted) == [];
    assert SumScores(cs[..2], counted) == 2 && PointsOf(cs[..2], CompilationUnitClass, counted) == [];
    assert SumScores(cs, counted) == 3 && PointsOf(cs, CompilationUnitClass, counted) == [];
  }

  /** The rule object: its target class, the class its counting override
      receives (if any), the configured minimum, and the data points and
      violations recorded so far. */
  class NodeCountRule {
    const nodeClass: NodeClass
    const countedClass: Option<NodeClass>
    var minimum: real
    var dataPoints: seq<DataPoint>
    var violations: seq<Violation>

    /** ExcessiveImportsRule: compilation units, import declarations
        counted, minimum 1. */
    constructor Imports()
      ensures nodeClass == CompilationUnitClass && countedClass == Some(ImportDeclarationClass)
      ensures minimum == 1.0 && dataPoints == [] && violations == []
    {
      nodeClass := CompilationUnitClass;
      countedClass := Some(ImportDeclarationClass);
      minimum := 1.0;
      dataPoints, violations := [], [];
    }

    /** ExcessiveParameterListRule: parameter lists, formal parameters
        counted, minimum 10. */
    constructor ParameterList()
      ensures nodeClass == FormalParametersClass && countedClass == Some(FormalParameterClass)
      ensures minimum == 10.0 && dataPoints == [] && violations == []
    {
      nodeClass := FormalParametersClass;
      countedClass := Some(FormalParameterClass);
      minimum := 10.0;
      dataPoints, violations := [], [];
    }

    /** ExcessiveMethodCountRule: method and constructor declarations,
        minimum 1. Its counting override is not marked as overriding a
        visitor method, so whether the visitor ever reaches it depends on
        the visitor interface: `overrideReached` says which. */
    constructor MethodCount(overrideReached: bool)
      ensures nodeClass == MethodOrConstructorClass
      ensures countedClass == if overrideReached then Some(MethodOrConstructorClass) else None
      ensures minimum == 1.0 && dataPoints == [] && violations == []
    {
      nodeClass := MethodOrConstructorClass;
      countedClass := if overrideReached then Some(MethodOrConstructorClass) else None;
      minimum := 1.0;
      dataPoints, violations := [], [];
    }

    /** `jjtAccept`: the counting override for a counted node (it returns 1
        and visits nothing), the generic visit for any other node. */
    method Accept(node: Node) returns (count: int)
      modifies this
      decreases node, 2
      ensures minimum == old(minimum)
      ensures count == Score(node, countedClass)
      ensures dataPoints == old(dataPoints) + Points(node, nodeClass, countedClass)
      ensures violations == old(violations) + AsViolations(Points(node, nodeClass, countedClass))
    {
      if IsCounted(countedClass, node) {
        return 1;
      }
      count := Visit(node);
    }

    /** `visit(JavaNode)`: sum the children's counts, left to right; on a
        node of the target class record a data point and a violation with
        that sum; return the sum whether or not anything was recorded. */
    method Visit(node: Node) returns (count: int)
      requires !IsCounted(countedClass, node)
      modifies this
      decreases node, 1
      ensures minimum == old(minimum)
      ensures count == Score(node, countedClass)
      ensures dataPoints == old(dataPoints) + Points(node, nodeClass, countedClass)
      ensures violations == old(violations) + AsViolations(Points(node, nodeClass, countedClass))
    {
      ghost var points0, violations0 := dataPoints, violations;
      var numNodes := SumChildren(node);
      ghost var below := PointsOf(node.children, nodeClass, countedClass);
      ghost var own := if IsInstance(nodeClass, node.kind) then [DataPoint(node, numNodes as real)] else [];
      assert Points(node, nodeClass, countedClass) == below + own;
      AsViolationsAppend(below, own);
      if IsInstance(nodeClass, node.kind) {
        var point := DataPoint(node, 1.0 * (numNodes as real));
        assert own == [point];
        SinglePointViolations(point);
        dataPoints := dataPoints + [point];
        violations := violations + [Violation(node, point.score)];
      }
      return numNodes;
    }

    /** The loop of `visit`: accept each child in turn and add up what
        each returns. */
    method SumChildren(node: Node) returns (numNodes: int)
      modifies this
      decreases node, 0
      ensures minimum == old(minimum)
      ensures numNodes == SumScores(node.children, countedClass)
      ensures dataPoints == old(dataPoints) + PointsOf(node.children, nodeClass, countedClass)
      ensures violations == old(violations) + AsViolations(PointsOf(node.children, nodeClass, countedClass))
    {
      numNodes := 0;
      ghost var recorded: seq<DataPoint> := [];
      var i := 0;
      while i < |node.children|
        invariant 0 <= i <= |node.children|
        invariant minimum == old(minimum)
        invariant numNodes == SumScores(node.children[..i], countedClass)
        invariant recorded == PointsOf(node.children[..i], nodeClass, countedClass)
        invariant dataPoints == old(dataPoints) + recorded
        invariant violations == old(violations) + AsViolations(recorded)
      {
        var child := node.children[i];
        ghost var next := Points(child, nodeClass, countedClass);
        PrefixStep(node.children, i, nodeClass, countedClass);
        AsViolationsAppend(recorded, next);
        ghost var d1, v1 := dataPoints, violations;
        var treeSize := Accept(child);
        Associate(old(dataPoints), recorded, next, d1, dataPoints);
        Associate(old(violations), AsViolations(recorded), AsViolations(next), v1, violations);
        recorded := recorded + next;
        numNodes := numNodes + treeSize;
        i := i + 1;
      }
      assert node.children[..i] == node.children;
    }
  }
}
