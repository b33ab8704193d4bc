/**
 * The "excessive class length" rule: every type declaration gets a data
 * point scored by its line span, and a violation when that span is positive;
 * the walk goes on into every child, so nested types are scored on their own.
 */
module ExcessiveClassLength {
  import opened JavaAst
  import opened Stat

  /** The data point of one node: its line span, for a type declaration. */
  function OwnPoint(n: Node): seq<DataPoint>
  {
    if IsInstance(AnyTypeDeclarationClass, n.kind) then [DataPoint(n, 1.0 * ((n.endLine - n.beginLine) as real))] else []
  }

  /** The data points the rule records below and at a node, in the order it
      records them: the node first, then its children left to right. */
  function LengthPoints(n: Node): seq<DataPoint>
    decreases n, 1
  {
    OwnPoint(n) + LengthPointsOf(n.children)
  }

  function LengthPointsOf(cs: seq<Node>): seq<DataPoint>
    decreases cs, 0
  {
    if cs == [] then [] else LengthPointsOf(cs[..|cs| - 1]) + LengthPoints(cs[|cs| - 1])
  }

  /** The data points of a list of nodes taken one by one. */
  function PointsFor(ns: seq<Node>): seq<DataPoint>
  {
    if ns == [] then [] else PointsFor(ns[..|ns| - 1]) + OwnPoint(ns[|ns| - 1])
  }

  lemma {:induction false} PointsForAppend(a: seq<Node>, b: seq<Node>)
    ensures PointsFor(a + b) == PointsFor(a) + PointsFor(b)
  {
    if b != [] {
      assert (a + b)[..|a + b| - 1] == a + b[..|b| - 1];
      PointsForAppend(a, b[..|b| - 1]);
    } else {
      assert a + b == a;
    }
  }

  /** The rule records one data point per type declaration of the tree, in
      pre-order, nested ones included, however small their span. */
  lemma {:induction false} LengthPointsPerTypeDeclaration(n: Node)
    ensures LengthPoints(n) == PointsFor(AllNodes(n))
    decreases n, 1
  {
    var below := AllNodesOf(n.children);
    LengthPointsOfPerTypeDeclaration(n.children);
    PointsForAppend([n], below);
    assert PointsFor([n]) == OwnPoint(n) by {
      assert [n][..0] == [];
    }
    assert LengthPoints(n) == OwnPoint(n) + PointsFor(below);
    assert AllNodes(n) == [n] + below;
  }

  lemma {:induction false} LengthPointsOfPerTypeDeclaration(cs: seq<Node>)
    ensures LengthPointsOf(cs) == PointsFor(AllNodesOf(cs))
    decreases cs, 0
  {
    if cs != [] {
      LengthPointsOfPerTypeDeclaration(cs[..|cs| - 1]);
      LengthPointsPerTypeDeclaration(cs[|cs| - 1]);
      PointsForAppend(AllNodesOf(cs[..|cs| - 1]), AllNodes(cs[|cs| - 1]));
    }
  }

  /** Every data point is a type declaration of the tree scored by its span. */
  lemma PointsAreTypeDeclarationSpans(n: Node)
    ensures forall p :: p in LengthPoints(n) ==>
              p.node in AllNodes(n) && IsInstance(AnyTypeDeclarationClass, p.node.kind)
              && p.score == (p.node.endLine - p.node.beginLine) as real
    ensures forall m :: m in AllNodes(n) && IsInstance(AnyTypeDeclarationClass, m.kind) ==>
              DataPoint(m, (m.endLine - m.beginLine) as real) in LengthPoints(n)
  {
    LengthPointsPerTypeDeclaration(n);
    PointsForChar(AllNodes(n));
  }

  lemma {:induction false} PointsForChar(ns: seq<Node>)
    ensures forall p :: p in PointsFor(ns) <==>
              p.node in ns && IsInstance(AnyTypeDeclarationClass, p.node.kind)
              && p.score == (p.node.endLine - p.node.beginLine) as real
  {
    if ns != [] {
      PointsForChar(ns[..|ns| - 1]);
      assert ns == ns[..|ns| - 1] + [ns[|ns| - 1]];
    }
  }

  /** A violation is added exactly for each type declaration of the tree
      whose span is positive, carrying that span. */
  lemma ViolationsArePositiveSpans(n: Node)
    ensures forall v :: v in PositiveAsViolations(LengthPoints(n)) <==>
              v.node in AllNodes(n) && IsInstance(AnyTypeDeclarationClass, v.node.kind)
              && v.score == (v.node.endLine - v.node.beginLine) as real && v.score > 0.0
  {
    PositiveAsViolationsChar(LengthPoints(n));
    PointsAreTypeDeclarationSpans(n);
  }

  /** A class spanning lines 10 to 1011 is scored 1001 and reported. */
  lemma ClassLengthExample(c: Node)
    requires c == Node(ClassOrInterfaceDeclaration, 10, 1011, [])
    ensures LengthPoints(c) == [DataPoint(c, 1001.0)]
    ensures PositiveAsViolations(LengthPoints(c)) == [Violation(c, 1001.0)]
  {
    assert LengthPoints(c) == [DataPoint(c, 1001.0)];
    SinglePointViolations(DataPoint(c, 1001.0));
  }

  lemma PrefixStep(cs: seq<Node>, i: nat)
    requires i < |cs|
    ensures LengthPointsOf(cs[..i + 1]) == LengthPointsOf(cs[..i]) + LengthPoints(cs[i])
  {
    assert cs[..i + 1][..i] == cs[..i];
  }

  class ExcessiveClassLengthRule {
    const nodeClass: NodeClass := AnyTypeDeclarationClass
    var minimum: real
    var dataPoints: seq<DataPoint>
    var violations: seq<Violation>

    /** Targets type declarations, minimum 1. */
    constructor ()
      ensures nodeClass == AnyTypeDeclarationClass && minimum == 1.0
      ensures dataPoints == [] && violations == []
    {
      minimum := 1.0;
      dataPoints, violations := [], [];
    }

    /** `visit(JavaNode)`: score a type declaration by its span, record the
        point, add a violation when the score is positive, then visit every
        child. */
    method Visit(node: Node)
      modifies this
      decreases node, 1
      ensures minimum == old(minimum)
      ensures dataPoints == old(dataPoints) + LengthPoints(node)
      ensures violations == old(violations) + PositiveAsViolations(LengthPoints(node))
    {
      ghost var own := OwnPoint(node);
      ghost var below := LengthPointsOf(node.children);
      assert LengthPoints(node) == own + below;
      PositiveAsViolationsAppend(own, below);
      if IsInstance(nodeClass, node.kind) {
        var point := DataPoint(node, 1.0 * ((node.endLine - node.beginLine) as real));
        assert own == [point];
        SinglePointViolations(point);
        dataPoints := dataPoints + [point];
        var result := point.score;
        if result > 0.0 {
          violations := violations + [Violation(node, result)];
        }
      } else {
        assert own == [];
      }
      ghost var points1, violations1 := dataPoints, violations;
      ChildrenAccept(node);
      Associate(old(dataPoints), own, below, points1, dataPoints);
      Associate(old(violations), PositiveAsViolations(own), PositiveAsViolations(below), violations1, violations);
    }

    /** `childrenAccept`: visit the children left to right. */
    method ChildrenAccept(node: Node)
      modifies this
      decreases node, 0
      ensures minimum == old(minimum)
      ensures dataPoints == old(dataPoints) + LengthPointsOf(node.children)
      ensures violations == old(violations) + PositiveAsViolations(LengthPointsOf(node.children))
    {
      var i := 0;
      while i < |node.children|
        invariant 0 <= i <= |node.children|
        invariant minimum == old(minimum)
        invariant dataPoints == old(dataPoints) + LengthPointsOf(node.children[..i])
        invariant violations == old(violations) + PositiveAsViolations(LengthPointsOf(node.children[..i]))
      {
        var child := node.children[i];
        ghost var before := LengthPointsOf(node.children[..i]);
        PrefixStep(node.children, i);
        PositiveAsViolationsAppend(before, LengthPoints(child));
        ghost var d1, v1 := dataPoints, violations;
        Visit(child);
        Associate(old(dataPoints), before, LengthPoints(child), d1, dataPoints);
        Associate(old(violations), PositiveAsViolations(before), PositiveAsViolations(LengthPoints(child)), v1, violations);
        i := i + 1;
      }
      assert node.children[..i] == node.children;
    }
  }
}
