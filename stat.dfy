/**
 * What a statistical rule records while it walks a tree: data points kept
 * by the rule and violations added to the report.
 */
module Stat {
  import opened JavaAst

  datatype DataPoint = DataPoint(node: Node, score: real)

  /** A violation on a node; its message is the score, formatted. */
  datatype Violation = Violation(node: Node, score: real)

  /** One violation per data point, carrying the point's node and score. */
  function AsViolations(points: seq<DataPoint>): (vs: seq<Violation>)
    ensures |vs| == |points|
    ensures forall i :: 0 <= i < |points| ==> vs[i] == Violation(points[i].node, points[i].score)
  {
    if points == [] then []
    else AsViolations(points[..|points| - 1]) + [Violation(points[|points| - 1].node, points[|points| - 1].score)]
  }

  /** One violation per data point whose score is positive, in order. */
  function PositiveAsViolations(points: seq<DataPoint>): (vs: seq<Violation>)
  {
    if points == [] then []
    else
      var p := points[|points| - 1];
      PositiveAsViolations(points[..|points| - 1]) + (if p.score > 0.0 then [Violation(p.node, p.score)] else [])
  }

  /** The violations are exactly the points with a positive score. */
  lemma {:induction false} PositiveAsViolationsChar(points: seq<DataPoint>)
    ensures forall v :: v in PositiveAsViolations(points) <==> v.score > 0.0 && DataPoint(v.node, v.score) in points
  {
    if points != [] {
      PositiveAsViolationsChar(points[..|points| - 1]);
      assert points == points[..|points| - 1] + [points[|points| - 1]];
    }
  }

  /** What was recorded before a step, followed by what the step records. */
  lemma Associate<T>(start: seq<T>, before: seq<T>, step: seq<T>, mid: seq<T>, after: seq<T>)
    requires mid == start + before && after == mid + step
    ensures after == start + (before + step)
  {
  }

  lemma SinglePointViolations(p: DataPoint)
    ensures AsViolations([p]) == [Violation(p.node, p.score)]
    ensures PositiveAsViolations([p]) == if p.score > 0.0 then [Violation(p.node, p.score)] else []
  {
    assert [p][..0] == [];
  }

  lemma {:induction false} AsViolationsAppend(a: seq<DataPoint>, b: seq<DataPoint>)
    ensures AsViolations(a + b) == AsViolations(a) + AsViolations(b)
  {
    if b != [] {
      assert (a + b)[..|a + b| - 1] == a + b[..|b| - 1];
      AsViolationsAppend(a, b[..|b| - 1]);
    } else {
      assert a + b == a;
    }
  }

  lemma {:induction false} PositiveAsViolationsAppend(a: seq<DataPoint>, b: seq<DataPoint>)
    ensures PositiveAsViolations(a + b) == PositiveAsViolations(a) + PositiveAsViolations(b)
  {
    if b != [] {
      assert (a + b)[..|a + b| - 1] == a + b[..|b| - 1];
      PositiveAsViolationsAppend(a, b[..|b| - 1]);
    } else {
      assert a + b == a;
    }
  }
}
