/**
 * Metric results and their reductions.
 *
 * A metric result is a Java double; here it is a real number or the
 * not-a-number sentinel that a calculator returns when the metric does not
 * apply. Infinities and rounding are not modelled.
 */
module MetricValues {

  datatype Value = NaN | Num(x: real)

  /** The aggregation policies of a type-level metric request. `Other`
      stands for any constant the switch has no case for. */
  datatype ResultOption = Sum | Highest | Average | Other

  /** Java's `+` on doubles: NaN is absorbing. */
  function Add(a: Value, b: Value): (r: Value)
    ensures r.NaN? <==> a.NaN? || b.NaN?
    ensures a.Num? && b.Num? ==> r == Num(a.x + b.x)
  {
    if a.NaN? || b.NaN? then NaN else Num(a.x + b.x)
  }

  /** Java's `/` of a double by an int size: NaN stays NaN, and 0.0 / 0 is NaN.
      Only a zero numerator can meet a zero size here (the sum of nothing). */
  function DivBySize(a: Value, n: nat): Value
  {
    if a.NaN? || n == 0 then NaN else Num(a.x / (n as real))
  }

  /** What the accumulator of the `sum` loop holds after `values`. */
  function SumOf(values: seq<Value>): Value
  {
    if values == [] then Num(0.0) else Add(SumOf(values[..|values| - 1]), values[|values| - 1])
  }

  /** The accumulator of the `highest` loop: negative infinity or a finite double. */
  datatype Running = NegativeInfinity | AtLeast(x: real)

  /** One step of the `highest` loop: `val > highest` is false when `val` is NaN. */
  function StepHighest(h: Running, v: Value): Running
  {
    if v.Num? && (h.NegativeInfinity? || v.x > h.x) then AtLeast(v.x) else h
  }

  function RunningHighest(values: seq<Value>): Running
  {
    if values == [] then NegativeInfinity
    else StepHighest(RunningHighest(values[..|values| - 1]), values[|values| - 1])
  }

  /** `highest`: the loop's accumulator, with negative infinity replaced by 0. */
  function HighestOf(values: seq<Value>): Value
  {
    match RunningHighest(values)
    case NegativeInfinity => Num(0.0)
    case AtLeast(x) => Num(x)
  }

  /** `average`: the sum divided by the number of values. */
  function AverageOf(values: seq<Value>): (r: Value)
    ensures values == [] ==> r == NaN
    ensures HasNaN(values) ==> r == NaN
    ensures values != [] && !HasNaN(values) ==> r == Num(RealSum(values) / (|values| as real))
  {
    SumOfIsArithmeticSum(values);
    DivBySize(SumOf(values), |values|)
  }

  /** The switch over the aggregation policy. */
  function Aggregate(option: ResultOption, values: seq<Value>): Value
  {
    match option
    case Sum => SumOf(values)
    case Highest => HighestOf(values)
    case Average => AverageOf(values)
    case Other => NaN
  }

  predicate HasNaN(values: seq<Value>)
  {
    exists i :: 0 <= i < |values| && values[i].NaN?
  }

  /** The arithmetic sum of a NaN-free list of values. */
  function RealSum(values: seq<Value>): real
    requires !HasNaN(values)
  {
    if values == [] then 0.0 else RealSum(values[..|values| - 1]) + values[|values| - 1].x
  }

  /** The sum is NaN exactly when some value is NaN, and otherwise it is the
      arithmetic sum; in particular the sum of nothing is 0. */
  lemma {:induction false} SumOfIsArithmeticSum(values: seq<Value>)
    ensures SumOf(values).NaN? <==> HasNaN(values)
    ensures !HasNaN(values) ==> SumOf(values) == Num(RealSum(values))
  {
    if values != [] {
      var init := values[..|values| - 1];
      SumOfIsArithmeticSum(init);
      assert forall i :: 0 <= i < |init| ==> init[i] == values[i];
      if HasNaN(init) {
        var i :| 0 <= i < |init| && init[i].NaN?;
        assert values[i].NaN?;
      }
      if HasNaN(values) && !HasNaN(init) {
        assert values[|values| - 1].NaN?;
      }
    }
  }

  /** The running maximum is negative infinity exactly when no value is a
      number; otherwise it is one of the values and no number exceeds it. */
  lemma {:induction false} RunningHighestIsMaximum(values: seq<Value>)
    ensures RunningHighest(values).NegativeInfinity? <==> forall i :: 0 <= i < |values| ==> values[i].NaN?
    ensures RunningHighest(values).AtLeast? ==>
              (exists i :: 0 <= i < |values| && values[i] == Num(RunningHighest(values).x))
              && forall i :: 0 <= i < |values| && values[i].Num? ==> values[i].x <= RunningHighest(values).x
  {
    if values != [] {
      var init := values[..|values| - 1];
      RunningHighestIsMaximum(init);
      assert forall i :: 0 <= i < |init| ==> init[i] == values[i];
      var h := RunningHighest(init);
      var last := |values| - 1;
      if h.AtLeast? {
        var j :| 0 <= j < |init| && init[j] == Num(h.x);
        if RunningHighest(values) == h {
          assert values[j] == Num(h.x);
        } else {
          assert values[last] == Num(RunningHighest(values).x);
        }
      } else if RunningHighest(values).AtLeast? {
        assert values[last] == Num(RunningHighest(values).x);
      }
    }
  }

  /** `highest` is 0 when there is no number among the values (NaN values
      never win the `>` test), and otherwise the largest number among them. */
  lemma HighestOfIsMaximum(values: seq<Value>)
    ensures (forall i :: 0 <= i < |values| ==> values[i].NaN?) ==> HighestOf(values) == Num(0.0)
    ensures (exists i :: 0 <= i < |values| && values[i].Num?) ==>
              HighestOf(values).Num?
              && (exists i :: 0 <= i < |values| && values[i] == HighestOf(values))
              && forall i :: 0 <= i < |values| && values[i].Num? ==> values[i].x <= HighestOf(values).x
  {
    RunningHighestIsMaximum(values);
  }

  /** For operation values 2, 5 and 3: the sum is 10, the highest 5 and the
      average 10/3. */
  lemma AggregationExample()
    ensures Aggregate(Sum, [Num(2.0), Num(5.0), Num(3.0)]) == Num(10.0)
    ensures Aggregate(Highest, [Num(2.0), Num(5.0), Num(3.0)]) == Num(5.0)
    ensures Aggregate(Average, [Num(2.0), Num(5.0), Num(3.0)]) == Num(10.0 / 3.0)
  {
    var vs := [Num(2.0), Num(5.0), Num(3.0)];
    assert vs[..2] == [Num(2.0), Num(5.0)];
    assert vs[..2][..1] == [Num(2.0)];
    assert [Num(2.0)][..0] == [];
    assert SumOf([Num(2.0)]) == Num(2.0);
    assert SumOf(vs[..2]) == Num(7.0);
    assert SumOf(vs) == Num(10.0);
    assert RunningHighest([Num(2.0)]) == AtLeast(2.0);
    assert RunningHighest(vs[..2]) == AtLeast(5.0);
    assert RunningHighest(vs) == AtLeast(5.0);
  }
}
