/**
 * The metrics computer: "look up, else compute and store" requests on a
 * memoizer, and type-level requests that aggregate the metric of every
 * operation of a type.
 *
 * The language-specific parts are parameters: `findOperations` lists the
 * operations declared in a type node, `qualifiedName` gives an operation's
 * qualified name, and a metric key carries its calculator and its support
 * predicate.
 */
module MetricsComputer {
  import opened MetricValues
  import opened Memoization

  /** `computeForType`: the memoized value when present and not forced;
      otherwise the calculator's value, which is then stored. */
  method ComputeForType<T>(key: MetricKey<T>, node: T, force: bool, options: MetricOptions,
                           memoizer: MetricMemoizer)
    returns (r: Value, ghost calculated: bool)
    modifies memoizer
    ensures Computation(r, memoizer.memo, calculated)
            == Compute(old(memoizer.memo), ParamKeyOf(key, options), force, key.calculator(node, options))
  {
    var paramKey := ParamKeyOf(key, options);
    var prev := memoizer.GetMemo(paramKey);
    if !force && prev.Some? {
      return prev.value, false;
    }
    var val := key.calculator(node, options);
    memoizer.Memoize(paramKey, val);
    return val, true;
  }

  /** `computeForOperation`: the same request on an operation node. */
  method ComputeForOperation<O>(key: MetricKey<O>, node: O, force: bool, options: MetricOptions,
                                memoizer: MetricMemoizer)
    returns (r: Value, ghost calculated: bool)
    modifies memoizer
    ensures Computation(r, memoizer.memo, calculated)
            == Compute(old(memoizer.memo), ParamKeyOf(key, options), force, key.calculator(node, options))
  {
    var paramKey := ParamKeyOf(key, options);
    var prev := memoizer.GetMemo(paramKey);
    if !force && prev.Some? {
      return prev.value, false;
    }
    var val := key.calculator(node, options);
    memoizer.Memoize(paramKey, val);
    return val, true;
  }

  /** Two unforced requests in a row: the second returns what the first did,
      does not run the calculator and leaves the memo as the first left it. */
  method ComputeTwice<T>(key: MetricKey<T>, node: T, options: MetricOptions, memoizer: MetricMemoizer)
    returns (first: Value, second: Value)
    modifies memoizer
    ensures second == first
    ensures ParamKeyOf(key, options) in memoizer.memo && memoizer.memo[ParamKeyOf(key, options)] == first
  {
    ghost var c1, c2;
    first, c1 := ComputeForType(key, node, false, options, memoizer);
    ghost var afterFirst := memoizer.memo;
    second, c2 := ComputeForType(key, node, false, options, memoizer);
    assert !c2 && memoizer.memo == afterFirst;
  }

  /** Java's `!=` on doubles: every comparison with NaN is unequal. */
  predicate DoubleNotEqual(a: Value, b: Value)
  {
    a.NaN? || b.NaN? || a.x != b.x
  }

  /** The test `val != Double.NaN` holds of every value, NaN included. */
  lemma NotEqualNaNAlwaysHolds(v: Value)
    ensures DoubleNotEqual(v, NaN)
  {
  }

  /** The operations the key supports, in the given order. */
  function Supported<O>(ops: seq<O>, supports: O -> bool): (sup: seq<O>)
    ensures |sup| <= |ops|
  {
    if ops == [] then []
    else Supported(ops[..|ops| - 1], supports)
         + (if supports(ops[|ops| - 1]) then [ops[|ops| - 1]] else [])
  }

  /** The values collected so far and the operation memos of the project. */
  datatype Collected = Collected(values: seq<Value>, memos: map<string, Memo>)

  function MemoFor(memos: map<string, Memo>, q: string): Memo
  {
    if q in memos then memos[q] else map[]
  }

  /** The operation loop of `computeWithResultOption` over `ops`, starting
      from the project memos `memos`: for each supported operation, the
      request against the memo of its qualified name (an empty one when the
      name is new) and the value appended (the `!=` NaN test keeps it). */
  function CollectFrom<O>(ops: seq<O>, key: MetricKey<O>, qualifiedName: O -> string, force: bool,
                          options: MetricOptions, memos: map<string, Memo>): Collected
  {
    if ops == [] then Collected([], memos)
    else
      var c := CollectFrom(ops[..|ops| - 1], key, qualifiedName, force, options, memos);
      var op := ops[|ops| - 1];
      if !key.supports(op) then c
      else
        var q := qualifiedName(op);
        var step := Compute(MemoFor(c.memos, q), ParamKeyOf(key, options), force, key.calculator(op, options));
        Collected(c.values + (if DoubleNotEqual(step.value, NaN) then [step.value] else []), c.memos[q := step.memo])
  }

  /** `computeWithResultOption`: collect the metric of every supported
      operation of `node`, memoized per qualified name, and reduce the values
      by the requested policy. */
  method ComputeWithResultOption<T, O>(key: MetricKey<O>, node: T, force: bool, options: MetricOptions,
                                       option: ResultOption, stats: ProjectMemoizer,
                                       findOperations: T -> seq<O>, qualifiedName: O -> string)
    returns (r: Value)
    requires stats.Valid()
    modifies stats, stats.Repr
    ensures stats.Valid() && old(stats.Repr) <= stats.Repr && fresh(stats.Repr - old(stats.Repr))
    ensures r == Aggregate(option, CollectFrom(findOperations(node), key, qualifiedName, force, options,
                                               old(stats.Memos())).values)
    ensures stats.Memos() == CollectFrom(findOperations(node), key, qualifiedName, force, options,
                                         old(stats.Memos())).memos
  {
    var ops := findOperations(node);
    var values: seq<Value> := [];
    for i := 0 to |ops|
      invariant stats.Valid() && old(stats.Repr) <= stats.Repr && fresh(stats.Repr - old(stats.Repr))
      invariant CollectFrom(ops[..i], key, qualifiedName, force, options, old(stats.Memos()))
                == Collected(values, stats.Memos())
    {
      assert ops[..i + 1][..i] == ops[..i];
      var op := ops[i];
      if key.supports(op) {
        var val := MemoizeOperation(key, op, force, options, stats, qualifiedName);
        if DoubleNotEqual(val, NaN) {
          values := values + [val];
        }
      }
    }
    assert ops[..|ops|] == ops;
    match option
    case Sum => r := Sum(values);
    case Highest => r := Highest(values);
    case Average => r := Average(values);
    case Other => r := NaN;
  }

  /** One supported operation of the loop: fetch the memoizer registered under the
      operation's qualified name and run the request against it; only that
      name's memo changes. */
  method MemoizeOperation<O>(key: MetricKey<O>, op: O, force: bool, options: MetricOptions,
                             stats: ProjectMemoizer, qualifiedName: O -> string)
    returns (val: Value)
    requires stats.Valid()
    modifies stats, stats.Repr
    ensures stats.Valid() && old(stats.Repr) <= stats.Repr && fresh(stats.Repr - old(stats.Repr))
    ensures val == Compute(MemoFor(old(stats.Memos()), qualifiedName(op)), ParamKeyOf(key, options), force,
                           key.calculator(op, options)).value
    ensures stats.Memos() == old(stats.Memos())[qualifiedName(op) :=
              Compute(MemoFor(old(stats.Memos()), qualifiedName(op)), ParamKeyOf(key, options), force,
                      key.calculator(op, options)).memo]
  {
    var q := qualifiedName(op);
    var opStats := stats.GetOperationMemoizer(q);
    ghost var fetched := stats.Memos();
    assert fetched[q] == MemoFor(old(stats.Memos()), q);
    ghost var calculated;
    val, calculated := ComputeForOperation(key, op, force, options, opStats);
    forall q' | q' in stats.operations
      ensures stats.Memos()[q'] == fetched[q := opStats.memo][q']
    {
      if q' != q {
        assert stats.operations[q'] != opStats;
      }
    }
    assert stats.Memos() == fetched[q := opStats.memo];
  }

  /** `sum`: the loop adding up the values from 0. */
  method Sum(values: seq<Value>) returns (r: Value)
    ensures r == SumOf(values)
    ensures r.NaN? <==> HasNaN(values)
    ensures !HasNaN(values) ==> r == Num(RealSum(values))
  {
    r := Num(0.0);
    for i := 0 to |values|
      invariant r == SumOf(values[..i])
    {
      assert values[..i + 1][..i] == values[..i];
      r := Add(r, values[i]);
    }
    assert values[..|values|] == values;
    SumOfIsArithmeticSum(values);
  }

  /** `highest`: the loop keeping the largest value seen, from negative
      infinity, which is reported as 0 when nothing beat it. */
  method Highest(values: seq<Value>) returns (r: Value)
    ensures r == HighestOf(values)
    ensures (forall i :: 0 <= i < |values| ==> values[i].NaN?) ==> r == Num(0.0)
    ensures (exists i :: 0 <= i < |values| && values[i].Num?) ==>
              (exists i :: 0 <= i < |values| && values[i] == r)
              && forall i :: 0 <= i < |values| && values[i].Num? ==> values[i].x <= r.x
  {
    var highest := NegativeInfinity;
    for i := 0 to |values|
      invariant highest == RunningHighest(values[..i])
    {
      assert values[..i + 1][..i] == values[..i];
      var val := values[i];
      if val.Num? && (highest.NegativeInfinity? || val.x > highest.x) {
        highest := AtLeast(val.x);
      }
    }
    assert values[..|values|] == values;
    r := if highest.NegativeInfinity? then Num(0.0) else Num(highest.x);
    HighestOfIsMaximum(values);
  }

  /** `average`: the sum divided by the number of values; NaN for no values. */
  method Average(values: seq<Value>) returns (r: Value)
    ensures r == AverageOf(values)
    ensures values == [] ==> r == NaN
    ensures HasNaN(values) ==> r == NaN
    ensures values != [] && !HasNaN(values) ==> r == Num(RealSum(values) / (|values| as real))
  {
    var s := Sum(values);
    r := DivBySize(s, |values|);
  }
}
