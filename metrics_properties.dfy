/**
 * Properties of the operation loop of `computeWithResultOption`, and the
 * NaN filter the loop evidently intended.
 */
module MetricsProperties {
  import opened MetricValues
  import opened Memoization
  import opened MetricsComputer

  /** Every supported operation contributes exactly one value (NaN
      included, since the `!=` test keeps everything) and unsupported ones
      contribute nothing. */
  lemma {:induction false} CollectedOnePerSupported<O>(ops: seq<O>, key: MetricKey<O>, qualifiedName: O -> string,
                                                       force: bool, options: MetricOptions, memos: map<string, Memo>)
    ensures |CollectFrom(ops, key, qualifiedName, force, options, memos).values| == |Supported(ops, key.supports)|
  {
    if ops != [] {
      CollectedOnePerSupported(ops[..|ops| - 1], key, qualifiedName, force, options, memos);
    }
  }

  /** A forced request computes every supported operation afresh: the
      collected values are the calculator's values, in operation order. */
  lemma {:induction false} ForcedCollectComputesEach<O>(ops: seq<O>, key: MetricKey<O>, qualifiedName: O -> string,
                                                        options: MetricOptions, memos: map<string, Memo>)
    ensures var c := CollectFrom(ops, key, qualifiedName, true, options, memos);
            var sup := Supported(ops, key.supports);
            |c.values| == |sup|
            && forall j :: 0 <= j < |sup| ==> c.values[j] == key.calculator(sup[j], options)
  {
    if ops != [] {
      ForcedCollectComputesEach(ops[..|ops| - 1], key, qualifiedName, options, memos);
    }
  }

  /** An unforced request over operations whose memos already hold the key
      runs no calculator: it returns the stored values, NaN ones included,
      and changes no memo. */
  lemma {:induction false} CollectReusesMemo<O>(ops: seq<O>, key: MetricKey<O>, qualifiedName: O -> string,
                                                options: MetricOptions, memos: map<string, Memo>)
    requires forall j :: 0 <= j < |Supported(ops, key.supports)| ==>
               qualifiedName(Supported(ops, key.supports)[j]) in memos
               && ParamKeyOf(key, options) in memos[qualifiedName(Supported(ops, key.supports)[j])]
    ensures var c := CollectFrom(ops, key, qualifiedName, false, options, memos);
            var sup := Supported(ops, key.supports);
            c.memos == memos && |c.values| == |sup|
            && forall j :: 0 <= j < |sup| ==>
                 c.values[j] == memos[qualifiedName(sup[j])][ParamKeyOf(key, options)]
  {
    if ops != [] {
      var init := ops[..|ops| - 1];
      var sup := Supported(ops, key.supports);
      var sup' := Supported(init, key.supports);
      assert forall j :: 0 <= j < |sup'| ==> sup[j] == sup'[j];
      CollectReusesMemo(init, key, qualifiedName, options, memos);
      var op := ops[|ops| - 1];
      if key.supports(op) {
        var q := qualifiedName(op);
        assert sup[|sup| - 1] == op;
        assert memos[q := memos[q]] == memos;
      }
    }
  }

  /** A qualified name that no supported operation has keeps its memo (or
      its absence). */
  lemma {:induction false} CollectLeavesOtherNames<O>(ops: seq<O>, key: MetricKey<O>, qualifiedName: O -> string,
                                                      force: bool, options: MetricOptions, memos: map<string, Memo>,
                                                      q: string)
    requires forall i :: 0 <= i < |ops| && key.supports(ops[i]) ==> qualifiedName(ops[i]) != q
    ensures var c := CollectFrom(ops, key, qualifiedName, force, options, memos);
            (q in c.memos <==> q in memos) && (q in memos ==> c.memos[q] == memos[q])
  {
    if ops != [] {
      var init := ops[..|ops| - 1];
      assert forall i :: 0 <= i < |init| ==> init[i] == ops[i];
      CollectLeavesOtherNames(init, key, qualifiedName, force, options, memos, q);
    }
  }

  /** When the supported operations have distinct qualified names, each
      name's memo ends up holding the value collected for that operation. */
  lemma {:induction false} CollectStoresEachValue<O>(ops: seq<O>, key: MetricKey<O>, qualifiedName: O -> string,
                                                     force: bool, options: MetricOptions, memos: map<string, Memo>)
    requires forall i, j :: 0 <= i < j < |Supported(ops, key.supports)| ==>
               qualifiedName(Supported(ops, key.supports)[i]) != qualifiedName(Supported(ops, key.supports)[j])
    ensures var c := CollectFrom(ops, key, qualifiedName, force, options, memos);
            var sup := Supported(ops, key.supports);
            |c.values| == |sup|
            && forall j :: 0 <= j < |sup| ==>
                 qualifiedName(sup[j]) in c.memos
                 && ParamKeyOf(key, options) in c.memos[qualifiedName(sup[j])]
                 && c.memos[qualifiedName(sup[j])][ParamKeyOf(key, options)] == c.values[j]
  {
    if ops != [] {
      var init := ops[..|ops| - 1];
      var sup := Supported(ops, key.supports);
      var sup' := Supported(init, key.supports);
      assert forall j :: 0 <= j < |sup'| ==> sup[j] == sup'[j];
      CollectStoresEachValue(init, key, qualifiedName, force, options, memos);
      var op := ops[|ops| - 1];
      if key.supports(op) {
        var q := qualifiedName(op);
        assert sup[|sup| - 1] == op;
        assert forall j :: 0 <= j < |sup'| ==> qualifiedName(sup'[j]) != q by {
          forall j | 0 <= j < |sup'| ensures qualifiedName(sup'[j]) != q {
            assert qualifiedName(sup[j]) != qualifiedName(sup[|sup| - 1]);
          }
        }
      }
    }
  }

  /** Idempotence of the aggregation request: when the supported operations
      have distinct qualified names, a second unforced request after any
      first one collects the same values and leaves the memos as they are. */
  lemma CollectIdempotent<O>(ops: seq<O>, key: MetricKey<O>, qualifiedName: O -> string,
                             force: bool, options: MetricOptions, memos: map<string, Memo>)
    requires forall i, j :: 0 <= i < j < |Supported(ops, key.supports)| ==>
               qualifiedName(Supported(ops, key.supports)[i]) != qualifiedName(Supported(ops, key.supports)[j])
    ensures var c := CollectFrom(ops, key, qualifiedName, force, options, memos);
            CollectFrom(ops, key, qualifiedName, false, options, c.memos) == c
  {
    var c := CollectFrom(ops, key, qualifiedName, force, options, memos);
    CollectStoresEachValue(ops, key, qualifiedName, force, options, memos);
    CollectReusesMemo(ops, key, qualifiedName, options, c.memos);
  }

  /** The values without the NaN entries, in order: what the test
      `val != Double.NaN` was evidently meant to keep. */
  function DropNaN(values: seq<Value>): (r: seq<Value>)
    ensures !HasNaN(r)
    ensures forall i :: 0 <= i < |values| && values[i].Num? ==> values[i] in r
    ensures forall v :: v in r ==> v in values
  {
    if values == [] then []
    else if values[|values| - 1].NaN? then DropNaN(values[..|values| - 1])
    else DropNaN(values[..|values| - 1]) + [values[|values| - 1]]
  }

  /** Every number is kept as many times as it occurs, so the sum of what is
      kept counts a repeated value each time. */
  lemma {:induction false} DropNaNKeepsCounts(values: seq<Value>)
    ensures forall v: Value :: v.Num? ==> multiset(DropNaN(values))[v] == multiset(values)[v]
  {
    if values != [] {
      var init, last := values[..|values| - 1], values[|values| - 1];
      assert values == init + [last];
      DropNaNKeepsCounts(init);
    }
  }

  /** Skipping NaN entries distributes over concatenation, so the kept
      values stay in their order; with `DropNaNSingle` this pins `DropNaN`
      down completely. */
  lemma {:induction false} DropNaNAppend(a: seq<Value>, b: seq<Value>)
    ensures DropNaN(a + b) == DropNaN(a) + DropNaN(b)
    decreases |b|
  {
    if b == [] {
      assert a + b == a;
    } else {
      var init, last := b[..|b| - 1], b[|b| - 1];
      var ab := a + b;
      assert ab[..|ab| - 1] == a + init && ab[|ab| - 1] == last;
      DropNaNAppend(a, init);
      var tail := if last.NaN? then [] else [last];
      DropNaNLast(ab);
      DropNaNLast(b);
      assert DropNaN(ab) == DropNaN(a + init) + tail;
      assert (DropNaN(a) + DropNaN(init)) + tail == DropNaN(a) + (DropNaN(init) + tail);
    }
  }

  /** One unfolding of `DropNaN`: the last value is kept exactly when it is
      a number. */
  lemma DropNaNLast(values: seq<Value>)
    requires values != []
    ensures DropNaN(values) == DropNaN(values[..|values| - 1])
                               + (if values[|values| - 1].NaN? then [] else [values[|values| - 1]])
  {
  }

  /** A single value is kept exactly when it is a number. */
  lemma DropNaNSingle(v: Value)
    ensures DropNaN([v]) == if v.NaN? then [] else [v]
  {
    assert [v][..0] == [];
  }

  /** The reduction over the operations' values with NaN entries skipped. */
  function IntendedAggregate(option: ResultOption, values: seq<Value>): Value
  {
    Aggregate(option, DropNaN(values))
  }

  /** With NaN entries skipped, SUM and HIGHEST always give a number, and
      AVERAGE gives one unless no operation gave a number. */
  lemma IntendedAggregateIsNumber(option: ResultOption, values: seq<Value>)
    ensures option.Sum? || option.Highest? ==> IntendedAggregate(option, values).Num?
    ensures option.Average? ==>
              (IntendedAggregate(option, values).Num? <==> exists i :: 0 <= i < |values| && values[i].Num?)
  {
    var kept := DropNaN(values);
    SumOfIsArithmeticSum(kept);
    if option.Average? && kept != [] {
      assert kept[0] in values;
      var i :| 0 <= i < |values| && values[i] == kept[0];
    }
  }

  /** The calculator of the example below: operation 0 gives NaN, any
      other 2.0. */
  function ExampleCalculator(op: int, options: MetricOptions): Value
  {
    if op == 0 then NaN else Num(2.0)
  }

  function ExampleName(op: int): string
  {
    if op == 0 then "a" else "b"
  }

  predicate SupportsAll(op: int)
  {
    true
  }

  /** The memos after the example's first operation: `a` holds its NaN. */
  lemma ExampleFirstStep()
    ensures CollectFrom([0], MetricKey("m", ExampleCalculator, SupportsAll), ExampleName, false, {}, map[])
            == Collected([NaN], map["a" := map[ParamKey("m", {}) := NaN]])
  {
    var key := MetricKey("m", ExampleCalculator, SupportsAll);
    assert [0][..0] == [];
    assert CollectFrom([], key, ExampleName, false, {}, map[]) == Collected([], map[]);
    assert ParamKeyOf(key, {}) == ParamKey("m", {});
  }

  /** The example's values as written: the NaN of `a` is kept. */
  lemma ExampleCollected()
    ensures CollectFrom([0, 1], MetricKey("m", ExampleCalculator, SupportsAll), ExampleName, false, {}, map[]).values
            == [NaN, Num(2.0)]
  {
    var key := MetricKey("m", ExampleCalculator, SupportsAll);
    assert [0, 1][..1] == [0];
    ExampleFirstStep();
    assert ParamKeyOf(key, {}) == ParamKey("m", {});
    assert MemoFor(map["a" := map[ParamKey("m", {}) := NaN]], "b") == map[];
  }

  /** As written, the SUM of the example's values is NaN. */
  lemma ExampleSumAsWritten()
    ensures SumOf([NaN, Num(2.0)]) == NaN
  {
    assert [NaN, Num(2.0)][..1] == [NaN] && [NaN][..0] == [];
    assert SumOf([NaN]) == NaN;
  }

  /** With the NaN skipped, the SUM of the example's values is 2. */
  lemma ExampleSumIntended()
    ensures SumOf(DropNaN([NaN, Num(2.0)])) == Num(2.0)
  {
    assert [NaN, Num(2.0)] == [NaN] + [Num(2.0)];
    DropNaNAppend([NaN], [Num(2.0)]);
    DropNaNSingle(NaN);
    DropNaNSingle(Num(2.0));
    assert DropNaN([NaN, Num(2.0)]) == [Num(2.0)];
    assert [Num(2.0)][..0] == [];
  }

  /** As written, one operation whose metric is NaN makes the SUM of its
      type NaN: a type with operations `a` (NaN) and `b` (2.0) aggregates to
      NaN, where skipping the NaN gives 2.0. */
  lemma NaNOperationPoisonsSum()
    ensures var c := CollectFrom([0, 1], MetricKey("m", ExampleCalculator, SupportsAll), ExampleName, false, {}, map[]);
            c.values == [NaN, Num(2.0)]
            && Aggregate(Sum, c.values) == NaN
            && IntendedAggregate(Sum, c.values) == Num(2.0)
  {
    ExampleCollected();
    ExampleSumAsWritten();
    ExampleSumIntended();
  }
}
