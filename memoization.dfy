/**
 * Metric keys and the per-node memoizers that cache metric results.
 */
module Memoization {
  import opened Wrappers
  import opened MetricValues

  /** An option set: order-insensitive, equal when it holds the same options. */
  type MetricOptions = set<string>

  /** A metric key over nodes of type N: its name, its calculator and the
      predicate saying for which nodes it can be computed. */
  datatype MetricKey<!N> = MetricKey(name: string, calculator: (N, MetricOptions) -> Value, supports: N -> bool)

  /** The memoization key. Structural equality stands for the interning of
      equal (key, options) pairs: two keys built from the same name and the
      same options are the same key. */
  datatype ParamKey = ParamKey(metric: string, options: MetricOptions)

  function ParamKeyOf<N>(key: MetricKey<N>, options: MetricOptions): (pk: ParamKey)
    ensures pk.metric == key.name && pk.options == options
  {
    ParamKey(key.name, options)
  }

  type Memo = map<ParamKey, Value>

  /** The outcome of one "look up, else compute and store" request: the value
      returned, the memo afterwards, and whether the calculator ran; `computed`
      is what the calculator gives for the node and options. */
  datatype Computation = Computation(value: Value, memo: Memo, calculated: bool)

  function Compute(memo: Memo, pk: ParamKey, force: bool, computed: Value): Computation
  {
    if !force && pk in memo then Computation(memo[pk], memo, false)
    else Computation(computed, memo[pk := computed], true)
  }

  /** A present entry short-circuits an unforced request, whatever it holds:
      the stored value comes back and the memo is unchanged. */
  lemma ComputeHit(memo: Memo, pk: ParamKey, computed: Value)
    requires pk in memo
    ensures Compute(memo, pk, false, computed) == Computation(memo[pk], memo, false)
  {
  }

  /** A stored NaN is present: it is returned and not recomputed. */
  lemma StoredNaNIsPresent(memo: Memo, pk: ParamKey, computed: Value)
    requires pk in memo && memo[pk] == NaN
    ensures Compute(memo, pk, false, computed).value == NaN
    ensures !Compute(memo, pk, false, computed).calculated
  {
  }

  /** A forced request, or one whose key is absent, returns the calculator's
      value, stores it under the key and leaves every other entry alone. */
  lemma ComputeMiss(memo: Memo, pk: ParamKey, force: bool, computed: Value)
    requires force || pk !in memo
    ensures var c := Compute(memo, pk, force, computed);
            c.value == computed && c.calculated
            && pk in c.memo && c.memo[pk] == computed
            && c.memo.Keys == memo.Keys + {pk}
            && forall k :: k in memo && k != pk ==> c.memo[k] == memo[k]
  {
  }

  /** After any request, an unforced repeat returns the same value without
      running the calculator, whatever the calculator would now return. */
  lemma ComputeIdempotent(memo: Memo, pk: ParamKey, force: bool, computed: Value, later: Value)
    ensures var c := Compute(memo, pk, force, computed);
            Compute(c.memo, pk, false, later) == Computation(c.value, c.memo, false)
  {
  }

  /** The per-node cache from (metric, options) to result. */
  class MetricMemoizer {
    var memo: Memo

    constructor ()
      ensures memo == map[]
    {
      memo := map[];
    }

    /** `getMemo`: the stored value, or None when the key was never stored. */
    method GetMemo(pk: ParamKey) returns (prev: Option<Value>)
      ensures prev.Some? <==> pk in memo
      ensures prev.Some? ==> prev.value == memo[pk]
    {
      prev := if pk in memo then Some(memo[pk]) else None;
    }

    method Memoize(pk: ParamKey, v: Value)
      modifies this
      ensures memo == old(memo)[pk := v]
    {
      memo := memo[pk := v];
    }
  }

  /** Adding a new key adds its value to the map's values. */
  lemma AddedValue<K, V>(mp: map<K, V>, k: K, v: V)
    requires k !in mp
    ensures mp[k := v].Values == mp.Values + {v}
  {
    var updated := mp[k := v];
    forall o | o in mp.Values ensures o in updated.Values {
      var q :| q in mp && mp[q] == o;
      assert updated[q] == o;
    }
    assert updated[k] == v;
  }

  /** The registry of operation memoizers of one analysis, by qualified name.
      Each name gets its own memoizer, created empty on first request. */
  class ProjectMemoizer {
    var operations: map<string, MetricMemoizer>
    ghost var Repr: set<MetricMemoizer>

    ghost predicate Valid()
      reads this
    {
      && operations.Values == Repr
      && forall q, q' :: q in operations && q' in operations && q != q' ==> operations[q] != operations[q']
    }

    /** The memo of every registered operation. */
    ghost function Memos(): map<string, Memo>
      reads this, Repr
      requires Valid()
    {
      map q | q in operations :: operations[q].memo
    }

    constructor ()
      ensures Valid() && Memos() == map[] && Repr == {}
    {
      operations := map[];
      Repr := {};
    }

    method GetOperationMemoizer(qname: string) returns (m: MetricMemoizer)
      requires Valid()
      modifies this
      ensures Valid() && m in Repr
      ensures qname in operations && operations[qname] == m
      ensures old(Repr) <= Repr && fresh(Repr - old(Repr))
      ensures Memos() == if qname in old(Memos()) then old(Memos()) else old(Memos())[qname := map[]]
    {
      if qname in operations {
        m := operations[qname];
      } else {
        m := new MetricMemoizer();
        AddedValue(operations, qname, m);
        operations := operations[qname := m];
        Repr := Repr + {m};
        assert Memos() == old(Memos())[qname := map[]];
      }
    }
  }
}
