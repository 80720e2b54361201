/**
 The `Merge` trait on price maps (`BTreeMap<Decimal, Decimal>`, price to
 amount), modelled as Dafny `map<real, real>`. Decimal amounts are exact, so
 `+=` is real addition.
 */
module PriceMaps {
  import opened SortedKeys

  /** A side of one exchange's book: price to amount. */
  type PriceMap = map<real, real>

  /** The amount `m` holds at price `p`, or zero when it has no such level. */
  function AmountAt(m: PriceMap, p: real): real {
    if p in m then m[p] else 0.0
  }

  /** One step of `merge`: insert `v` at `k`, or add `v` to what is already there. */
  function InsertOrIncrement(m: PriceMap, k: real, v: real): (r: PriceMap)
    ensures r.Keys == m.Keys + {k}
    ensures r[k] == AmountAt(m, k) + v
    ensures forall p :: p in m && p != k ==> r[p] == m[p]
  {
    if k in m then m[k := m[k] + v] else m[k := v]
  }

  /**
   The loop of `merge`: visits the entries of `other` at the prices in
   `pending`, smallest first, as `BTreeMap::into_iter` yields them, applying
   `InsertOrIncrement` to `acc`.
   */
  function MergeFrom(acc: PriceMap, other: PriceMap, pending: set<real>): (r: PriceMap)
    requires pending <= other.Keys
    ensures r.Keys == acc.Keys + pending
    ensures forall p :: p in r ==> r[p] == AmountAt(acc, p) + (if p in pending then other[p] else 0.0)
    decreases |pending|
  {
    if pending == {} then acc
    else
      var k := MinOf(pending);
      var next := InsertOrIncrement(acc, k, other[k]);
      var r := MergeFrom(next, other, pending - {k});
      MergeStep(acc, other, pending, k, r);
      r
  }

  /** One visited price moves from `pending` into the accumulated map. */
  lemma MergeStep(acc: PriceMap, other: PriceMap, pending: set<real>, k: real, r: PriceMap)
    requires k in pending && pending <= other.Keys
    requires var next := InsertOrIncrement(acc, k, other[k]);
      && r.Keys == next.Keys + (pending - {k})
      && forall p :: p in r ==> r[p] == AmountAt(next, p) + (if p in pending - {k} then other[p] else 0.0)
    ensures r.Keys == acc.Keys + pending
    ensures forall p :: p in r ==> r[p] == AmountAt(acc, p) + (if p in pending then other[p] else 0.0)
  {
    var next := InsertOrIncrement(acc, k, other[k]);
    forall p | p in r
      ensures r[p] == AmountAt(acc, p) + (if p in pending then other[p] else 0.0)
    {
      if p != k {
        assert AmountAt(next, p) == AmountAt(acc, p);
      }
    }
  }

  /**
   `merge`: every entry of `other`, in ascending price order, is inserted
   into `m`, or added onto the amount `m` already holds at that price.
   */
  function Merge(m: PriceMap, other: PriceMap): (r: PriceMap)
    ensures r.Keys == m.Keys + other.Keys
    ensures forall p :: p in m && p in other ==> r[p] == m[p] + other[p]
    ensures forall p :: p in m && p !in other ==> r[p] == m[p]
    ensures forall p :: p !in m && p in other ==> r[p] == other[p]
  {
    MergeFrom(m, other, other.Keys)
  }

  /** Summing is symmetric: the two exchanges may be merged in either order. */
  lemma MergeCommutes(a: PriceMap, b: PriceMap)
    ensures Merge(a, b) == Merge(b, a)
  {
    var l, r := Merge(a, b), Merge(b, a);
    assert l.Keys == r.Keys;
    forall p | p in l
      ensures l[p] == r[p]
    {
    }
  }

  /** Merging in an empty book changes nothing. */
  lemma MergeEmpty(a: PriceMap)
    ensures Merge(a, map[]) == a
    ensures Merge(map[], a) == a
  {
  }

  /**
   `merge_and_keep`: merges `other` into `m`, then, when more than `i`
   prices remain, cuts the map at its `i`-th smallest price, keeping only
   the prices below it (`BTreeMap::split_off` hands back the rest).
   */
  function MergeAndKeep(m: PriceMap, other: PriceMap, i: nat): (r: PriceMap)
    ensures var merged := Merge(m, other);
      && r.Keys <= merged.Keys
      && (forall p :: p in r ==> r[p] == merged[p])
      && |r| == Min(i, |merged|)
      && (forall p, q :: p in r && q in merged && q !in r ==> p < q)
  {
    var merged := Merge(m, other);
    if |merged| > i then
      var ks := Ascending(merged.Keys);
      var key := ks[i];
      var r := map p | p in merged && p < key :: merged[p];
      KeptBelowCut(merged, ks, i, r);
      r
    else
      merged
  }

  /** Cutting a map below its `i`-th smallest key keeps exactly its `i` smallest keys. */
  lemma KeptBelowCut(merged: PriceMap, ks: seq<real>, i: nat, r: PriceMap)
    requires ks == Ascending(merged.Keys)
    requires i < |ks|
    requires r == map p | p in merged && p < ks[i] :: merged[p]
    ensures |r| == i
    ensures forall p, q :: p in r && q in merged && q !in r ==> p < q
  {
    assert r.Keys == Elems(ks[..i]) by {
      forall x
        ensures x in r <==> x in ks[..i]
      {
        BelowIsPrefix(ks, i, x);
      }
    }
    ElemsOfAscending(ks[..i]);
  }
}
