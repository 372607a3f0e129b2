/**
 An insertion-ordered map kept as an association list. This is the shape of a PHP
 array that is only ever written with `$a[$k] = $v`: a new key is appended at the end,
 and writing an existing key replaces its value but keeps its position.
 */
module OrderedMap {
  import opened Wrappers

  type OMap<K, V> = seq<(K, V)>

  /** The keys, in position order (PHP `array_keys`). */
  function Keys<K, V>(m: seq<(K, V)>): (ks: seq<K>)
    ensures |ks| == |m|
    ensures forall i :: 0 <= i < |m| ==> ks[i] == m[i].0
  {
    seq(|m|, i requires 0 <= i < |m| => m[i].0)
  }

  /** The values, in position order (PHP `array_values`). */
  function Values<K, V>(m: OMap<K, V>): (vs: seq<V>)
    ensures |vs| == |m|
    ensures forall i :: 0 <= i < |m| ==> vs[i] == m[i].1
  {
    seq(|m|, i requires 0 <= i < |m| => m[i].1)
  }

  /** No key occurs at two positions. */
  predicate DistinctKeys<K(==), V>(m: OMap<K, V>) {
    forall i, j :: 0 <= i < j < |m| ==> m[i].0 != m[j].0
  }

  /** The position of the first occurrence of `k` in `ks`. */
  function FirstIndex<K(==)>(ks: seq<K>, k: K): (i: nat)
    requires k in ks
    ensures i < |ks| && ks[i] == k
    ensures k !in ks[..i]
  {
    if ks[0] == k then 0 else 1 + FirstIndex(ks[1..], k)
  }

  /** The value stored under `k` (PHP `$a[$k] ?? null`). */
  function Get<K(==), V>(m: OMap<K, V>, k: K): (r: Option<V>)
    ensures r.Some? <==> k in Keys(m)
    ensures r.Some? ==> (k, r.value) in m
  {
    if k in Keys(m) then Some(m[FirstIndex(Keys(m), k)].1) else None
  }

  /** `$a[$k] = $v`: overwrite in place when `k` is present, append otherwise. */
  function Put<K(==,!new), V>(m: OMap<K, V>, k: K, v: V): (r: OMap<K, V>)
    ensures k in Keys(m) ==> Keys(r) == Keys(m)
    ensures k !in Keys(m) ==> r == m + [(k, v)] && Keys(r) == Keys(m) + [k]
    ensures Get(r, k) == Some(v)
    ensures forall k' :: k' != k ==> Get(r, k') == Get(m, k')
    ensures forall e :: e in r ==> e in m || e == (k, v)
    ensures DistinctKeys(m) ==> DistinctKeys(r)
  {
    if k in Keys(m) then
      var r := m[FirstIndex(Keys(m), k) := (k, v)];
      PutOverwrite(m, k, v, r);
      r
    else
      var r := m + [(k, v)];
      PutAppend(m, k, v, r);
      r
  }

  lemma PutOverwrite<K(!new), V>(m: OMap<K, V>, k: K, v: V, r: OMap<K, V>)
    requires k in Keys(m) && r == m[FirstIndex(Keys(m), k) := (k, v)]
    ensures Keys(r) == Keys(m)
    ensures Get(r, k) == Some(v)
    ensures forall k' :: k' != k ==> Get(r, k') == Get(m, k')
    ensures forall e :: e in r ==> e in m || e == (k, v)
    ensures DistinctKeys(m) ==> DistinctKeys(r)
  {
    assert Keys(r) == Keys(m);
  }

  lemma PutAppend<K(!new), V>(m: OMap<K, V>, k: K, v: V, r: OMap<K, V>)
    requires k !in Keys(m) && r == m + [(k, v)]
    ensures Keys(r) == Keys(m) + [k]
    ensures Get(r, k) == Some(v)
    ensures forall k' :: k' != k ==> Get(r, k') == Get(m, k')
    ensures forall e :: e in r ==> e in m || e == (k, v)
    ensures DistinctKeys(m) ==> DistinctKeys(r)
  {
    assert Keys(r) == Keys(m) + [k];
    forall k' | k' in Keys(m)
      ensures FirstIndex(Keys(r), k') == FirstIndex(Keys(m), k')
    {
      FirstIndexAppend(Keys(m), k, k');
    }
  }

  /**
   The value the last write of `k` in `ps` stored, if `ps` writes `k` at all.
   */
  function LastWrite<K(==), V>(ps: seq<(K, V)>, k: K): (r: Option<V>)
    ensures r.Some? <==> k in Keys(ps)
    ensures r.Some? ==> exists i :: 0 <= i < |ps| && ps[i] == (k, r.value) && k !in Keys(ps[i + 1..])
  {
    if |ps| == 0 then None
    else
      var n := |ps| - 1;
      assert ps == ps[..n] + [ps[n]];
      assert Keys(ps) == Keys(ps[..n]) + [ps[n].0];
      if ps[n].0 == k then
        assert ps[n + 1..] == [];
        Some(ps[n].1)
      else
        var r := LastWrite(ps[..n], k);
        LastWriteExtend(ps[..n], ps[n], k, r);
        r
  }

  lemma LastWriteExtend<K, V>(init: seq<(K, V)>, last: (K, V), k: K, r: Option<V>)
    requires last.0 != k
    requires r.Some? ==> exists i :: 0 <= i < |init| && init[i] == (k, r.value) && k !in Keys(init[i + 1..])
    ensures r.Some? ==> exists i :: 0 <= i < |init + [last]| && (init + [last])[i] == (k, r.value)
                                     && k !in Keys((init + [last])[i + 1..])
  {
    if r.Some? {
      var i :| 0 <= i < |init| && init[i] == (k, r.value) && k !in Keys(init[i + 1..]);
      assert (init + [last])[i] == init[i];
      assert (init + [last])[i + 1..] == init[i + 1..] + [last];
      assert Keys((init + [last])[i + 1..]) == Keys(init[i + 1..]) + [last.0];
    }
  }

  /** The writes `ps` applied in order, as a `foreach` loop of `$a[$k] = $v` does. */
  function PutAll<K(==,!new), V>(m: OMap<K, V>, ps: seq<(K, V)>): (r: OMap<K, V>)
    ensures DistinctKeys(m) ==> DistinctKeys(r)
    ensures |r| <= |m| + |ps|
    ensures Keys(m) <= Keys(r)
    ensures forall e :: e in r ==> e in m || e in ps
    decreases |ps|
  {
    if |ps| == 0 then m
    else
      var n := |ps| - 1;
      var init := PutAll(m, ps[..n]);
      var r := Put(init, ps[n].0, ps[n].1);
      PutAllStep(m, ps, init, r);
      r
  }

  lemma PutAllStep<K(!new), V>(m: OMap<K, V>, ps: seq<(K, V)>, init: OMap<K, V>, r: OMap<K, V>)
    requires |ps| > 0
    requires DistinctKeys(m) ==> DistinctKeys(init)
    requires |init| <= |m| + |ps| - 1
    requires Keys(m) <= Keys(init)
    requires forall e :: e in init ==> e in m || e in ps[..|ps| - 1]
    requires r == Put(init, ps[|ps| - 1].0, ps[|ps| - 1].1)
    ensures DistinctKeys(m) ==> DistinctKeys(r)
    ensures |r| <= |m| + |ps|
    ensures Keys(m) <= Keys(r)
    ensures forall e :: e in r ==> e in m || e in ps
  {
    var n := |ps| - 1;
    assert ps == ps[..n] + [ps[n]];
    assert Keys(init) <= Keys(r);
  }

  /**
   After a run of writes, a key holds the value of its last write, and a key the run
   never wrote holds what it held before.
   */
  lemma {:induction false} PutAllGet<K(!new), V>(m: OMap<K, V>, ps: seq<(K, V)>, k: K)
    ensures Get(PutAll(m, ps), k) == LastWrite(ps, k).OrElse(Get(m, k))
  {
    if |ps| > 0 {
      var n := |ps| - 1;
      PutAllGet(m, ps[..n], k);
    }
  }

  /** After a run of writes, the keys present are those present before plus those written. */
  lemma PutAllKeys<K(!new), V>(m: OMap<K, V>, ps: seq<(K, V)>, k: K)
    ensures k in Keys(PutAll(m, ps)) <==> k in Keys(m) || k in Keys(ps)
  {
    PutAllGet(m, ps, k);
  }

  lemma KeysOfPrefix<K, V>(ps: seq<(K, V)>)
    requires |ps| > 0
    ensures Keys(ps) == Keys(ps[..|ps| - 1]) + [ps[|ps| - 1].0]
  {
  }

  lemma GetOfDistinct<K, V>(m: OMap<K, V>, i: nat)
    requires DistinctKeys(m) && i < |m|
    ensures Get(m, m[i].0) == Some(m[i].1)
  {
    if i > 0 {
      GetOfDistinct(m[1..], i - 1);
    }
  }

  lemma FirstIndexAppend<K>(ks: seq<K>, x: K, k: K)
    requires k in ks
    ensures FirstIndex(ks + [x], k) == FirstIndex(ks, k)
  {
    if ks[0] != k {
      assert (ks + [x])[1..] == ks[1..] + [x];
      FirstIndexAppend(ks[1..], x, k);
    }
  }

  /** Every key of `ks` occurs in `order`, and `ks` lists them by first occurrence in `order`. */
  predicate InFirstOccurrenceOrder<K(==)>(ks: seq<K>, order: seq<K>) {
    && (forall k :: k in ks ==> k in order)
    && (forall a, b :: 0 <= a < b < |ks| ==> FirstIndex(order, ks[a]) < FirstIndex(order, ks[b]))
  }

  lemma FirstOccurrenceOrderStep<K>(ks: seq<K>, order: seq<K>, k: K, ks2: seq<K>, order2: seq<K>)
    requires InFirstOccurrenceOrder(ks, order)
    requires k in ks <==> k in order
    requires ks2 == if k in ks then ks else ks + [k]
    requires order2 == order + [k]
    ensures InFirstOccurrenceOrder(ks2, order2)
  {
    forall x | x in ks
      ensures FirstIndex(order + [k], x) == FirstIndex(order, x) < |order|
    {
      FirstIndexAppend(order, k, x);
    }
    if k !in ks {
      assert FirstIndex(order + [k], k) == |order|;
      forall a, b | 0 <= a < b < |ks2|
        ensures FirstIndex(order + [k], ks2[a]) < FirstIndex(order + [k], ks2[b])
      {
        assert ks2[a] in ks;
        if b < |ks| {
          assert ks2[b] in ks;
        }
      }
    }
  }

  /** The keys after one more write, for the order argument below. */
  lemma PutAllKeysStep<K(!new), V>(ps: seq<(K, V)>)
    requires |ps| > 0
    ensures var n := |ps| - 1;
      var ks' := Keys(PutAll([], ps[..n]));
      && (ps[n].0 in ks' <==> ps[n].0 in Keys(ps[..n]))
      && Keys(PutAll([], ps)) == (if ps[n].0 in ks' then ks' else ks' + [ps[n].0])
  {
    var n := |ps| - 1;
    var k := ps[n].0;
    var m' := PutAll([], ps[..n]);
    assert PutAll([], ps) == Put(m', k, ps[n].1);
    PutAllKeys([], ps[..n], k);
  }

  /**
   Starting from an empty map, the keys of `PutAll` sit in the order of their first
   write in `ps`: a later overwrite never moves a key.
   */
  lemma {:induction false} PutAllKeepsFirstWriteOrder<K(!new), V>(ps: seq<(K, V)>)
    ensures InFirstOccurrenceOrder(Keys(PutAll([], ps)), Keys(ps))
  {
    if |ps| > 0 {
      var n := |ps| - 1;
      PutAllKeepsFirstWriteOrder(ps[..n]);
      PutAllKeysStep(ps);
      KeysOfPrefix(ps);
      FirstOccurrenceOrderStep(Keys(PutAll([], ps[..n])), Keys(ps[..n]), ps[n].0, Keys(PutAll([], ps)), Keys(ps));
    }
  }
}
