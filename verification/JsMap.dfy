/**
 * A JavaScript `Map`: pairs in insertion order. `Put` keeps the place of a key that is
 * present and appends a new key; `Drop` removes a key; iteration follows the pairs.
 */
module JsMap {
  import opened Common

  type Pairs<K, V> = seq<(K, V)>

  ghost predicate Unique<K, V>(m: Pairs<K, V>) {
    forall i, j :: 0 <= i < j < |m| ==> m[i].0 != m[j].0
  }

  function Get<K(==), V>(m: Pairs<K, V>, k: K): Option<V> {
    if m == [] then None else if m[0].0 == k then Some(m[0].1) else Get(m[1..], k)
  }

  predicate Has<K(==), V>(m: Pairs<K, V>, k: K) {
    exists i :: 0 <= i < |m| && m[i].0 == k
  }

  function Put<K(==), V>(m: Pairs<K, V>, k: K, v: V): Pairs<K, V> {
    if m == [] then [(k, v)]
    else if m[0].0 == k then [(k, v)] + m[1..]
    else [m[0]] + Put(m[1..], k, v)
  }

  function Drop<K(==), V>(m: Pairs<K, V>, k: K): Pairs<K, V> {
    if m == [] then []
    else if m[0].0 == k then Drop(m[1..], k)
    else [m[0]] + Drop(m[1..], k)
  }

  function Values<K, V>(m: Pairs<K, V>): (vs: seq<V>)
    ensures |vs| == |m| && forall i :: 0 <= i < |m| ==> vs[i] == m[i].1
  {
    if m == [] then [] else [m[0].1] + Values(m[1..])
  }

  function Keys<K, V>(m: Pairs<K, V>): (ks: seq<K>)
    ensures |ks| == |m| && forall i :: 0 <= i < |m| ==> ks[i] == m[i].0
  {
    seq(|m|, i requires 0 <= i < |m| => m[i].0)
  }

  /** What the map means to a reader that ignores order. */
  function AsMap<K(==), V>(m: Pairs<K, V>): map<K, V> {
    if m == [] then map[] else AsMap(m[1..])[m[0].0 := m[0].1]
  }

  lemma {:induction false} GetIsLookup<K, V>(m: Pairs<K, V>, k: K)
    ensures Get(m, k) == if k in AsMap(m) then Some(AsMap(m)[k]) else None
    ensures Has(m, k) <==> k in AsMap(m)
  {
    if m != [] {
      GetIsLookup(m[1..], k);
      if Has(m, k) {
        var i :| 0 <= i < |m| && m[i].0 == k;
        if i > 0 { assert m[1..][i - 1].0 == k; }
      }
      if Has(m[1..], k) {
        var i :| 0 <= i < |m| - 1 && m[1..][i].0 == k;
        assert m[i + 1].0 == k;
      } else if m[0].0 == k {
        assert Has(m, k);
      }
    }
  }

  lemma {:induction false} GetAt<K, V>(m: Pairs<K, V>, i: nat)
    requires Unique(m) && i < |m|
    ensures Get(m, m[i].0) == Some(m[i].1)
  {
    if i > 0 {
      assert m[0].0 != m[i].0;
      assert m[1..][i - 1] == m[i];
      GetAt(m[1..], i - 1);
    }
  }

  lemma {:induction false} PutMeansUpdate<K, V>(m: Pairs<K, V>, k: K, v: V)
    ensures AsMap(Put(m, k, v)) == AsMap(m)[k := v]
  {
    if m != [] && m[0].0 != k {
      PutMeansUpdate(m[1..], k, v);
      assert Put(m, k, v)[1..] == Put(m[1..], k, v);
    } else if m != [] {
      assert Put(m, k, v)[1..] == m[1..];
    }
  }

  lemma {:induction false} DropMeansRemove<K, V>(m: Pairs<K, V>, k: K)
    ensures AsMap(Drop(m, k)) == AsMap(m) - {k}
  {
    if m != [] {
      DropMeansRemove(m[1..], k);
      if m[0].0 != k { assert Drop(m, k)[1..] == Drop(m[1..], k); }
    }
  }

  lemma {:induction false} PutKeepsUnique<K, V>(m: Pairs<K, V>, k: K, v: V)
    requires Unique(m)
    ensures Unique(Put(m, k, v))
    ensures forall i :: 0 <= i < |Put(m, k, v)| ==> Put(m, k, v)[i] == (k, v) || Put(m, k, v)[i] in m
  {
    if m != [] && m[0].0 != k {
      var p := Put(m[1..], k, v);
      assert Unique(m[1..]) by {
        forall i, j | 0 <= i < j < |m| - 1 ensures m[1..][i].0 != m[1..][j].0 {
          assert m[i + 1].0 != m[j + 1].0;
        }
      }
      PutKeepsUnique(m[1..], k, v);
      forall i | 0 <= i < |p| ensures p[i].0 != m[0].0 {
        if p[i] != (k, v) {
          var j :| 0 <= j < |m| - 1 && m[1..][j] == p[i];
          assert m[0].0 != m[j + 1].0;
        }
      }
    }
  }

  lemma {:induction false} DropKeepsUnique<K, V>(m: Pairs<K, V>, k: K)
    requires Unique(m)
    ensures Unique(Drop(m, k))
    ensures forall i :: 0 <= i < |Drop(m, k)| ==> Drop(m, k)[i] in m && Drop(m, k)[i].0 != k
    ensures forall i :: 0 <= i < |m| && m[i].0 != k ==> m[i] in Drop(m, k)
  {
    if m != [] {
      assert Unique(m[1..]) by {
        forall i, j | 0 <= i < j < |m| - 1 ensures m[1..][i].0 != m[1..][j].0 {
          assert m[i + 1].0 != m[j + 1].0;
        }
      }
      DropKeepsUnique(m[1..], k);
      var d := Drop(m[1..], k);
      forall i | 0 <= i < |d| ensures d[i].0 != m[0].0 && d[i] in m {
        var j :| 0 <= j < |m| - 1 && m[1..][j] == d[i];
        assert m[0].0 != m[j + 1].0;
      }
      forall i | 0 <= i < |m| && m[i].0 != k ensures m[i] in Drop(m, k) {
        if i > 0 { assert m[1..][i - 1] == m[i]; }
      }
    }
  }
}
