/**
 * Python's `dict.update` applied in turn: a sequence of maps merged so
 * that a key takes its value from the last map that has it.
 */
module Overwrites {

  /** `d = {}; for m in ms: d.update(m)` */
  function Union<K, V>(ms: seq<map<K, V>>): map<K, V>
    decreases |ms|
  {
    if ms == [] then map[] else Union(ms[..|ms| - 1]) + ms[|ms| - 1]
  }

  /** The map that gives every key of `keys` the value `v`. */
  function Const<K, V>(keys: set<K>, v: V): (m: map<K, V>)
    ensures m.Keys == keys
    ensures forall k :: k in m ==> m[k] == v
  {
    map k | k in keys :: v
  }

  /** A key is in the union exactly when some map has it. */
  lemma {:induction false} UnionKeys<K, V>(ms: seq<map<K, V>>, k: K)
    ensures k in Union(ms) <==> exists i :: 0 <= i < |ms| && k in ms[i]
    decreases |ms|
  {
    if ms != [] {
      var n := |ms| - 1;
      var p := ms[..n];
      UnionKeys(p, k);
      if k in Union(ms) && k !in ms[n] {
        var i :| 0 <= i < |p| && k in p[i];
        assert ms[i] == p[i];
      } else if k !in Union(ms) {
        forall i | 0 <= i < |ms|
          ensures k !in ms[i]
        {
          if i < n {
            assert ms[i] == p[i];
          }
        }
      }
    }
  }

  /** The last map holding a key gives the key its value in the union. */
  lemma {:induction false} UnionAt<K, V>(ms: seq<map<K, V>>, k: K, i: nat)
    requires i < |ms| && k in ms[i]
    requires forall j :: i < j < |ms| ==> k !in ms[j]
    ensures k in Union(ms) && Union(ms)[k] == ms[i][k]
    decreases |ms|
  {
    var n := |ms| - 1;
    if i < n {
      var p := ms[..n];
      assert p[i] == ms[i];
      forall j | i < j < |p|
        ensures k !in p[j]
      {
        assert p[j] == ms[j];
      }
      UnionAt(p, k, i);
    }
  }

  /**
   * A key is in the union exactly when some map has it, and its value is
   * the one of the last map that has it.
   */
  lemma UnionSpec<K, V>(ms: seq<map<K, V>>, k: K)
    ensures k in Union(ms) <==> exists i :: 0 <= i < |ms| && k in ms[i]
    ensures forall i :: 0 <= i < |ms| && k in ms[i] && (forall j :: i < j < |ms| ==> k !in ms[j]) ==> Union(ms)[k] == ms[i][k]
  {
    UnionKeys(ms, k);
    forall i | 0 <= i < |ms| && k in ms[i] && (forall j :: i < j < |ms| ==> k !in ms[j])
      ensures Union(ms)[k] == ms[i][k]
    {
      UnionAt(ms, k, i);
    }
  }

  /** A key of the union has a last map holding it, which gives its value. */
  lemma {:induction false} UnionLast<K, V>(ms: seq<map<K, V>>, k: K) returns (i: nat)
    requires k in Union(ms)
    ensures i < |ms| && k in ms[i] && Union(ms)[k] == ms[i][k]
    ensures forall j :: i < j < |ms| ==> k !in ms[j]
    decreases |ms|
  {
    var p := ms[..|ms| - 1];
    if k in ms[|ms| - 1] {
      i := |ms| - 1;
    } else {
      i := UnionLast(p, k);
      assert p[i] == ms[i];
      assert forall j :: i < j < |p| ==> p[j] == ms[j];
    }
  }

  /** Every value of the union is a value some map gives its key. */
  lemma UnionValues<K, V>(ms: seq<map<K, V>>, good: V -> bool)
    requires forall i, k :: 0 <= i < |ms| && k in ms[i] ==> good(ms[i][k])
    ensures forall k :: k in Union(ms) ==> good(Union(ms)[k])
  {
    forall k | k in Union(ms)
      ensures good(Union(ms)[k])
    {
      var i := UnionLast(ms, k);
    }
  }
}
