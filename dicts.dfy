/**
 * Python dictionaries where their iteration order matters: the pairs in
 * first-insertion order. Assigning to a present key replaces its value
 * in place; assigning to a new key appends it.
 */
module Dicts {
  import opened Wrappers

  type Dict<K, V> = seq<(K, V)>

  /** No key occurs twice. */
  predicate DistinctKeys<K(==), V>(d: Dict<K, V>)
  {
    forall i, j :: 0 <= i < j < |d| ==> d[i].0 != d[j].0
  }

  /** `d.get(k)` */
  function Lookup<K(==), V>(d: Dict<K, V>, k: K): Option<V>
    decreases |d|
  {
    if d == [] then None else if d[0].0 == k then Some(d[0].1) else Lookup(d[1..], k)
  }

  /** `d[k] = v` */
  function Put<K(==), V>(d: Dict<K, V>, k: K, v: V): Dict<K, V>
    decreases |d|
  {
    if d == [] then [(k, v)]
    else if d[0].0 == k then [(k, v)] + d[1..]
    else [d[0]] + Put(d[1..], k, v)
  }

  /** `d.values()` in iteration order. */
  function Values<K, V>(d: Dict<K, V>): (vs: seq<V>)
    ensures |vs| == |d|
    ensures forall i :: 0 <= i < |d| ==> vs[i] == d[i].1
  {
    seq(|d|, i requires 0 <= i < |d| => d[i].1)
  }

  /** A key is present exactly when some pair carries it, and then the first such pair gives its value. */
  lemma {:induction false} LookupFinds<K, V>(d: Dict<K, V>, k: K)
    ensures Lookup(d, k).None? <==> forall i :: 0 <= i < |d| ==> d[i].0 != k
    ensures Lookup(d, k).Some? ==> exists i :: 0 <= i < |d| && d[i] == (k, Lookup(d, k).value)
                                      && forall j :: 0 <= j < i ==> d[j].0 != k
    decreases |d|
  {
    if d != [] && d[0].0 != k {
      LookupFinds(d[1..], k);
      if Lookup(d, k).Some? {
        var i :| 0 <= i < |d[1..]| && d[1..][i] == (k, Lookup(d, k).value)
                 && forall j :: 0 <= j < i ==> d[1..][j].0 != k;
        assert d[i + 1] == d[1..][i];
        assert forall j :: 1 <= j < i + 1 ==> d[j] == d[1..][j - 1];
      }
      assert forall i :: 1 <= i < |d| ==> d[i] == d[1..][i - 1];
    }
  }

  /**
   * After `d[k] = v` the key `k` gives `v` and every other key gives what
   * it gave before: the last assignment to a key wins.
   */
  lemma {:induction false} PutLookup<K, V>(d: Dict<K, V>, k: K, v: V, k': K)
    ensures Lookup(Put(d, k, v), k') == if k' == k then Some(v) else Lookup(d, k')
    decreases |d|
  {
    if d != [] && d[0].0 != k {
      PutLookup(d[1..], k, v, k');
    }
  }

  /**
   * `d[k] = v` keeps every key at its position and only replaces the value
   * of `k` when `k` is present; a new key is appended at the end.
   */
  lemma {:induction false} PutOrder<K, V>(d: Dict<K, V>, k: K, v: V)
    requires DistinctKeys(d)
    ensures Lookup(d, k).None? ==> Put(d, k, v) == d + [(k, v)]
    ensures Lookup(d, k).Some? ==> |Put(d, k, v)| == |d|
    ensures Lookup(d, k).Some? ==>
              forall i :: 0 <= i < |d| ==> Put(d, k, v)[i] == if d[i].0 == k then (k, v) else d[i]
    decreases |d|
  {
    if d != [] && d[0].0 != k {
      PutOrder(d[1..], k, v);
    }
  }

  /** Assignment keeps the keys distinct. */
  lemma {:induction false} PutDistinct<K, V>(d: Dict<K, V>, k: K, v: V)
    requires DistinctKeys(d)
    ensures DistinctKeys(Put(d, k, v))
    decreases |d|
  {
    if d != [] {
      if d[0].0 == k {
        assert forall i :: 1 <= i < |d| ==> d[i].0 != k;
      } else {
        PutDistinct(d[1..], k, v);
        KeysOfPut(d[1..], k, v);
        LookupFinds(d[1..], d[0].0);
        PutLookup(d[1..], k, v, d[0].0);
        LookupFinds(Put(d[1..], k, v), d[0].0);
      }
    }
  }

  /** The keys after `d[k] = v` are the old keys and `k`. */
  lemma {:induction false} KeysOfPut<K, V>(d: Dict<K, V>, k: K, v: V)
    ensures forall i :: 0 <= i < |Put(d, k, v)| ==>
              Put(d, k, v)[i].0 == k || exists j :: 0 <= j < |d| && d[j].0 == Put(d, k, v)[i].0
    decreases |d|
  {
    if d != [] && d[0].0 != k {
      KeysOfPut(d[1..], k, v);
      var p := Put(d, k, v);
      forall i | 0 <= i < |p| && p[i].0 != k
        ensures exists j :: 0 <= j < |d| && d[j].0 == p[i].0
      {
        if i > 0 {
          assert p[i] == Put(d[1..], k, v)[i - 1];
          var j :| 0 <= j < |d[1..]| && d[1..][j].0 == p[i].0;
          assert d[j + 1] == d[1..][j];
        }
      }
    }
  }

  /** Every pair after `d[k] = v` is `(k, v)` or a pair of `d`. */
  lemma {:induction false} PutPairs<K, V>(d: Dict<K, V>, k: K, v: V)
    ensures forall i :: 0 <= i < |Put(d, k, v)| ==> Put(d, k, v)[i] == (k, v) || Put(d, k, v)[i] in d
    decreases |d|
  {
    if d != [] && d[0].0 != k {
      PutPairs(d[1..], k, v);
      var p := Put(d, k, v);
      forall i | 0 <= i < |p|
        ensures p[i] == (k, v) || p[i] in d
      {
        if i > 0 {
          assert p[i] == Put(d[1..], k, v)[i - 1];
          assert forall x :: x in d[1..] ==> x in d;
        }
      }
    }
  }

  // ------------------------------------------------------------------
  // Filling a dictionary in a loop

  /** `for x in xs: d[key(x)] = x`, from an empty `d`. */
  function PutEach<K(==), V>(xs: seq<V>, key: V -> K): Dict<K, V>
    decreases |xs|
  {
    if xs == [] then []
    else Put(PutEach(xs[..|xs| - 1], key), key(xs[|xs| - 1]), xs[|xs| - 1])
  }

  /**
   * A key is absent exactly when no item has it, and otherwise it gives
   * the LAST item that has it: later items overwrite earlier ones.
   */
  lemma {:induction false} PutEachLookup<K, V>(xs: seq<V>, key: V -> K, k: K)
    ensures Lookup(PutEach(xs, key), k).None? <==> forall j :: 0 <= j < |xs| ==> key(xs[j]) != k
    ensures forall j :: 0 <= j < |xs| && key(xs[j]) == k && (forall j' :: j < j' < |xs| ==> key(xs[j']) != k) ==>
              Lookup(PutEach(xs, key), k) == Some(xs[j])
    decreases |xs|
  {
    if xs != [] {
      var n := |xs| - 1;
      var init := xs[..n];
      PutEachLookup(init, key, k);
      PutLookup(PutEach(init, key), key(xs[n]), xs[n], k);
      assert forall j :: 0 <= j < n ==> init[j] == xs[j];
    }
  }

  /** The filled dictionary has distinct keys, and each pair is an item under its own key. */
  lemma {:induction false} PutEachShape<K, V>(xs: seq<V>, key: V -> K)
    ensures DistinctKeys(PutEach(xs, key))
    ensures forall i :: 0 <= i < |PutEach(xs, key)| ==>
              PutEach(xs, key)[i].0 == key(PutEach(xs, key)[i].1) && PutEach(xs, key)[i].1 in xs
    decreases |xs|
  {
    if xs != [] {
      var n := |xs| - 1;
      var init := xs[..n];
      var d := PutEach(init, key);
      PutEachShape(init, key);
      PutDistinct(d, key(xs[n]), xs[n]);
      PutPairs(d, key(xs[n]), xs[n]);
      assert forall x :: x in init ==> x in xs;
      forall i | 0 <= i < |Put(d, key(xs[n]), xs[n])|
        ensures Put(d, key(xs[n]), xs[n])[i].0 == key(Put(d, key(xs[n]), xs[n])[i].1)
        ensures Put(d, key(xs[n]), xs[n])[i].1 in xs
      {
        var pr := Put(d, key(xs[n]), xs[n])[i];
        if pr != (key(xs[n]), xs[n]) {
          var m :| 0 <= m < |d| && d[m] == pr;
        }
      }
    }
  }
}
