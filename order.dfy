/**
 * Python's string order (code point by code point, a proper prefix
 * first) and `sorted(set(xs))` for lists of strings.
 */
module Order {

  /** `a < b` on Python strings. */
  predicate Less(a: string, b: string)
    decreases |a|
  {
    if |a| == 0 then |b| > 0
    else if |b| == 0 then false
    else if a[0] != b[0] then a[0] < b[0]
    else Less(a[1..], b[1..])
  }

  lemma {:induction false} LessIrreflexive(a: string)
    ensures !Less(a, a)
    decreases |a|
  {
    if |a| > 0 {
      LessIrreflexive(a[1..]);
    }
  }

  /** Two different strings are ordered one way or the other. */
  lemma {:induction false} LessTotal(a: string, b: string)
    ensures a == b || Less(a, b) || Less(b, a)
    decreases |a|
  {
    if |a| > 0 && |b| > 0 && a[0] == b[0] {
      LessTotal(a[1..], b[1..]);
      if a[1..] == b[1..] {
        assert a == [a[0]] + a[1..] && b == [b[0]] + b[1..];
      }
    }
  }

  lemma {:induction false} LessAsymmetric(a: string, b: string)
    requires Less(a, b)
    ensures !Less(b, a)
    decreases |a|
  {
    if |a| > 0 && |b| > 0 && a[0] == b[0] {
      LessAsymmetric(a[1..], b[1..]);
    }
  }

  lemma {:induction false} LessTransitive(a: string, b: string, c: string)
    requires Less(a, b) && Less(b, c)
    ensures Less(a, c)
    decreases |a|
  {
    if |a| > 0 && a[0] == b[0] && b[0] == c[0] {
      LessTransitive(a[1..], b[1..], c[1..]);
    }
  }

  /** Strictly increasing, so also without repeats. */
  predicate Increasing(xs: seq<string>)
  {
    forall i, j :: 0 <= i < j < |xs| ==> Less(xs[i], xs[j])
  }

  /** Puts `x` into an increasing list at its place, unless it is already there. */
  function Insert(x: string, ys: seq<string>): seq<string>
    decreases |ys|
  {
    if ys == [] then [x]
    else if x == ys[0] then ys
    else if Less(x, ys[0]) then [x] + ys
    else [ys[0]] + Insert(x, ys[1..])
  }

  /** `sorted(set(xs))` */
  function SortedSet(xs: seq<string>): seq<string>
    decreases |xs|
  {
    if xs == [] then [] else Insert(xs[0], SortedSet(xs[1..]))
  }

  /** A list starting with `a` is increasing when its tail is and every element of the tail is above `a`. */
  lemma IncreasingCons(a: string, zs: seq<string>)
    requires Increasing(zs) && forall z :: z in zs ==> Less(a, z)
    ensures Increasing([a] + zs)
  {
    var t := [a] + zs;
    forall i, j | 0 <= i < j < |t|
      ensures Less(t[i], t[j])
    {
      if i == 0 {
        assert t[j] == zs[j - 1];
      } else {
        assert t[i] == zs[i - 1] && t[j] == zs[j - 1];
      }
    }
  }

  /** Inserting keeps the list increasing and adds exactly `x`. */
  lemma {:induction false} InsertSpec(x: string, ys: seq<string>)
    requires Increasing(ys)
    ensures Increasing(Insert(x, ys))
    ensures forall u :: u in Insert(x, ys) <==> u == x || u in ys
    decreases |ys|
  {
    if ys == [] {
    } else if x == ys[0] {
    } else if Less(x, ys[0]) {
      forall z | z in ys
        ensures Less(x, z)
      {
        var k :| 0 <= k < |ys| && ys[k] == z;
        if k > 0 {
          LessTransitive(x, ys[0], z);
        }
      }
      IncreasingCons(x, ys);
    } else {
      var rest := ys[1..];
      assert Increasing(rest) by {
        forall i, j | 0 <= i < j < |rest|
          ensures Less(rest[i], rest[j])
        {
          assert rest[i] == ys[i + 1] && rest[j] == ys[j + 1];
        }
      }
      InsertSpec(x, rest);
      LessTotal(x, ys[0]);
      forall z | z in Insert(x, rest)
        ensures Less(ys[0], z)
      {
        if z != x {
          var k :| 0 <= k < |rest| && rest[k] == z;
          assert ys[k + 1] == z;
        }
      }
      IncreasingCons(ys[0], Insert(x, rest));
      assert forall u :: u in ys <==> u == ys[0] || u in rest by {
        assert ys == [ys[0]] + rest;
      }
    }
  }

  /** `sorted(set(xs))` is increasing and holds exactly the elements of `xs`. */
  lemma {:induction false} SortedSetSpec(xs: seq<string>)
    ensures Increasing(SortedSet(xs))
    ensures forall u :: u in SortedSet(xs) <==> u in xs
    decreases |xs|
  {
    if xs != [] {
      SortedSetSpec(xs[1..]);
      InsertSpec(xs[0], SortedSet(xs[1..]));
      assert forall u :: u in xs <==> u == xs[0] || u in xs[1..] by {
        assert xs == [xs[0]] + xs[1..];
      }
    }
  }

  /** Only one increasing list holds a given set of strings: the sorted order is determined. */
  lemma {:induction false} IncreasingUnique(a: seq<string>, b: seq<string>)
    requires Increasing(a) && Increasing(b)
    requires forall u :: u in a <==> u in b
    ensures a == b
    decreases |a|
  {
    assert a != [] ==> a[0] in a;
    assert b != [] ==> b[0] in b;
    if a != [] && b != [] {
      // the heads are the least elements of the same set
      if a[0] != b[0] {
        assert a[0] in a && b[0] in b;
        var i :| 0 <= i < |b| && b[i] == a[0];
        var j :| 0 <= j < |a| && a[j] == b[0];
        assert i > 0 && j > 0;
        assert Less(b[0], a[0]) && Less(a[0], b[0]);
        LessAsymmetric(b[0], a[0]);
      }
      var a', b' := a[1..], b[1..];
      forall u
        ensures u in a' <==> u in b'
      {
        if u in a' {
          var k :| 0 <= k < |a'| && a'[k] == u;
          assert Less(a[0], u) by { assert a[k + 1] == u; }
          LessIrreflexive(u);
          assert u in a by { assert a[k + 1] == u; }
          var m :| 0 <= m < |b| && b[m] == u;
          assert m > 0;
          assert b[m] == b'[m - 1];
        }
        if u in b' {
          var k :| 0 <= k < |b'| && b'[k] == u;
          assert Less(b[0], u) by { assert b[k + 1] == u; }
          LessIrreflexive(u);
          assert u in b by { assert b[k + 1] == u; }
          var m :| 0 <= m < |a| && a[m] == u;
          assert m > 0;
          assert a[m] == a'[m - 1];
        }
      }
      assert Increasing(a') by {
        forall i, j | 0 <= i < j < |a'| ensures Less(a'[i], a'[j]) { assert a'[i] == a[i + 1] && a'[j] == a[j + 1]; }
      }
      assert Increasing(b') by {
        forall i, j | 0 <= i < j < |b'| ensures Less(b'[i], b'[j]) { assert b'[i] == b[i + 1] && b'[j] == b[j + 1]; }
      }
      IncreasingUnique(a', b');
      assert a == [a[0]] + a' && b == [b[0]] + b';
    }
  }
}
