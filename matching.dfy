/**
 * The pieces the catalog matchers share: the two name normalisers, the
 * word sets with their filler words removed, the "first maximum wins"
 * search over scores and the "first item that passes" search, and the
 * five-column result row.
 */
module Matching {
  import opened Wrappers
  import opened Text

  // ------------------------------------------------------------------
  // Name normalisation

  /** A character kept by the normaliser, any other becomes a space. */
  function NormOrSpace(c: char): char
  {
    if IsNormChar(c) then c else ' '
  }

  /**
   * `normalize`: lower-cased, every character outside `[a-z0-9 ]` turned
   * into a space, whitespace runs collapsed and the ends trimmed.
   */
  function Normalize(s: string): (r: string)
    ensures All(r, IsNormChar)
    ensures SingleSpaced(r)
  {
    var m := MapChars(Lower(s), NormOrSpace);
    assert All(m, IsNormChar);
    SquashSpacesShape(m);
    CollapseRunsAll(m, IsSpace, ' ', IsNormChar);
    StripAll(CollapseRuns(m, IsSpace, ' '), IsNormChar);
    SquashSpaces(m)
  }

  /** Normalising a normalised name changes nothing. */
  lemma NormalizeIdempotent(s: string)
    ensures Normalize(Normalize(s)) == Normalize(s)
  {
    var r := Normalize(s);
    LowerOfNorm(r);
    assert MapChars(Lower(r), NormOrSpace) == r;
    SquashSpacesIdle(r);
  }

  /**
   * The normaliser of the browser catalog scrapers: lower-cased, every
   * character outside `[a-z0-9 ]` deleted, the ends trimmed; inner space
   * runs stay.
   */
  function NormalizeDel(s: string): (r: string)
    ensures All(r, IsNormChar)
    ensures NoEdgeSpace(r)
  {
    var f := Filter(Lower(s), IsNormChar);
    FilterAll(Lower(s), IsNormChar);
    StripAll(f, IsNormChar);
    StripNoEdge(f);
    Strip(f)
  }

  /** Deleting and replacing differ: a hyphen joins two words in one and separates them in the other. */
  lemma NormalizersDiffer()
    ensures NormalizeDel("a-b") == "ab"
    ensures Normalize("a-b") == "a b"
  {
    DelJoinsHyphen();
    ReplaceSplitsHyphen();
  }

  lemma DelJoinsHyphen()
    ensures NormalizeDel("a-b") == "ab"
  {
    assert Lower("a-b") == "a-b";
    assert Filter("a-b", IsNormChar) == "ab" by {
      assert Filter("b", IsNormChar) == "b" by { assert "b"[1..] == ""; }
      assert "a-b"[1..] == "-b" && "-b"[1..] == "b";
    }
    StripOfNoEdge("ab");
  }

  lemma ReplaceSplitsHyphen()
    ensures Normalize("a-b") == "a b"
  {
    assert Lower("a-b") == "a-b";
    assert MapChars("a-b", NormOrSpace) == "a b";
    SquashSpacesIdle("a b");
  }

  /**
   * Deleting leaves space runs in place: two normalised words with any
   * run of spaces between them come out unchanged.
   */
  lemma NormalizeDelKeepsRuns(a: string, gap: string, b: string)
    requires a != "" && b != "" && All(a, IsNormChar) && All(b, IsNormChar)
    requires a[0] != ' ' && b[|b| - 1] != ' '
    requires forall i :: 0 <= i < |gap| ==> gap[i] == ' '
    ensures NormalizeDel(a + gap + b) == a + gap + b
  {
    var s := a + gap + b;
    assert forall i :: 0 <= i < |s| ==> s[i] == if i < |a| then a[i] else if i < |a| + |gap| then gap[i - |a|] else b[i - |a| - |gap|];
    assert All(s, IsNormChar);
    LowerOfNorm(s);
    assert s[0] == a[0] && s[|s| - 1] == b[|b| - 1];
    NormalizeDelIdle(s);
  }

  /** A lower-case name of kept characters without edge spaces is its own deleting normalisation. */
  lemma NormalizeDelIdle(s: string)
    requires Lower(s) == s && All(s, IsNormChar) && NoEdgeSpace(s)
    ensures NormalizeDel(s) == s
  {
    FilterKeepsAll(s, IsNormChar);
    StripOfNoEdge(s);
  }

  // ------------------------------------------------------------------
  // Word sets

  /** `set(s.split())` */
  function WordSet(s: string): set<string>
  {
    set w | w in Words(s)
  }

  /** `sw - filler`, or `sw` itself when that leaves nothing. */
  function Significant(words: set<string>, filler: set<string>): (r: set<string>)
    ensures r <= words
    ensures r == {} <==> words == {}
    ensures words - filler != {} ==> r == words - filler
  {
    if words - filler == {} then words else words - filler
  }

  /** A part of a set is no larger than the set. */
  lemma SubsetCard<T>(a: set<T>, b: set<T>)
    requires a <= b
    ensures |a| <= |b|
  {
    assert b == a + (b - a);
  }

  /** The share of the significant words that the other side has. */
  function Ratio(overlap: nat, sig: nat): real
    requires sig > 0
  {
    overlap as real / sig as real
  }

  /** An overlap no larger than the whole gives a share between 0 and 1. */
  lemma RatioBounds(overlap: nat, sig: nat)
    requires 0 < sig && overlap <= sig
    ensures 0.0 <= Ratio(overlap, sig) <= 1.0
    ensures Ratio(overlap, sig) == 1.0 <==> overlap == sig
  {
    var r := Ratio(overlap, sig);
    var s := sig as real;
    assert r * s == overlap as real;
    if r < 1.0 {
      assert r * s < 1.0 * s;
    }
  }

  /** A share is at least `q` when the overlap is at least `q` times the whole. */
  lemma RatioAtLeast(overlap: nat, sig: nat, q: real)
    requires sig > 0 && overlap as real >= q * sig as real
    ensures Ratio(overlap, sig) >= q
  {
    var r := Ratio(overlap, sig);
    assert r * (sig as real) == overlap as real;
    if r < q {
      assert r * (sig as real) < q * (sig as real);
    }
  }

  /** A share reaches `num/den` exactly when `den` overlaps reach `num` wholes. */
  lemma RatioCompare(overlap: nat, sig: nat, num: nat, den: nat)
    requires sig > 0 && den > 0
    ensures Ratio(overlap, sig) >= num as real / den as real <==> den * overlap >= num * sig
  {
    var r := Ratio(overlap, sig);
    var q := num as real / den as real;
    var s := sig as real;
    var d := den as real;
    assert r * s == overlap as real;
    assert q * d == num as real;
    assert (den * overlap) as real == d * (overlap as real);
    assert (num * sig) as real == (num as real) * s;
    var ds := d * s;
    assert ds > 0.0 by {
      assert d * s > 0.0 * s;
    }
    assert d * (overlap as real) - (num as real) * s == ds * (r - q);
    if r >= q {
      assert ds * (r - q) >= 0.0 * (r - q);
    } else {
      assert ds * (q - r) > 0.0 * (q - r);
    }
  }

  // ------------------------------------------------------------------
  // Searches

  /**
   * The first index whose item passes `p`: the loop that returns at the
   * first hit.
   */
  function FirstIndex<T>(xs: seq<T>, p: T -> bool): (r: Option<nat>)
    ensures r.Some? ==> r.value < |xs| && p(xs[r.value])
    ensures r.Some? ==> forall j :: 0 <= j < r.value ==> !p(xs[j])
    ensures r.None? <==> forall j :: 0 <= j < |xs| ==> !p(xs[j])
    decreases |xs|
  {
    if xs == [] then None
    else if p(xs[0]) then Some(0)
    else
      var rest := FirstIndex(xs[1..], p);
      assert forall j :: 1 <= j < |xs| ==> xs[j] == xs[1..][j - 1];
      if rest.None? then None else Some(rest.value + 1)
  }

  /** The first-hit loop. */
  method FirstBy<T>(xs: seq<T>, p: T -> bool) returns (r: Option<nat>)
    ensures r == FirstIndex(xs, p)
  {
    var i := 0;
    while i < |xs|
      invariant 0 <= i <= |xs|
      invariant forall j :: 0 <= j < i ==> !p(xs[j])
      decreases |xs| - i
    {
      if p(xs[i]) {
        FirstIsUnique(xs, p, i);
        return Some(i);
      }
      i := i + 1;
    }
    r := None;
  }

  /** `FirstIndex` is the only index that passes with nothing passing before it. */
  lemma FirstIsUnique<T>(xs: seq<T>, p: T -> bool, k: nat)
    requires k < |xs| && p(xs[k]) && forall j :: 0 <= j < k ==> !p(xs[j])
    ensures FirstIndex(xs, p) == Some(k)
  {
  }

  /** A prefix one longer is the prefix and the next item. */
  lemma PrefixSnoc<T>(xs: seq<T>, i: nat)
    requires i < |xs|
    ensures xs[..i + 1] == xs[..i] + [xs[i]]
  {
  }

  /**
   * The running best of a scoring loop: starting from `floor` with no
   * candidate, an item replaces the candidate when its score is strictly
   * greater than the best so far.
   */
  function ArgMax<T>(xs: seq<T>, score: T -> real, floor: real): (r: Option<nat>)
    ensures r.Some? ==> r.value < |xs|
    decreases |xs|
  {
    if xs == [] then None
    else
      var r := ArgMax(xs[..|xs| - 1], score, floor);
      var best := if r.Some? then score(xs[r.value]) else floor;
      if score(xs[|xs| - 1]) > best then Some(|xs| - 1) else r
  }

  /**
   * The running best is the first item of maximal score when some item
   * scores above `floor`, and there is none exactly when no item does.
   */
  lemma {:induction false} ArgMaxIsFirstMax<T>(xs: seq<T>, score: T -> real, floor: real)
    ensures ArgMax(xs, score, floor).None? <==> forall j :: 0 <= j < |xs| ==> score(xs[j]) <= floor
    ensures ArgMax(xs, score, floor).Some? ==>
              var k := ArgMax(xs, score, floor).value;
              floor < score(xs[k])
              && (forall j :: 0 <= j < |xs| ==> score(xs[j]) <= score(xs[k]))
              && (forall j :: 0 <= j < k ==> score(xs[j]) < score(xs[k]))
    decreases |xs|
  {
    if xs != [] {
      var init := xs[..|xs| - 1];
      ArgMaxIsFirstMax(init, score, floor);
      assert forall j :: 0 <= j < |init| ==> init[j] == xs[j];
    }
  }

  /** The scoring loop: the running best and its score. */
  method BestBy<T>(xs: seq<T>, score: T -> real, floor: real) returns (best: Option<nat>, bestScore: real)
    ensures best == ArgMax(xs, score, floor)
    ensures bestScore == if best.Some? then score(xs[best.value]) else floor
  {
    best, bestScore := None, floor;
    var i := 0;
    while i < |xs|
      invariant 0 <= i <= |xs|
      invariant best == ArgMax(xs[..i], score, floor)
      invariant best.Some? ==> best.value < i
      invariant bestScore == if best.Some? then score(xs[best.value]) else floor
      decreases |xs| - i
    {
      assert xs[..i + 1][..i] == xs[..i];
      var sc := score(xs[i]);
      if sc > bestScore {
        best, bestScore := Some(i), sc;
      }
      i := i + 1;
    }
    assert xs[..|xs|] == xs;
  }

  // ------------------------------------------------------------------
  // Row loops that keep what some rows produce

  /** The results of the rows that produce one, in row order. */
  function Gather<K, T>(keys: seq<K>, f: K -> Option<T>): (r: seq<T>)
    ensures |r| <= |keys|
    decreases |keys|
  {
    if keys == [] then []
    else
      var r := Gather(keys[..|keys| - 1], f);
      match f(keys[|keys| - 1])
      case None => r
      case Some(x) => r + [x]
  }

  /** One more row adds its result, if it has one, at the end. */
  lemma GatherStep<K, T>(keys: seq<K>, k: K, f: K -> Option<T>)
    ensures Gather(keys + [k], f) == Gather(keys, f) + (if f(k).Some? then [f(k).value] else [])
  {
    assert (keys + [k])[..|keys|] == keys;
  }

  /**
   * Every result is the result of some row, and the results come in row
   * order; when every row produces one, there is one per row.
   */
  lemma {:induction false} GatherSpec<K, T>(keys: seq<K>, f: K -> Option<T>) returns (src: seq<nat>)
    ensures |src| == |Gather(keys, f)|
    ensures forall i :: 0 <= i < |src| ==> src[i] < |keys| && f(keys[src[i]]) == Some(Gather(keys, f)[i])
    ensures forall i, j :: 0 <= i < j < |src| ==> src[i] < src[j]
    ensures (forall r :: 0 <= r < |keys| ==> f(keys[r]).Some?) ==> |Gather(keys, f)| == |keys|
    decreases |keys|
  {
    if keys == [] {
      src := [];
    } else {
      var n := |keys| - 1;
      var init := keys[..n];
      var s0 := GatherSpec(init, f);
      assert forall r :: 0 <= r < n ==> init[r] == keys[r];
      if f(keys[n]).Some? {
        src := s0 + [n];
      } else {
        src := s0;
      }
    }
  }

  /** A key that gives a result puts it among the results. */
  lemma {:induction false} GatherHas<K, T>(keys: seq<K>, f: K -> Option<T>, r: nat)
    requires r < |keys| && f(keys[r]).Some?
    ensures f(keys[r]).value in Gather(keys, f)
    decreases |keys|
  {
    var n := |keys| - 1;
    if r < n {
      GatherHas(keys[..n], f, r);
    }
  }

  // ------------------------------------------------------------------
  // Result rows

  /** One row of an extracted-data file. */
  datatype Entry = Entry(upc: string, title: string, description: string, imageUrl: string, productUrl: string)
}
