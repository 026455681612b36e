/**
 * The Shopify retry: the whole catalog of a store is downloaded, indexed
 * by normalised title, and every sheet row not matched yet is matched by
 * barcode or by the overlap of its name's words with a title's. A
 * catalog title is given to one row at most.
 */
module RetryShopifySites {
  import opened Wrappers
  import opened Text
  import opened Matching
  import opened Shopify
  import opened Sheet
  import ScraperLib
  import Dicts
  import Paging

  const PageSize: nat := 250

  const CommonFiller: set<string> := {
    "the", "a", "an", "and", "or", "of", "for", "with", "by", "in", "to",
    "set", "kit", "pack", "ct", "pcs", "pc", "piece", "pieces"
  }

  /** The catalog download: pages of 250 until a refusal, an empty page or a short one. */
  method GetAllShopifyProducts(replies: seq<Paging.Reply<Product>>) returns (all: seq<Product>)
    ensures all == Paging.Pages(replies, PageSize)
  {
    all := Paging.Paginate(replies, PageSize);
  }

  // ------------------------------------------------------------------
  // Scoring

  /** The sheet name's words that count, filler dropped unless nothing else is left. */
  function SheetSig(sheetName: string): set<string>
  {
    Significant(WordSet(Normalize(sheetName)), CommonFiller)
  }

  /**
   * The share of `sig` found in `other`, kept only when it reaches 0.9
   * (one or two words), 0.5 (three or four) or 0.4 (more).
   */
  function Tiered(sig: set<string>, other: set<string>): (r: real)
    ensures r == 0.0 || 0.4 <= r <= 1.0
    ensures r > 0.0 ==> sig * other != {}
    ensures 0 < |sig| <= 2 && r > 0.0 ==> sig <= other && r == 1.0
  {
    if sig == {} then 0.0
    else
      var overlap := sig * other;
      SubsetCard(overlap, sig);
      RatioBounds(|overlap|, |sig|);
      var ratio := Ratio(|overlap|, |sig|);
      var need := if |sig| <= 2 then 0.9 else if |sig| <= 4 then 0.5 else 0.4;
      if ratio >= need then
        assert |sig| <= 2 ==> |overlap| == |sig| && overlap == sig by {
          if |sig| <= 2 { SubsetCardEq(overlap, sig); }
        }
        ratio
      else 0.0
  }

  /** A subset as large as its superset is the superset. */
  lemma SubsetCardEq<T>(a: set<T>, b: set<T>)
    requires a <= b && |a| == |b|
    ensures a == b
  {
    assert b == a + (b - a);
    assert |b - a| == 0;
  }

  /**
   * `match_score`: 1.0 for equal normalised names; otherwise the tiered
   * share of the sheet name's significant words that the title has. A
   * different title scores above 0 only when it shares a significant
   * word, and a name of one or two significant words only when the title
   * has all of them.
   */
  function MatchScore(sheetName: string, info: Info): (r: real)
    ensures r == 0.0 || 0.4 <= r <= 1.0
    ensures Normalize(sheetName) == info.norm ==> r == 1.0
    ensures r > 0.0 && Normalize(sheetName) != info.norm ==> SheetSig(sheetName) * (info.words - CommonFiller) != {}
    ensures r > 0.0 && Normalize(sheetName) != info.norm && |SheetSig(sheetName)| <= 2 ==>
              SheetSig(sheetName) <= info.words - CommonFiller && r == 1.0
  {
    if Normalize(sheetName) == info.norm then 1.0
    else Tiered(SheetSig(sheetName), info.words - CommonFiller)
  }

  // ------------------------------------------------------------------
  // The best match

  /** The barcode test of the first loop. */
  function BarcodeHit(upc: string): Info -> bool
  {
    (info: Info) => upc != "" && upc in info.barcodes
  }

  /** The score of the second loop. */
  function Scorer(sheetName: string): Info -> real
  {
    (info: Info) => MatchScore(sheetName, info)
  }

  /**
   * `find_best_match` over the index's records in order: the first that
   * carries the UPC as a barcode, else the first of maximal score, kept
   * when that reaches 0.4.
   */
  function BestMatch(sheetName: string, upc: string, infos: seq<Info>): (r: Option<Info>)
    ensures r.Some? ==> r.value in infos
  {
    match FirstIndex(infos, BarcodeHit(upc))
    case Some(k) => Some(infos[k])
    case None =>
      match ArgMax(infos, Scorer(sheetName), 0.0)
      case Some(k) => if MatchScore(sheetName, infos[k]) >= 0.4 then Some(infos[k]) else None
      case None => None
  }

  /** No record carries the UPC as a barcode. */
  predicate NoBarcodeHit(upc: string, infos: seq<Info>)
  {
    forall j :: 0 <= j < |infos| ==> !(upc != "" && upc in infos[j].barcodes)
  }

  /**
   * A barcode hit wins over every name; without one the match is the
   * first record of maximal score, and there is none exactly when every
   * record scores 0 (the 0.4 bar never rejects a positive score).
   */
  lemma BestMatchSpec(sheetName: string, upc: string, infos: seq<Info>)
    ensures forall k :: 0 <= k < |infos| && upc != "" && upc in infos[k].barcodes
                        && (forall j :: 0 <= j < k ==> upc !in infos[j].barcodes) ==>
              BestMatch(sheetName, upc, infos) == Some(infos[k])
    ensures NoBarcodeHit(upc, infos) ==>
              (BestMatch(sheetName, upc, infos).None? <==>
                 forall j :: 0 <= j < |infos| ==> MatchScore(sheetName, infos[j]) == 0.0)
    ensures NoBarcodeHit(upc, infos) && BestMatch(sheetName, upc, infos).Some? ==>
              exists k :: 0 <= k < |infos| && BestMatch(sheetName, upc, infos) == Some(infos[k])
                && 0.4 <= MatchScore(sheetName, infos[k])
                && (forall j :: 0 <= j < |infos| ==> MatchScore(sheetName, infos[j]) <= MatchScore(sheetName, infos[k]))
                && (forall j :: 0 <= j < k ==> MatchScore(sheetName, infos[j]) < MatchScore(sheetName, infos[k]))
  {
    var hit := BarcodeHit(upc);
    forall k | 0 <= k < |infos| && upc != "" && upc in infos[k].barcodes
               && (forall j :: 0 <= j < k ==> upc !in infos[j].barcodes)
      ensures BestMatch(sheetName, upc, infos) == Some(infos[k])
    {
      FirstIsUnique(infos, hit, k);
    }
    var score := Scorer(sheetName);
    ArgMaxIsFirstMax(infos, score, 0.0);
    if NoBarcodeHit(upc, infos) {
      assert FirstIndex(infos, hit).None?;
      assert forall j :: 0 <= j < |infos| ==> score(infos[j]) == MatchScore(sheetName, infos[j]);
      var best := ArgMax(infos, score, 0.0);
      if best.Some? {
        assert MatchScore(sheetName, infos[best.value]) >= 0.4;
      }
    }
  }

  /** The two loops of `find_best_match`, with the score it reports. */
  method FindBestMatch(sheetName: string, upc: string, index: Dicts.Dict<string, Info>) returns (m: Option<Info>, score: real)
    ensures m == BestMatch(sheetName, upc, Dicts.Values(index))
    ensures m.None? ==> score == 0.0
    ensures m.Some? ==> score == if NoBarcodeHit(upc, Dicts.Values(index)) then MatchScore(sheetName, m.value) else 1.0
  {
    var infos := Dicts.Values(index);
    var hit := FirstBy(infos, BarcodeHit(upc));
    if hit.Some? {
      assert !NoBarcodeHit(upc, infos) by { assert BarcodeHit(upc)(infos[hit.value]); }
      return Some(infos[hit.value]), 1.0;
    }
    var best, bestScore := BestBy(infos, Scorer(sheetName), 0.0);
    if best.Some? && bestScore >= 0.4 {
      return Some(infos[best.value]), bestScore;
    }
    return None, 0.0;
  }

  // ------------------------------------------------------------------
  // The row loop of `process_site`

  /** The loop's state: the used normalised titles, the matched UPCs and the new matches in order. */
  datatype Pass = Pass(used: set<string>, matched: set<string>, picks: seq<(string, Info)>)

  /**
   * The match one row takes, given its (UPC, name) and its best match:
   * none without a UPC or a name or when the UPC is matched already, and
   * none when the best match's title is used already.
   */
  function Taken(used: set<string>, matched: set<string>, key: (string, string), found: Option<Info>): (r: Option<Info>)
    ensures r.Some? ==> found == r && key.0 != "" && key.0 !in matched && r.value.norm !in used
  {
    var (upc, name) := key;
    if upc == "" || name == "" || upc in matched then None
    else match found
      case None => None
      case Some(info) => if info.norm in used then None else Some(info)
  }

  /** One row: a taken match marks its title used and its UPC matched, and is appended. */
  function Visit(p: Pass, key: (string, string), found: Option<Info>): Pass
  {
    match Taken(p.used, p.matched, key, found)
    case None => p
    case Some(info) => Pass(p.used + {info.norm}, p.matched + {key.0}, p.picks + [(key.0, info)])
  }

  /** The rows visited in order. */
  function Scan(p: Pass, keys: seq<(string, string)>, infos: seq<Info>): Pass
    decreases |keys|
  {
    if keys == [] then p
    else
      var key := keys[|keys| - 1];
      Visit(Scan(p, keys[..|keys| - 1], infos), key, BestMatch(key.1, key.0, infos))
  }

  lemma ScanStep(p: Pass, keys: seq<(string, string)>, key: (string, string), infos: seq<Info>)
    ensures Scan(p, keys + [key], infos) == Visit(Scan(p, keys, infos), key, BestMatch(key.1, key.0, infos))
  {
    assert (keys + [key])[..|keys|] == keys;
  }

  /** The state before the first row: the titles and UPCs of the earlier results. */
  function Start(existing: seq<Entry>): Pass
  {
    Pass(set e | e in existing :: Normalize(e.title), set e | e in existing && e.upc != "" :: e.upc, [])
  }

  /** The result row of a new match. */
  function EntryOf(pick: (string, Info)): Entry
  {
    Entry(pick.0, pick.1.title, pick.1.description, pick.1.imageUrl, pick.1.productUrl)
  }

  function Entries(picks: seq<(string, Info)>): (es: seq<Entry>)
    ensures |es| == |picks|
    ensures forall i :: 0 <= i < |picks| ==> es[i] == EntryOf(picks[i])
  {
    seq(|picks|, i requires 0 <= i < |picks| => EntryOf(picks[i]))
  }

  /** The UPCs of the new matches. */
  function Upcs(picks: seq<(string, Info)>): set<string>
  {
    set i | 0 <= i < |picks| :: picks[i].0
  }

  /** The normalised titles of the new matches. */
  function Norms(picks: seq<(string, Info)>): set<string>
  {
    set i | 0 <= i < |picks| :: picks[i].1.norm
  }

  lemma UpcsNormsAppend(picks: seq<(string, Info)>, x: (string, Info))
    ensures Upcs(picks + [x]) == Upcs(picks) + {x.0}
    ensures Norms(picks + [x]) == Norms(picks) + {x.1.norm}
  {
    var q := picks + [x];
    assert forall i :: 0 <= i < |picks| ==> q[i] == picks[i];
    assert q[|picks|] == x;
  }

  lemma EntriesAppend(picks: seq<(string, Info)>, x: (string, Info))
    ensures Entries(picks + [x]) == Entries(picks) + [EntryOf(x)]
  {
    assert forall i :: 0 <= i < |picks| ==> (picks + [x])[i] == picks[i];
  }

  /**
   * What the loop keeps true from state `init` on: each new match has a
   * UPC of its own that was not matched before, and a title of its own
   * that was not used before; the used and matched sets are the initial
   * ones plus those of the new matches.
   */
  predicate Fresh(init: Pass, p: Pass)
  {
    && (forall i, j :: 0 <= i < j < |p.picks| ==> p.picks[i].0 != p.picks[j].0 && p.picks[i].1.norm != p.picks[j].1.norm)
    && (forall i :: 0 <= i < |p.picks| ==>
          p.picks[i].0 != "" && p.picks[i].0 !in init.matched && p.picks[i].1.norm !in init.used)
    && p.matched == init.matched + Upcs(p.picks)
    && p.used == init.used + Norms(p.picks)
  }

  /** Taking a match with a new UPC and an unused title keeps `Fresh`. */
  lemma FreshAppend(init: Pass, p: Pass, upc: string, info: Info)
    requires Fresh(init, p)
    requires upc != "" && upc !in p.matched && info.norm !in p.used
    ensures Fresh(init, Pass(p.used + {info.norm}, p.matched + {upc}, p.picks + [(upc, info)]))
  {
    var ps := p.picks;
    var qs := ps + [(upc, info)];
    UpcsNormsAppend(ps, (upc, info));
    forall i | 0 <= i < |ps|
      ensures qs[i] == ps[i] && ps[i].0 != upc && ps[i].1.norm != info.norm
    {
      assert ps[i].0 in Upcs(ps);
      assert ps[i].1.norm in Norms(ps);
    }
    assert qs[|ps|] == (upc, info);
  }

  /** One row keeps `Fresh`. */
  lemma VisitFresh(init: Pass, p: Pass, key: (string, string), found: Option<Info>)
    requires Fresh(init, p)
    ensures Fresh(init, Visit(p, key, found))
  {
    var t := Taken(p.used, p.matched, key, found);
    if t.Some? {
      FreshAppend(init, p, key.0, t.value);
    }
  }

  /**
   * Over any rows, the new matches have distinct UPCs and distinct titles,
   * none matched or used before.
   */
  lemma {:induction false} ScanFresh(init: Pass, keys: seq<(string, string)>, infos: seq<Info>)
    requires init.picks == []
    ensures Fresh(init, Scan(init, keys, infos))
    decreases |keys|
  {
    if keys != [] {
      var n := |keys| - 1;
      ScanFresh(init, keys[..n], infos);
      VisitFresh(init, Scan(init, keys[..n], infos), keys[n], BestMatch(keys[n].1, keys[n].0, infos));
    }
  }

  /** Row `r` (of the rows visited) has UPC `upc` and best match `info`. */
  predicate MatchedBy(keys: seq<(string, string)>, infos: seq<Info>, r: int, upc: string, info: Info)
  {
    0 <= r < |keys| && keys[r].0 == upc && BestMatch(keys[r].1, keys[r].0, infos) == Some(info)
  }

  /** Each new match is the best match of a row with that UPC. */
  lemma {:induction false} ScanSources(init: Pass, keys: seq<(string, string)>, infos: seq<Info>, i: nat) returns (r: nat)
    requires i < |Scan(init, keys, infos).picks| - |init.picks|
    ensures MatchedBy(keys, infos, r, Scan(init, keys, infos).picks[|init.picks| + i].0, Scan(init, keys, infos).picks[|init.picks| + i].1)
    decreases |keys|
  {
    var n := |keys| - 1;
    var p := Scan(init, keys[..n], infos);
    var found := BestMatch(keys[n].1, keys[n].0, infos);
    var q := Visit(p, keys[n], found);
    var t := Taken(p.used, p.matched, keys[n], found);
    assert t.None? ==> q == p;
    assert t.Some? ==> q.picks == p.picks + [(keys[n].0, found.value)];
    if |init.picks| + i < |p.picks| {
      r := ScanSources(init, keys[..n], infos, i);
      assert q.picks[|init.picks| + i] == p.picks[|init.picks| + i];
      assert keys[r] == keys[..n][r];
    } else {
      r := n;
    }
  }

  /** A match is never given a title already present in the earlier results. */
  lemma NoReuseOfExisting(existing: seq<Entry>, keys: seq<(string, string)>, infos: seq<Info>, i: nat, e: Entry)
    requires i < |Scan(Start(existing), keys, infos).picks| && e in existing
    ensures Scan(Start(existing), keys, infos).picks[i].1.norm != Normalize(e.title)
    ensures Scan(Start(existing), keys, infos).picks[i].0 != e.upc
  {
    ScanFresh(Start(existing), keys, infos);
    assert e.upc != "" ==> e.upc in Start(existing).matched;
  }

  /** The normalised titles of the earlier results, gathered in a loop. */
  method UsedTitles(existing: seq<Entry>) returns (used: set<string>)
    ensures used == set e | e in existing :: Normalize(e.title)
  {
    used := {};
    var k := 0;
    while k < |existing|
      invariant 0 <= k <= |existing|
      invariant used == set e | e in existing[..k] :: Normalize(e.title)
      decreases |existing| - k
    {
      assert existing[..k + 1] == existing[..k] + [existing[k]];
      used := used + {Normalize(existing[k].title)};
      k := k + 1;
    }
    assert existing[..k] == existing;
  }

  /** One row of the loop: the match it takes, if any. */
  method MatchRow(used: set<string>, matched: set<string>, upc: string, name: string, index: Dicts.Dict<string, Info>)
    returns (taken: Option<Info>)
    ensures taken == Taken(used, matched, (upc, name), BestMatch(name, upc, Dicts.Values(index)))
  {
    if upc == "" || name == "" || upc in matched {
      return None;
    }
    var m, score := FindBestMatch(name, upc, index);
    if m.Some? && m.value.norm !in used {
      return m;
    }
    return None;
  }

  /**
   * The row loop from the used titles `used` and matched UPCs `matched`:
   * the new result rows in sheet order, with the sets it leaves.
   */
  method MatchRows(used: set<string>, matched: set<string>, rows: seq<Row>, index: Dicts.Dict<string, Info>)
    returns (added: seq<Entry>, usedAfter: set<string>, matchedAfter: set<string>)
    ensures var p := Scan(Pass(used, matched, []), ScraperLib.RowKeys(rows), Dicts.Values(index));
            added == Entries(p.picks) && usedAfter == p.used && matchedAfter == p.matched
  {
    ghost var infos := Dicts.Values(index);
    ghost var start := Pass(used, matched, []);
    ghost var keys := ScraperLib.RowKeys(rows);
    ghost var p := start;
    assert keys[..0] == [];
    added, usedAfter, matchedAfter := [], used, matched;
    var i := 0;
    while i < |rows|
      invariant 0 <= i <= |rows|
      invariant p == Scan(start, keys[..i], infos)
      invariant p.used == usedAfter && p.matched == matchedAfter
      invariant added == Entries(p.picks)
      decreases |rows| - i
    {
      var key := ScraperLib.RowKey(rows[i]);
      var upc, name := key.0, key.1;
      PrefixSnoc(keys, i);
      ScanStep(start, keys[..i], (upc, name), infos);
      var taken := MatchRow(usedAfter, matchedAfter, upc, name, index);
      if taken.Some? {
        usedAfter := usedAfter + {taken.value.norm};
        added := added + [EntryOf((upc, taken.value))];
        matchedAfter := matchedAfter + {upc};
        EntriesAppend(p.picks, (upc, taken.value));
      }
      p := Visit(p, (upc, name), BestMatch(name, upc, infos));
      i := i + 1;
    }
    assert keys[..|rows|] == keys;
  }

  /**
   * `process_site`'s matching: the earlier results followed by the new
   * matches in sheet order, and the number of new matches.
   */
  method ProcessSite(existing: seq<Entry>, rows: seq<Row>, index: Dicts.Dict<string, Info>)
    returns (results: seq<Entry>, newMatches: nat)
    ensures var p := Scan(Start(existing), ScraperLib.RowKeys(rows), Dicts.Values(index));
            results == existing + Entries(p.picks) && newMatches == |p.picks|
  {
    var alreadyMatched := set e | e in existing && e.upc != "" :: e.upc;
    var usedProducts := UsedTitles(existing);
    var added, _, _ := MatchRows(usedProducts, alreadyMatched, rows, index);
    results := existing + added;
    newMatches := |added|;
  }
}
