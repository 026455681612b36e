/**
 * The Crayola scraper: the store's Shopify catalog is downloaded and
 * indexed by normalised title, and each sheet row with a UPC is matched
 * by barcode, else by the share of its name's words in a title.
 */
module ScrapeCrayola {
  import opened Wrappers
  import opened Text
  import opened Matching
  import opened Shopify
  import opened Sheet
  import ScraperLib
  import Dicts
  import Paging

  const Base: string := "https://www.crayola.com"
  const PageSize: nat := 250
  const Filler: set<string> := {"the", "a", "ct", "pack", "set", "crayola"}

  /** The catalog download; a request that raises ends it like a refusal. */
  method GetAllProducts(replies: seq<Paging.Reply<Product>>) returns (all: seq<Product>)
    ensures all == Paging.Pages(replies, PageSize)
  {
    all := Paging.Paginate(replies, PageSize);
  }

  /** `normalize(s or "")`: a missing name normalises to the empty string. */
  lemma NormalizeOfNothing()
    ensures Normalize("") == ""
  {
    assert Lower("") == "";
    assert MapChars("", NormOrSpace) == "";
    CollapseRunsEmpty("", IsSpace, ' ');
    StripOfNoEdge("");
  }

  /** The sheet name's words that count, filler dropped unless nothing else is left. */
  function SheetSig(sheetName: string): set<string>
  {
    Significant(WordSet(Normalize(sheetName)), Filler)
  }

  /**
   * The share of `sig` found in `other` when at least half of `sig` is
   * found, else 0.
   */
  function HalfShare(sig: set<string>, other: set<string>): (r: real)
    ensures r == 0.0 || 0.5 <= r <= 1.0
    ensures r > 0.0 <==> (sig != {} && 2 * |sig * other| >= |sig| && sig * other != {})
    ensures r == 1.0 ==> sig <= other
  {
    if sig == {} then 0.0
    else
      var overlap := sig * other;
      SubsetCard(overlap, sig);
      RatioBounds(|overlap|, |sig|);
      if 2 * |overlap| >= |sig| then
        assert |overlap| > 0;
        RatioAtLeast(|overlap|, |sig|, 0.5);
        assert Ratio(|overlap|, |sig|) == 1.0 ==> sig <= other by {
          if |overlap| == |sig| { assert sig == overlap + (sig - overlap); }
        }
        Ratio(|overlap|, |sig|)
      else 0.0
  }

  /**
   * `match_score`: the share of the sheet name's significant words in the
   * title's, or 0 when less than half of them are there. There is no
   * shortcut for equal names: a title made only of filler words is
   * matched by its own name only through the words themselves.
   */
  function MatchScore(sheetName: string, info: Info): (r: real)
    ensures r == 0.0 || 0.5 <= r <= 1.0
    ensures r > 0.0 <==> (SheetSig(sheetName) != {}
                          && 2 * |SheetSig(sheetName) * (info.words - Filler)| >= |SheetSig(sheetName)|
                          && SheetSig(sheetName) * (info.words - Filler) != {})
  {
    HalfShare(SheetSig(sheetName), info.words - Filler)
  }

  /**
   * A name made only of filler words scores 0 against a title made only
   * of filler words, even the identical title.
   */
  lemma FillerOnlyNeverMatches(sheetName: string, info: Info)
    requires WordSet(Normalize(sheetName)) <= Filler && info.words <= Filler
    ensures MatchScore(sheetName, info) == 0.0
  {
    assert info.words - Filler == {};
  }

  /** The barcode test: only a non-empty UPC is looked up. */
  function BarcodeHit(upc: string): Info -> bool
  {
    (info: Info) => upc != "" && upc in info.barcodes
  }

  function Scorer(sheetName: string): Info -> real
  {
    (info: Info) => MatchScore(sheetName, info)
  }

  /**
   * `find_match` over the index's records in order: a record carrying the
   * UPC as a barcode first; nothing for an empty name; else the first
   * record of maximal score, when that reaches 0.5.
   */
  function FindMatch(upc: string, name: string, infos: seq<Info>): (r: Option<Info>)
    ensures r.Some? ==> r.value in infos
  {
    match FirstIndex(infos, BarcodeHit(upc))
    case Some(k) => Some(infos[k])
    case None =>
      if name == "" then None
      else ScorePick(infos, Scorer(name))
  }

  /** The first record of maximal score, when that reaches 0.5. */
  function ScorePick(infos: seq<Info>, score: Info -> real): (r: Option<Info>)
    ensures r.Some? ==> r.value in infos
  {
    match ArgMax(infos, score, 0.0)
    case Some(k) => if score(infos[k]) >= 0.5 then Some(infos[k]) else None
    case None => None
  }

  /** A record carrying the UPC as a barcode, the first such, is the match. */
  lemma FindMatchBarcode(upc: string, name: string, infos: seq<Info>)
    ensures forall k :: 0 <= k < |infos| && upc != "" && upc in infos[k].barcodes
                        && (forall j :: 0 <= j < k ==> upc !in infos[j].barcodes) ==>
              FindMatch(upc, name, infos) == Some(infos[k])
  {
    var hit := BarcodeHit(upc);
    forall k | 0 <= k < |infos| && upc != "" && upc in infos[k].barcodes
               && (forall j :: 0 <= j < k ==> upc !in infos[j].barcodes)
      ensures FindMatch(upc, name, infos) == Some(infos[k])
    {
      FirstIsUnique(infos, hit, k);
    }
  }

  /** Without a barcode hit, the match is the first record of maximal score, if that is not 0. */
  lemma FindMatchByScore(upc: string, name: string, infos: seq<Info>)
    requires upc == "" || forall j :: 0 <= j < |infos| ==> upc !in infos[j].barcodes
    ensures name == "" ==> FindMatch(upc, name, infos).None?
    ensures name != "" ==>
              (FindMatch(upc, name, infos).None? <==> forall j :: 0 <= j < |infos| ==> MatchScore(name, infos[j]) == 0.0)
    ensures FindMatch(upc, name, infos).Some? ==>
              exists k :: 0 <= k < |infos| && FindMatch(upc, name, infos) == Some(infos[k])
                && 0.5 <= MatchScore(name, infos[k])
                && (forall j :: 0 <= j < |infos| ==> MatchScore(name, infos[j]) <= MatchScore(name, infos[k]))
                && (forall j :: 0 <= j < k ==> MatchScore(name, infos[j]) < MatchScore(name, infos[k]))
  {
    assert FirstIndex(infos, BarcodeHit(upc)).None?;
    if name != "" {
      var k := BestPick(infos, Scorer(name));
    }
  }

  /**
   * With scores that are 0 or at least 0.5, a record is picked unless
   * every score is 0, and the pick, at `k`, is the first record of
   * maximal score.
   */
  lemma BestPick(infos: seq<Info>, score: Info -> real) returns (k: nat)
    requires forall j :: 0 <= j < |infos| ==> score(infos[j]) == 0.0 || score(infos[j]) >= 0.5
    ensures ScorePick(infos, score).None? <==> forall j :: 0 <= j < |infos| ==> score(infos[j]) == 0.0
    ensures ScorePick(infos, score).Some? ==>
              && k < |infos| && ScorePick(infos, score) == Some(infos[k])
              && 0.5 <= score(infos[k])
              && (forall j :: 0 <= j < |infos| ==> score(infos[j]) <= score(infos[k]))
              && (forall j :: 0 <= j < k ==> score(infos[j]) < score(infos[k]))
  {
    ArgMaxIsFirstMax(infos, score, 0.0);
    var m := ArgMax(infos, score, 0.0);
    k := if m.Some? then m.value else 0;
  }

  /** The two loops of `find_match`. */
  method FindMatchIn(upc: string, name: string, index: Dicts.Dict<string, Info>) returns (m: Option<Info>)
    ensures m == FindMatch(upc, name, Dicts.Values(index))
  {
    var infos := Dicts.Values(index);
    if upc != "" {
      var hit := FirstBy(infos, BarcodeHit(upc));
      if hit.Some? {
        return Some(infos[hit.value]);
      }
    } else {
      assert FirstIndex(infos, BarcodeHit(upc)).None?;
    }
    if name == "" {
      return None;
    }
    var best, bestScore := BestBy(infos, Scorer(name), 0.0);
    if bestScore >= 0.5 {
      return Some(infos[best.value]);
    }
    return None;
  }

  // ------------------------------------------------------------------
  // The row loop

  /** The result row of a row with a UPC and a match; rows without a UPC are skipped. */
  function RowResult(infos: seq<Info>): ((string, string)) -> Option<Entry>
  {
    (key: (string, string)) =>
      if key.0 == "" then None
      else match FindMatch(key.0, key.1, infos)
        case None => None
        case Some(info) => Some(Entry(key.0, info.title, info.description, info.imageUrl, info.productUrl))
  }

  /** One row of the loop. */
  method MatchRow(upc: string, name: string, index: Dicts.Dict<string, Info>) returns (entry: Option<Entry>)
    ensures entry == RowResult(Dicts.Values(index))((upc, name))
  {
    if upc == "" {
      return None;
    }
    var m := FindMatchIn(upc, name, index);
    if m.Some? {
      return Some(Entry(upc, m.value.title, m.value.description, m.value.imageUrl, m.value.productUrl));
    }
    return None;
  }

  /** `main`'s loop: the index built from the catalog, then one result per matched row, in sheet order. */
  method Run(products: seq<Product>, rows: seq<Row>) returns (results: seq<Entry>)
    ensures results == Gather(ScraperLib.RowKeys(rows), RowResult(Dicts.Values(NameIndex(products, Base))))
  {
    var index := BuildNameIndex(products, Base);
    ghost var keys := ScraperLib.RowKeys(rows);
    ghost var f := RowResult(Dicts.Values(index));
    assert keys[..0] == [];
    results := [];
    var i := 0;
    while i < |rows|
      invariant 0 <= i <= |rows|
      invariant results == Gather(keys[..i], f)
      decreases |rows| - i
    {
      var key := ScraperLib.RowKey(rows[i]);
      PrefixSnoc(keys, i);
      GatherStep(keys[..i], key, f);
      var entry := MatchRow(key.0, key.1, index);
      if entry.Some? {
        results := results + [entry.value];
      }
      i := i + 1;
    }
    assert keys[..|rows|] == keys;
  }

  /** Every result row carries the UPC of its sheet row, which is never empty, and the data of an indexed record. */
  lemma ResultsFromRows(products: seq<Product>, rows: seq<Row>, i: nat)
    requires i < |Gather(ScraperLib.RowKeys(rows), RowResult(Dicts.Values(NameIndex(products, Base))))|
    ensures var e := Gather(ScraperLib.RowKeys(rows), RowResult(Dicts.Values(NameIndex(products, Base))))[i];
            && e.upc != ""
            && (exists r :: 0 <= r < |rows| && ScraperLib.GetUpc(rows[r]) == e.upc)
            && (exists info :: info in Dicts.Values(NameIndex(products, Base)) && e.title == info.title
                  && e.imageUrl == info.imageUrl && e.productUrl == info.productUrl)
  {
    var keys := ScraperLib.RowKeys(rows);
    var r := EntryFrom(keys, Dicts.Values(NameIndex(products, Base)), i);
    assert keys[r] == ScraperLib.RowKey(rows[r]);
  }

  /** The row a result comes from: its UPC is the row's, and its data that of a record of `infos`. */
  lemma EntryFrom(keys: seq<(string, string)>, infos: seq<Info>, i: nat) returns (r: nat)
    requires i < |Gather(keys, RowResult(infos))|
    ensures var e := Gather(keys, RowResult(infos))[i];
            && r < |keys| && e.upc == keys[r].0 && e.upc != ""
            && (exists info :: info in infos && e.title == info.title
                  && e.imageUrl == info.imageUrl && e.productUrl == info.productUrl)
  {
    var f := RowResult(infos);
    var src := GatherSpec(keys, f);
    r := src[i];
    var e := Gather(keys, f)[i];
    assert f(keys[r]) == Some(e);
    var info := FindMatch(keys[r].0, keys[r].1, infos).value;
    assert info in infos;
  }
}
