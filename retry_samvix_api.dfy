/**
 * The Samvix retry over the store's WordPress REST API: the product list
 * is read page by page, the titled products form the catalog, and every
 * sheet row takes the best-scoring catalog item not used by an earlier
 * row.
 */
module RetrySamvixApi {
  import opened Wrappers
  import opened Text
  import opened Matching
  import opened Sheet
  import ScraperLib
  import Markup
  import Paging

  const PageSize: nat := 100

  const Filler: set<string> := {
    "the", "a", "an", "and", "or", "of", "for", "with", "by", "in", "to",
    "samvix", "mp3", "player", "gb", "new"
  }

  /** The product list download: pages of 100 until a refusal, an empty page or a short one. */
  method FetchAllProducts(replies: seq<Paging.Reply<ApiProduct>>) returns (all: seq<ApiProduct>)
    ensures all == Paging.Pages(replies, PageSize)
  {
    all := Paging.Paginate(replies, PageSize);
  }

  // ------------------------------------------------------------------
  // The catalog

  /**
   * One product of the API; a missing field reads as empty. The source URL
   * of the first featured media is present when that media is an object.
   */
  datatype ApiProduct = ApiProduct(
    titleRendered: string,
    link: string,
    excerptRendered: string,
    contentRendered: string,
    featuredSource: Option<string>)

  /** A catalog item. */
  datatype Item = Item(title: string, description: string, imageUrl: string, productUrl: string, norm: string)

  /** The excerpt, else the content, tags turned to spaces, trimmed, cut at 500. */
  function Description(p: ApiProduct): (d: string)
    ensures |d| <= 500
  {
    Take(Strip(Markup.StripTags(OrElse(p.excerptRendered, p.contentRendered))), 500)
  }

  /** The item of a titled product. */
  function ItemOf(p: ApiProduct): (r: Option<Item>)
    ensures r.None? <==> p.titleRendered == ""
    ensures r.Some? ==> r.value.title == p.titleRendered && r.value.norm == Normalize(p.titleRendered)
                        && |r.value.description| <= 500 && r.value.productUrl == p.link
  {
    if p.titleRendered == "" then None
    else Some(Item(p.titleRendered, Description(p), p.featuredSource.GetOr(""), p.link, Normalize(p.titleRendered)))
  }

  /** An item as the loop makes it. */
  predicate WellFormed(item: Item)
  {
    item.title != "" && |item.description| <= 500 && item.norm == Normalize(item.title)
  }

  /** The items of the titled products, in API order. */
  function Catalog(products: seq<ApiProduct>): (c: seq<Item>)
    ensures |c| <= |products|
    ensures forall x :: x in c ==> WellFormed(x)
    decreases |products|
  {
    if products == [] then []
    else
      var n := |products| - 1;
      var c := Catalog(products[..n]);
      match ItemOf(products[n])
      case None => c
      case Some(item) => c + [item]
  }

  /** An untitled product adds nothing; a titled one adds its item last. */
  lemma CatalogStep(products: seq<ApiProduct>, p: ApiProduct)
    ensures Catalog(products + [p]) == Catalog(products) + (if p.titleRendered == "" then [] else [ItemOf(p).value])
  {
    assert (products + [p])[..|products|] == products;
  }

  /** The catalog loop. */
  method BuildCatalog(products: seq<ApiProduct>) returns (catalog: seq<Item>)
    ensures catalog == Catalog(products)
  {
    catalog := [];
    var i := 0;
    while i < |products|
      invariant 0 <= i <= |products|
      invariant catalog == Catalog(products[..i])
      decreases |products| - i
    {
      PrefixSnoc(products, i);
      CatalogStep(products[..i], products[i]);
      var item := ItemOf(products[i]);
      if item.Some? {
        catalog := catalog + [item.value];
      }
      i := i + 1;
    }
    assert products[..|products|] == products;
  }

  // ------------------------------------------------------------------
  // Scoring

  /** The sheet name's words that count, filler dropped unless nothing else is left. */
  function SheetSig(sheetName: string): set<string>
  {
    Significant(WordSet(Normalize(sheetName)), Filler)
  }

  /**
   * The share of `sig` found in `other`, kept only when it reaches 0.8
   * (one or two words) or 0.4 (more).
   */
  function Tiered(sig: set<string>, other: set<string>): (r: real)
    ensures r == 0.0 || 0.4 <= r <= 1.0
    ensures r > 0.0 ==> sig * other != {}
    ensures 0 < |sig| <= 2 && r > 0.0 ==> sig <= other && r == 1.0
  {
    if sig == {} then 0.0
    else
      var overlap := sig * other;
      SubsetCard(overlap, sig);
      RatioBounds(|overlap|, |sig|);
      var ratio := Ratio(|overlap|, |sig|);
      var need := if |sig| <= 2 then 0.8 else 0.4;
      if ratio >= need then
        assert |sig| <= 2 ==> overlap == sig by {
          if |sig| <= 2 {
            assert |overlap| == |sig|;
            assert sig == overlap + (sig - overlap);
          }
        }
        ratio
      else 0.0
  }

  /**
   * `match_score`: 1.0 for equal normalised names, otherwise the tiered
   * share of the sheet name's significant words in the title's. A name of
   * one or two significant words scores above 0 against a different title
   * only when the title has all of them.
   */
  function MatchScore(sheetName: string, title: string): (r: real)
    ensures r == 0.0 || 0.4 <= r <= 1.0
    ensures Normalize(sheetName) == Normalize(title) ==> r == 1.0
    ensures r > 0.0 && Normalize(sheetName) != Normalize(title) ==>
              SheetSig(sheetName) * (WordSet(Normalize(title)) - Filler) != {}
    ensures r > 0.0 && Normalize(sheetName) != Normalize(title) && |SheetSig(sheetName)| <= 2 ==>
              SheetSig(sheetName) <= WordSet(Normalize(title)) - Filler && r == 1.0
  {
    if Normalize(sheetName) == Normalize(title) then 1.0
    else Tiered(SheetSig(sheetName), WordSet(Normalize(title)) - Filler)
  }

  // ------------------------------------------------------------------
  // The best unused item

  /** The scoring loop's score: an item already used is skipped, which is scoring it 0. */
  function Scorer(sheetName: string, used: set<string>): Item -> real
  {
    (item: Item) => if item.norm in used then 0.0 else MatchScore(sheetName, item.title)
  }

  /** The first unused item of maximal score, kept when that reaches 0.4. */
  function BestFree(sheetName: string, used: set<string>, catalog: seq<Item>): (r: Option<nat>)
    ensures r.Some? ==> r.value < |catalog|
  {
    match ArgMax(catalog, Scorer(sheetName, used), 0.0)
    case Some(k) => if Scorer(sheetName, used)(catalog[k]) >= 0.4 then Some(k) else None
    case None => None
  }

  /**
   * The chosen item is unused, scores at least 0.4, no unused item scores
   * more and every earlier unused item scores less; there is none exactly
   * when every unused item scores 0.
   */
  lemma BestFreeSpec(sheetName: string, used: set<string>, catalog: seq<Item>)
    ensures BestFree(sheetName, used, catalog).None? <==>
              forall j :: 0 <= j < |catalog| && catalog[j].norm !in used ==> MatchScore(sheetName, catalog[j].title) == 0.0
    ensures BestFree(sheetName, used, catalog).Some? ==>
              var k := BestFree(sheetName, used, catalog).value;
              catalog[k].norm !in used && 0.4 <= MatchScore(sheetName, catalog[k].title)
              && (forall j :: 0 <= j < |catalog| && catalog[j].norm !in used ==>
                    MatchScore(sheetName, catalog[j].title) <= MatchScore(sheetName, catalog[k].title))
              && (forall j :: 0 <= j < k && catalog[j].norm !in used ==>
                    MatchScore(sheetName, catalog[j].title) < MatchScore(sheetName, catalog[k].title))
  {
    var score := Scorer(sheetName, used);
    ArgMaxIsFirstMax(catalog, score, 0.0);
    assert forall j :: 0 <= j < |catalog| ==>
             score(catalog[j]) == if catalog[j].norm in used then 0.0 else MatchScore(sheetName, catalog[j].title);
  }

  // ------------------------------------------------------------------
  // The row loop

  /** The item a row takes: none without a UPC or a name, else its best unused item. */
  function Taken(used: set<string>, key: (string, string), catalog: seq<Item>): (r: Option<Item>)
    ensures r.Some? ==> r.value in catalog && r.value.norm !in used && key.0 != ""
  {
    if key.0 == "" || key.1 == "" then None
    else match BestFree(key.1, used, catalog)
      case None => None
      case Some(k) =>
        BestFreeSpec(key.1, used, catalog);
        Some(catalog[k])
  }

  /** The loop's state: the used normalised titles and the matches in order. */
  datatype Pass = Pass(used: set<string>, picks: seq<(string, Item)>)

  function Visit(p: Pass, key: (string, string), catalog: seq<Item>): Pass
  {
    match Taken(p.used, key, catalog)
    case None => p
    case Some(item) => Pass(p.used + {item.norm}, p.picks + [(key.0, item)])
  }

  function Scan(keys: seq<(string, string)>, catalog: seq<Item>): Pass
    decreases |keys|
  {
    if keys == [] then Pass({}, [])
    else Visit(Scan(keys[..|keys| - 1], catalog), keys[|keys| - 1], catalog)
  }

  lemma ScanStep(keys: seq<(string, string)>, key: (string, string), catalog: seq<Item>)
    ensures Scan(keys + [key], catalog) == Visit(Scan(keys, catalog), key, catalog)
  {
    assert (keys + [key])[..|keys|] == keys;
  }

  /** The normalised titles of the matches. */
  function Norms(picks: seq<(string, Item)>): set<string>
  {
    set i | 0 <= i < |picks| :: picks[i].1.norm
  }

  /**
   * Each catalog title goes to one row at most: the matches have distinct
   * normalised titles, which are exactly the used ones, and each match is
   * a catalog item for a row with a UPC.
   */
  predicate OncePerTitle(p: Pass, catalog: seq<Item>)
  {
    && (forall i, j :: 0 <= i < j < |p.picks| ==> p.picks[i].1.norm != p.picks[j].1.norm)
    && (forall i :: 0 <= i < |p.picks| ==> p.picks[i].1 in catalog && p.picks[i].0 != "")
    && p.used == Norms(p.picks)
  }

  /** Taking an unused catalog item for a row with a UPC keeps `OncePerTitle`. */
  lemma OnceAppend(p: Pass, upc: string, item: Item, catalog: seq<Item>)
    requires OncePerTitle(p, catalog)
    requires upc != "" && item in catalog && item.norm !in p.used
    ensures OncePerTitle(Pass(p.used + {item.norm}, p.picks + [(upc, item)]), catalog)
  {
    var ps := p.picks;
    var qs := ps + [(upc, item)];
    forall i | 0 <= i < |ps|
      ensures qs[i] == ps[i] && ps[i].1.norm != item.norm
    {
      assert ps[i].1.norm in Norms(ps);
    }
    assert qs[|ps|] == (upc, item);
    assert Norms(qs) == Norms(ps) + {item.norm};
  }

  lemma {:induction false} ScanOncePerTitle(keys: seq<(string, string)>, catalog: seq<Item>)
    ensures OncePerTitle(Scan(keys, catalog), catalog)
    decreases |keys|
  {
    if keys != [] {
      var n := |keys| - 1;
      var p := Scan(keys[..n], catalog);
      ScanOncePerTitle(keys[..n], catalog);
      var t := Taken(p.used, keys[n], catalog);
      if t.Some? {
        OnceAppend(p, keys[n].0, t.value, catalog);
      }
    }
  }

  /** One row of the loop: the item it takes, if any. */
  method MatchRow(used: set<string>, upc: string, name: string, catalog: seq<Item>) returns (taken: Option<Item>)
    ensures taken == Taken(used, (upc, name), catalog)
  {
    if upc == "" || name == "" {
      return None;
    }
    var best, bestScore := BestBy(catalog, Scorer(name, used), 0.0);
    if best.Some? && bestScore >= 0.4 {
      return Some(catalog[best.value]);
    }
    return None;
  }

  function EntryOf(pick: (string, Item)): Entry
  {
    Entry(pick.0, pick.1.title, pick.1.description, pick.1.imageUrl, pick.1.productUrl)
  }

  function Entries(picks: seq<(string, Item)>): (es: seq<Entry>)
    ensures |es| == |picks|
    ensures forall i :: 0 <= i < |picks| ==> es[i] == EntryOf(picks[i])
  {
    seq(|picks|, i requires 0 <= i < |picks| => EntryOf(picks[i]))
  }

  lemma EntriesAppend(picks: seq<(string, Item)>, x: (string, Item))
    ensures Entries(picks + [x]) == Entries(picks) + [EntryOf(x)]
  {
    assert forall i :: 0 <= i < |picks| ==> (picks + [x])[i] == picks[i];
  }

  /** The matching loop of `main`: the result rows in sheet order, and their count. */
  method MatchAll(rows: seq<Row>, catalog: seq<Item>) returns (results: seq<Entry>, matched: nat)
    ensures results == Entries(Scan(ScraperLib.RowKeys(rows), catalog).picks)
    ensures matched == |results|
  {
    ghost var keys := ScraperLib.RowKeys(rows);
    ghost var p := Pass({}, []);
    assert keys[..0] == [];
    var used: set<string> := {};
    results, matched := [], 0;
    var i := 0;
    while i < |rows|
      invariant 0 <= i <= |rows|
      invariant p == Scan(keys[..i], catalog)
      invariant p.used == used
      invariant results == Entries(p.picks) && matched == |results|
      decreases |rows| - i
    {
      var key := ScraperLib.RowKey(rows[i]);
      var upc, name := key.0, key.1;
      PrefixSnoc(keys, i);
      ScanStep(keys[..i], (upc, name), catalog);
      var taken := MatchRow(used, upc, name, catalog);
      if taken.Some? {
        matched := matched + 1;
        used := used + {taken.value.norm};
        results := results + [EntryOf((upc, taken.value))];
        EntriesAppend(p.picks, (upc, taken.value));
      }
      p := Visit(p, (upc, name), catalog);
      i := i + 1;
    }
    assert keys[..|rows|] == keys;
  }
}
