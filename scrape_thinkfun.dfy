/**
 * The ThinkFun scraper: the product links of the brand's category page at
 * Ravensburger are visited in sorted URL order, each product page becomes
 * a catalog item (titles mentioning "shopping basket" excluded), and each
 * sheet row with a UPC takes the first item its name matches.
 */
module ScrapeThinkFun {
  import opened Wrappers
  import opened Text
  import opened Matching
  import opened Sheet
  import opened BrowserCatalog
  import ScraperLib

  const Base: string := "https://www.ravensburger.us"
  const Filler: set<string> := {"classic", "edition", "game", "the", "of", "a", "deluxe", "card", "board", "puzzle"}

  /** `name_match`: one normalised name inside the other, or all of at most two significant words, or 60% of more. */
  predicate NameMatch(sheetName: string, title: string)
  {
    ContainedOrWords(sheetName, title, Filler, 3, 5)
  }

  /** The link test: a `/products/` link of the brand that is not the shopping basket. */
  predicate ProductLink(h: string)
  {
    Contains(h, "/products/") && Contains(h, "thinkfun") && !Contains(h, "shopping-basket")
  }

  /** A catalog title: anything not mentioning "shopping basket", whatever its case. */
  predicate KeepTitle(title: string)
  {
    !Contains(Lower(title), "shopping basket")
  }

  /** The item a product URL gives, with that URL. */
  function ItemFor(visits: map<string, Visit>): string -> Option<Item>
  {
    (u: string) => ItemOf(VisitOf(visits, u), u, KeepTitle)
  }

  /** The catalog: the items of the category page's product URLs, in sorted URL order. */
  function Catalog(links: seq<string>, visits: map<string, Visit>): seq<Item>
  {
    Gather(ProductUrls([links], ProductLink, Anything), ItemFor(visits))
  }

  /**
   * Every catalog item has a title that does not mention "shopping basket"
   * and carries the product URL it was read from, a link of the brand.
   */
  lemma CatalogSpec(links: seq<string>, visits: map<string, Visit>, i: nat)
    requires i < |Catalog(links, visits)|
    ensures var it := Catalog(links, visits)[i];
            it.title != "" && !Contains(Lower(it.title), "shopping basket")
            && it.url in ProductUrls([links], ProductLink, Anything) && VisitOf(visits, it.url).Loaded?
            && exists h :: h in links && ProductLink(h) && it.url == Before(h, '?')
  {
    var urls := ProductUrls([links], ProductLink, Anything);
    var f := ItemFor(visits);
    var src := GatherSpec(urls, f);
    var u := urls[src[i]];
    assert f(u) == Some(Catalog(links, visits)[i]);
    ProductUrlsSpec([links], ProductLink, Anything, u);
  }

  /** `main`: the sheet rows (cut by `--limit`) matched against the catalog. */
  function Results(rows: seq<Row>, limit: Option<int>, links: seq<string>, visits: map<string, Visit>): seq<Entry>
  {
    Gather(ScraperLib.RowKeys(Limited(rows, limit)), RowResult(Catalog(links, visits), NameMatch))
  }

  /** The loops of `main`: the links, the catalog, the rows. */
  method Run(rows: seq<Row>, limit: Option<int>, links: seq<string>, visits: map<string, Visit>)
    returns (results: seq<Entry>)
    ensures results == Results(rows, limit, links, visits)
  {
    var sheet := Limited(rows, limit);
    var urls := CollectUrls([links], ProductLink, Anything);
    var catalog := BuildCatalog(urls, ItemFor(visits));
    results := MatchRows(sheet, catalog, NameMatch);
  }
}
