/**
 * The Cazenove scraper: `.html` links of the store are gathered from the
 * category pages and narrowed to product pages, each product page
 * visited in sorted URL order becomes a catalog item unless it says it
 * could not be found, and each sheet row with a UPC takes the first item
 * its name matches.
 */
module ScrapeCazenove {
  import opened Wrappers
  import opened Text
  import opened Matching
  import opened Sheet
  import opened BrowserCatalog
  import ScraperLib

  const Filler: set<string> := {"the", "of", "a", "and", "with", "for", "pack", "set"}

  /** `name_match`: equal normalised names, or all of at most two significant words, or half of more. */
  predicate NameMatch(sheetName: string, title: string)
  {
    EqualOrWords(sheetName, title, Filler, 1, 2)
  }

  /** The link test of the category pages: a store link ending in `.html` with at least four "/". */
  predicate StoreLink(h: string)
  {
    Contains(h, "cazenovejudaica.com") && EndsWith(h, ".html") && CountCh(h, '/') >= 4
  }

  /** A product page rather than a category: five "/" or more and a "-" in the last segment. */
  predicate ProductPage(u: string)
  {
    CountCh(u, '/') >= 5 && '-' in AfterLast(u, '/')
  }

  /** The item a product URL gives: none for a "could not be found" page, else with the URL the page ended on. */
  function ItemFor(visits: map<string, Visit>): string -> Option<Item>
  {
    (u: string) =>
      match VisitOf(visits, u)
      case Unreachable => None
      case Loaded(_, final, html) =>
        if Contains(Lower(html), "could not be found") then None
        else ItemOf(VisitOf(visits, u), final, Anything)
  }

  /** The catalog: the items of the product pages among the store links, in sorted URL order. */
  function Catalog(pages: seq<seq<string>>, visits: map<string, Visit>): seq<Item>
  {
    Gather(ProductUrls(pages, StoreLink, ProductPage), ItemFor(visits))
  }

  /**
   * Every catalog item has a title and comes from a product-page URL whose
   * page loaded without saying it could not be found; it carries the URL
   * the page ended on.
   */
  lemma CatalogSpec(pages: seq<seq<string>>, visits: map<string, Visit>, i: nat)
    requires i < |Catalog(pages, visits)|
    ensures var it := Catalog(pages, visits)[i];
            it.title != ""
            && exists u :: u in ProductUrls(pages, StoreLink, ProductPage) && ProductPage(u)
                 && VisitOf(visits, u).Loaded?
                 && !Contains(Lower(VisitOf(visits, u).html), "could not be found")
                 && it.url == VisitOf(visits, u).finalUrl
  {
    var urls := ProductUrls(pages, StoreLink, ProductPage);
    var f := ItemFor(visits);
    var src := GatherSpec(urls, f);
    var u := urls[src[i]];
    assert f(u) == Some(Catalog(pages, visits)[i]);
    ProductUrlsSpec(pages, StoreLink, ProductPage, u);
  }

  /** `main`: the sheet rows (cut by `--limit`) matched against the catalog. */
  function Results(rows: seq<Row>, limit: Option<int>, pages: seq<seq<string>>, visits: map<string, Visit>): seq<Entry>
  {
    Gather(ScraperLib.RowKeys(Limited(rows, limit)), RowResult(Catalog(pages, visits), NameMatch))
  }

  /** The loops of `main`: the links and their filter, the catalog, the rows. */
  method Run(rows: seq<Row>, limit: Option<int>, pages: seq<seq<string>>, visits: map<string, Visit>)
    returns (results: seq<Entry>)
    ensures results == Results(rows, limit, pages, visits)
  {
    var sheet := Limited(rows, limit);
    var urls := CollectUrls(pages, StoreLink, ProductPage);
    var catalog := BuildCatalog(urls, ItemFor(visits));
    results := MatchRows(sheet, catalog, NameMatch);
  }
}
