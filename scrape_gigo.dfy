/**
 * The Gigo scraper: `/products/….html` links are gathered from the
 * category pages, each product page visited in sorted URL order becomes a
 * catalog item (titles mentioning "gigotoys" excluded), and each sheet row
 * with a UPC takes the first item its name matches.
 */
module ScrapeGigo {
  import opened Wrappers
  import opened Text
  import opened Matching
  import opened Sheet
  import opened BrowserCatalog
  import ScraperLib

  const Base: string := "https://www.gigotoys.com"
  const Filler: set<string> := {"baby", "set", "the", "of", "and", "my", "lil", "inch", "12", "14", "16"}

  /** `name_match`: one normalised name inside the other, or all of at most two significant words, or half of more. */
  predicate NameMatch(sheetName: string, title: string)
  {
    ContainedOrWords(sheetName, title, Filler, 1, 2)
  }

  /** The link test: a `/products/` link ending in `.html`. */
  predicate ProductLink(h: string)
  {
    Contains(h, "/products/") && EndsWith(h, ".html")
  }

  /** A catalog title: anything not mentioning "gigotoys", whatever its case. */
  predicate KeepTitle(title: string)
  {
    !Contains(Lower(title), "gigotoys")
  }

  /** The item a product URL gives, with that URL. */
  function ItemFor(visits: map<string, Visit>): string -> Option<Item>
  {
    (u: string) => ItemOf(VisitOf(visits, u), u, KeepTitle)
  }

  /** The catalog: the items of the product URLs of the category pages, in sorted URL order. */
  function Catalog(pages: seq<seq<string>>, visits: map<string, Visit>): seq<Item>
  {
    Gather(ProductUrls(pages, ProductLink, Anything), ItemFor(visits))
  }

  /**
   * Every catalog item has a title that does not mention "gigotoys" and
   * carries the product URL it was read from.
   */
  lemma CatalogSpec(pages: seq<seq<string>>, visits: map<string, Visit>, i: nat)
    requires i < |Catalog(pages, visits)|
    ensures var it := Catalog(pages, visits)[i];
            it.title != "" && !Contains(Lower(it.title), "gigotoys")
            && it.url in ProductUrls(pages, ProductLink, Anything) && VisitOf(visits, it.url).Loaded?
  {
    var urls := ProductUrls(pages, ProductLink, Anything);
    var f := ItemFor(visits);
    var src := GatherSpec(urls, f);
    var u := urls[src[i]];
    assert f(u) == Some(Catalog(pages, visits)[i]);
  }

  /** `main`: the sheet rows matched against the catalog. */
  function Results(rows: seq<Row>, pages: seq<seq<string>>, visits: map<string, Visit>): seq<Entry>
  {
    Gather(ScraperLib.RowKeys(rows), RowResult(Catalog(pages, visits), NameMatch))
  }

  /** The loops of `main`: the links, the catalog, the rows. */
  method Run(rows: seq<Row>, pages: seq<seq<string>>, visits: map<string, Visit>) returns (results: seq<Entry>)
    ensures results == Results(rows, pages, visits)
  {
    var urls := CollectUrls(pages, ProductLink, Anything);
    var catalog := BuildCatalog(urls, ItemFor(visits));
    results := MatchRows(rows, catalog, NameMatch);
  }
}
