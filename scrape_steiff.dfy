/**
 * The Steiff scraper: product links are gathered from the category pages,
 * each product page visited in sorted URL order becomes a catalog item
 * (titles mentioning "search" excluded), and each sheet row with a UPC
 * takes the first item its name matches.
 */
module ScrapeSteiff {
  import opened Wrappers
  import opened Text
  import opened Matching
  import opened Sheet
  import opened BrowserCatalog
  import ScraperLib

  const Filler: set<string> := {"teddy", "bear", "classic", "inch", "the", "of", "a", "with", "plush"}

  /** `name_match`: equal normalised names, or all of at most two significant words, or half of more. */
  predicate NameMatch(sheetName: string, title: string)
  {
    EqualOrWords(sheetName, title, Filler, 1, 2)
  }

  /**
   * The link test of the category pages, `steiff.com/en-us/` followed by a
   * run of characters other than "/", a "-" and five digits, anywhere in
   * the link.
   */
  predicate ProductLink(h: string)
  {
    exists i, m | 0 <= i < m < |h| :: LinkAt(h, i, m)
  }

  /** The pattern found with `steiff.com/en-us/` at `i` and the "-" before the digits at `m`. */
  predicate LinkAt(h: string, i: int, m: int)
  {
    0 <= i && i + 17 < m && m + 6 <= |h| && h[i..i + 17] == "steiff.com/en-us/"
    && '/' !in h[i + 17..m] && h[m] == '-' && All(h[m + 1..m + 6], IsDigit)
  }

  /**
   * A link of the form `…steiff.com/en-us/<name>-<five digits>…`, the
   * name without "/", passes the link test.
   */
  lemma ProductLinkOf(head: string, name: string, digits: string, tail: string)
    requires name != "" && '/' !in name && |digits| == 5 && All(digits, IsDigit)
    ensures ProductLink(head + "steiff.com/en-us/" + name + "-" + digits + tail)
  {
    var path := "steiff.com/en-us/";
    var h := head + path + name + "-" + digits + tail;
    var i := |head|;
    var m := i + 17 + |name|;
    assert h == head + (path + (name + ("-" + (digits + tail))));
    assert h[i..] == path + (name + ("-" + (digits + tail)));
    assert h[i..i + 17] == path;
    assert h[i + 17..] == name + ("-" + (digits + tail));
    assert h[i + 17..m] == name;
    assert h[m..] == "-" + (digits + tail);
    assert h[m + 1..m + 6] == digits;
    assert LinkAt(h, i, m);
  }

  /** A catalog title: anything not mentioning "search", whatever its case. */
  predicate KeepTitle(title: string)
  {
    !Contains(Lower(title), "search")
  }

  /** The item a product URL gives, with the URL the page ended on. */
  function ItemFor(visits: map<string, Visit>): string -> Option<Item>
  {
    (u: string) =>
      match VisitOf(visits, u)
      case Unreachable => None
      case Loaded(_, final, _) => ItemOf(VisitOf(visits, u), final, KeepTitle)
  }

  /** The catalog: the items of the product URLs of the category pages, in sorted URL order. */
  function Catalog(pages: seq<seq<string>>, visits: map<string, Visit>): seq<Item>
  {
    Gather(ProductUrls(pages, ProductLink, Anything), ItemFor(visits))
  }

  /**
   * Every catalog item has a title that does not mention "search", and it
   * comes from a product URL whose page loaded, carrying the URL the page
   * ended on; `src` gives each item's URL position, and the items follow
   * the order of their URLs.
   */
  lemma CatalogSpec(pages: seq<seq<string>>, visits: map<string, Visit>) returns (src: seq<nat>)
    ensures |src| == |Catalog(pages, visits)|
    ensures forall i, j :: 0 <= i < j < |src| ==> src[i] < src[j]
    ensures forall i :: 0 <= i < |src| ==> src[i] < |ProductUrls(pages, ProductLink, Anything)|
    ensures forall i :: 0 <= i < |src| ==>
              var it := Catalog(pages, visits)[i];
              var v := VisitOf(visits, ProductUrls(pages, ProductLink, Anything)[src[i]]);
              it.title != "" && !Contains(Lower(it.title), "search") && v.Loaded? && it.url == v.finalUrl
  {
    var urls := ProductUrls(pages, ProductLink, Anything);
    var f := ItemFor(visits);
    src := GatherSpec(urls, f);
    forall i | 0 <= i < |src|
      ensures var it := Catalog(pages, visits)[i];
              var v := VisitOf(visits, urls[src[i]]);
              it.title != "" && !Contains(Lower(it.title), "search") && v.Loaded? && it.url == v.finalUrl
    {
      assert f(urls[src[i]]) == Some(Catalog(pages, visits)[i]);
    }
  }

  /** `main`: the sheet rows (cut by `--limit`) matched against the catalog. */
  function Results(rows: seq<Row>, limit: Option<int>, pages: seq<seq<string>>, visits: map<string, Visit>): seq<Entry>
  {
    Gather(ScraperLib.RowKeys(Limited(rows, limit)), RowResult(Catalog(pages, visits), NameMatch))
  }

  /** The three loops of `main`: the links, the catalog, the rows. */
  method Run(rows: seq<Row>, limit: Option<int>, pages: seq<seq<string>>, visits: map<string, Visit>)
    returns (results: seq<Entry>)
    ensures results == Results(rows, limit, pages, visits)
  {
    var sheet := Limited(rows, limit);
    var urls := CollectUrls(pages, ProductLink, Anything);
    var catalog := BuildCatalog(urls, ItemFor(visits));
    results := MatchRows(sheet, catalog, NameMatch);
  }
}
