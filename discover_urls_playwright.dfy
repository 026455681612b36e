/**
 * Discovering product URLs through a browser: the pattern URL is only
 * recorded, and every row with a UPC or name is resolved by the site
 * search alone, stopping at the first search page that lists any
 * product links.
 */
module DiscoverUrlsPlaywright {
  import opened Wrappers
  import opened Text
  import opened Sheet
  import opened Sites
  import opened Url
  import ProbeSiteStructure
  import GetAllProductData
  import DU = DiscoverUrls

  /**
   * `get_search_urls` of this script: nothing for an empty base or a
   * blank query, the template alone when the site has one, otherwise the
   * five search URLs of discover_urls, of which get_all_product_data
   * uses the first three.
   */
  function GetSearchUrls(cfg: SiteConfig, query: string): (urls: seq<string>)
    ensures urls == [] <==> ProbeSiteStructure.GetSearchUrl(cfg, query).None?
    ensures urls != [] && cfg.searchUrl != "" ==> urls == [ProbeSiteStructure.GetSearchUrl(cfg, query).value]
    ensures urls != [] && cfg.searchUrl == "" ==> urls == DU.SearchTries(RStripCh(cfg.baseUrl, '/'), QuotePlus(Strip(query)))
  {
    var base := RStripCh(cfg.baseUrl, '/');
    if base == "" || Strip(query) == "" then []
    else
      var q := QuotePlus(Strip(query));
      if cfg.searchUrl != "" then [ProbeSiteStructure.SubstituteSearch(cfg.searchUrl, base, q)]
      else DU.SearchTries(base, q)
  }

  /** Without a template, the first three URLs are those of get_all_product_data. */
  lemma FirstThreeAgree(cfg: SiteConfig, query: string)
    requires GetSearchUrls(cfg, query) != [] && cfg.searchUrl == ""
    ensures GetSearchUrls(cfg, query)[..3] == GetAllProductData.GetSearchUrls(cfg, query)
  {
    var base := RStripCh(cfg.baseUrl, '/');
    var q := QuotePlus(Strip(query));
    UnderIsSearchUnder(base, "search?q=", q, "");
    UnderIsSearchUnder(base, "search?q=", q, "&type=product");
    UnderIsSearchUnder(base, "products?q=", q, "");
    assert "search?q=" + q + "" == "search?q=" + q;
    assert "products?q=" + q + "" == "products?q=" + q;
  }

  /** The two scripts' ways of putting a search path under the base agree. */
  lemma UnderIsSearchUnder(base: string, path: string, q: string, tail: string)
    ensures DU.Under(base, path + q + tail) == GetAllProductData.SearchUnder(base, path, q, tail)
  {
    assert base + "/" + (path + q + tail) == base + "/" + path + q + tail;
  }

  /**
   * What the browser collects on each search page it reaches: the
   * (url, text) pairs of its product links. A URL that cannot be reached
   * has no entry.
   */
  type SearchPages = map<string, seq<DU.Link>>

  /** The pairs of one page, with the text cut at 200 characters; none when the page was not reached. */
  function Collected(pages: SearchPages, u: string): (links: seq<DU.Link>)
    ensures forall k :: 0 <= k < |links| ==> |links[k].text| <= 200
  {
    if u in pages then seq(|pages[u]|, k requires 0 <= k < |pages[u]| => DU.Link(pages[u][k].url, Take(pages[u][k].text, 200)))
    else []
  }

  /** The links of the first search page that has any; none when no page has. */
  function FirstLinks(urls: seq<string>, pages: SearchPages): (links: seq<DU.Link>)
    ensures links != [] ==> exists k :: 0 <= k < |urls| && links == Collected(pages, urls[k])
                              && forall j :: 0 <= j < k ==> Collected(pages, urls[j]) == []
    ensures links == [] <==> forall k :: 0 <= k < |urls| ==> Collected(pages, urls[k]) == []
    decreases |urls|
  {
    if urls == [] then []
    else if Collected(pages, urls[0]) != [] then Collected(pages, urls[0])
    else
      var r := FirstLinks(urls[1..], pages);
      assert forall k :: 1 <= k < |urls| ==> urls[k] == urls[1..][k - 1];
      assert r != [] ==> exists k :: 1 <= k < |urls| && r == Collected(pages, urls[k])
                           && forall j :: 0 <= j < k ==> Collected(pages, urls[j]) == [] by {
        if r != [] {
          var k :| 0 <= k < |urls[1..]| && r == Collected(pages, urls[1..][k])
                   && forall j :: 0 <= j < k ==> Collected(pages, urls[1..][j]) == [];
          assert forall j :: 1 <= j < k + 1 ==> Collected(pages, urls[j]) == [];
        }
      }
      r
  }

  /**
   * `search_with_playwright`: the best link of the first search page
   * with any links, if it scores at least 1; weak links on that page end
   * the search, unlike discover_urls, which goes on to the next URL.
   */
  function SearchResult(cfg: SiteConfig, query: string, pages: SearchPages): Option<string>
  {
    DU.Accept(FirstLinks(GetSearchUrls(cfg, query), pages), query)
  }

  /** The navigation loop, breaking at the first page with links, then the scoring. */
  method SearchWithPlaywright(cfg: SiteConfig, query: string, pages: SearchPages) returns (found: Option<string>)
    ensures found == SearchResult(cfg, query, pages)
  {
    var urls := GetSearchUrls(cfg, query);
    if urls == [] {
      return None;
    }
    var allLinks: seq<DU.Link> := [];
    var i := 0;
    while i < |urls|
      invariant 0 <= i <= |urls|
      invariant allLinks == [] && FirstLinks(urls, pages) == FirstLinks(urls[i..], pages)
      decreases |urls| - i
    {
      assert urls[i..][1..] == urls[i + 1..];
      allLinks := Collected(pages, urls[i]);
      if allLinks != [] {
        break;
      }
      i := i + 1;
    }
    found := DU.Accept(allLinks, query);
  }

  /** The whole result depends only on the first search page with links. */
  lemma OnlyFirstPageCounts(cfg: SiteConfig, query: string, pages: SearchPages, k: nat)
    requires k < |GetSearchUrls(cfg, query)|
    requires Collected(pages, GetSearchUrls(cfg, query)[k]) != []
    requires forall j :: 0 <= j < k ==> Collected(pages, GetSearchUrls(cfg, query)[j]) == []
    ensures SearchResult(cfg, query, pages) == DU.Accept(Collected(pages, GetSearchUrls(cfg, query)[k]), query)
  {
    var urls := GetSearchUrls(cfg, query);
    var links := FirstLinks(urls, pages);
    var k' :| 0 <= k' < |urls| && links == Collected(pages, urls[k'])
              && forall j :: 0 <= j < k' ==> Collected(pages, urls[j]) == [];
    assert k' == k;
  }

  /**
   * One row: no built URL gives "no_url"; otherwise the UPC, else the
   * name, is searched ("search" with the found URL, or "no_match"), and
   * a row with neither gets "no_query". The initial "error" status never
   * survives.
   */
  function DecideRow(row: Row, cfg: SiteConfig, pages: SearchPages): (d: DU.Discovered)
    ensures d.upc == DU.RowUpc(row, cfg) && d.name == DU.RowName(row, cfg)
    ensures d.status == "no_url" <==> DU.GetRowUrl(row, cfg).None?
    ensures d.status in {"no_url", "search", "no_match", "no_query"}
    ensures d.resolved != "" <==> d.status == "search"
    ensures d.status == "no_query" <==> DU.GetRowUrl(row, cfg).Some? && d.upc == "" && d.name == ""
    ensures d.status == "search" ==> Some(d.resolved) == SearchResult(cfg, OrElse(d.upc, d.name), pages)
    ensures var q := OrElse(d.upc, d.name);
            DU.GetRowUrl(row, cfg).Some? && q != "" ==>
              (d.status == "search" <==> SearchResult(cfg, q, pages).Some? && SearchResult(cfg, q, pages).value != "")
    ensures d.status != "no_url" ==> d.built == DU.GetRowUrl(row, cfg).value
  {
    var upc := DU.RowUpc(row, cfg);
    var name := DU.RowName(row, cfg);
    match DU.GetRowUrl(row, cfg)
    case None => DU.Discovered(upc, name, "", "", "no_url")
    case Some(built) =>
      var query := OrElse(upc, name);
      if query != "" then
        var found := SearchResult(cfg, query, pages);
        if found.Some? && found.value != "" then DU.Discovered(upc, name, built, found.value, "search")
        else DU.Discovered(upc, name, built, "", "no_match")
      else DU.Discovered(upc, name, built, "", "no_query")
  }

  /** The body of the row loop: the URL is built, then the search runs through the browser. */
  method DecideOne(row: Row, cfg: SiteConfig, pages: SearchPages) returns (d: DU.Discovered)
    ensures d == DecideRow(row, cfg, pages)
  {
    var upc := DU.RowUpc(row, cfg);
    var name := DU.RowName(row, cfg);
    var built := DU.GetRowUrl(row, cfg);
    if built.None? {
      return DU.Discovered(upc, name, "", "", "no_url");
    }
    var query := OrElse(upc, name);
    if query == "" {
      return DU.Discovered(upc, name, built.value, "", "no_query");
    }
    var found := SearchWithPlaywright(cfg, query, pages);
    if found.Some? && found.value != "" {
      d := DU.Discovered(upc, name, built.value, found.value, "search");
    } else {
      d := DU.Discovered(upc, name, built.value, "", "no_match");
    }
  }

  /** Appending the next row's decision keeps the results row by row. */
  lemma AppendDecided(results: seq<DU.Discovered>, rows: seq<Row>, cfg: SiteConfig, pages: SearchPages, d: DU.Discovered)
    requires |results| < |rows|
    requires forall k :: 0 <= k < |results| ==> results[k] == DecideRow(rows[k], cfg, pages)
    requires d == DecideRow(rows[|results|], cfg, pages)
    ensures forall k :: 0 <= k < |results| + 1 ==> (results + [d])[k] == DecideRow(rows[k], cfg, pages)
  {
  }

  /** The row loop of `main`, checking the limit before each row. */
  method DiscoverAll(rows: seq<Row>, cfg: SiteConfig, pages: SearchPages, limit: int) returns (results: seq<DU.Discovered>)
    ensures |results| == DU.RowsAllowed(|rows|, limit)
    ensures forall k :: 0 <= k < |results| ==> results[k] == DecideRow(rows[k], cfg, pages)
  {
    results := [];
    var rowsDone := 0;
    var i := 0;
    while i < |rows|
      invariant 0 <= i <= |rows| && rowsDone == i == |results|
      invariant limit != 0 ==> (limit < 0 ==> i == 0) && (limit > 0 ==> i <= limit)
      invariant forall k :: 0 <= k < i ==> results[k] == DecideRow(rows[k], cfg, pages)
      decreases |rows| - i
    {
      if limit != 0 && rowsDone >= limit {
        break;
      }
      var d := DecideOne(rows[i], cfg, pages);
      AppendDecided(results, rows, cfg, pages, d);
      results := results + [d];
      rowsDone := rowsDone + 1;
      i := i + 1;
    }
  }
}
