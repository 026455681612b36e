/**
 * The deep per-site analyser: sample selection, page data with the
 * last-wins JSON-LD scan, the genericity test against a homepage
 * baseline, product-link discovery in the DOM, and strategy scoring.
 */
module DeepAnalyze {
  import opened Wrappers
  import opened Text
  import opened Json
  import opened Sheet
  import opened Url
  import ScraperLib

  // ------------------------------------------------------------------
  // Samples

  datatype Sample = Sample(upc: string, name: string, productUrl: string)

  /** `next((c for c in cols if c in first), None)`: the first column the header has. */
  function ColumnIn(first: Row, cols: seq<string>): (r: Option<string>)
    ensures r.Some? ==> r.value in cols && r.value in first
    ensures r.None? <==> forall k :: 0 <= k < |cols| ==> cols[k] !in first
    decreases |cols|
  {
    if |cols| == 0 then None
    else if cols[0] in first then Some(cols[0])
    else
      assert forall k :: 1 <= k < |cols| ==> cols[k] == cols[1..][k - 1];
      ColumnIn(first, cols[1..])
  }

  /** The stripped cell of an optional column; "" without a column. */
  function CellOf(r: Row, col: Option<string>): string
  {
    if col.Some? then Strip(Cell(r, col.value)) else ""
  }

  /** The sample of one row: present when its UPC has at least 5 characters. */
  function RowSample(r: Row, upcCol: Option<string>, nameCol: Option<string>, urlCol: Option<string>): (v: seq<Sample>)
    ensures |v| <= 1 && forall i :: 0 <= i < |v| ==> |v[i].upc| >= 5
  {
    var upc := CellOf(r, upcCol);
    if upc != "" && |upc| >= 5 then [Sample(upc, CellOf(r, nameCol), CellOf(r, urlCol))] else []
  }

  /** `valid`: the rows whose UPC has at least 5 characters, as samples, in sheet order. */
  function ValidSamples(rows: seq<Row>, upcCol: Option<string>, nameCol: Option<string>, urlCol: Option<string>): (v: seq<Sample>)
    ensures forall i :: 0 <= i < |v| ==> |v[i].upc| >= 5
    ensures |v| <= |rows|
    decreases |rows|
  {
    if |rows| == 0 then []
    else
      var n := |rows| - 1;
      ValidSamples(rows[..n], upcCol, nameCol, urlCol) + RowSample(rows[n], upcCol, nameCol, urlCol)
  }

  /** The samples of one more row are those before it and its own. */
  lemma ValidSamplesAppend(rows: seq<Row>, i: nat, upcCol: Option<string>, nameCol: Option<string>, urlCol: Option<string>)
    requires i < |rows|
    ensures ValidSamples(rows[..i + 1], upcCol, nameCol, urlCol)
            == ValidSamples(rows[..i], upcCol, nameCol, urlCol) + RowSample(rows[i], upcCol, nameCol, urlCol)
  {
    assert rows[..i + 1][..i] == rows[..i];
  }

  /** The position of the `i`-th sample among `len` valid rows when `n` are wanted. */
  function SampleIndex(len: nat, n: nat, i: nat): nat
    requires n >= 1
  {
    if len <= n then i else i * (if len / n > 1 then len / n else 1)
  }

  lemma SampleIndexBounds(len: nat, n: nat, i: nat, j: nat)
    requires n >= 1 && i < j < (if len <= n then len else n)
    ensures SampleIndex(len, n, i) < SampleIndex(len, n, j) < len
  {
    if len > n {
      var step := len / n;
      DivFloor(len, n);
      MulMono(i + 1, j, step);
      MulMono(j + 1, n, step);
      assert (i + 1) * step == i * step + step;
      assert (j + 1) * step == j * step + step;
    }
  }

  /** `n * (len // n) <= len`, and the quotient is positive when `len >= n`. */
  lemma DivFloor(len: nat, n: nat)
    requires n >= 1
    ensures n * (len / n) <= len
    ensures len >= n ==> len / n >= 1
  {
    assert len == (len / n) * n + len % n;
  }

  lemma {:induction false} MulMono(a: nat, b: nat, c: nat)
    requires a <= b
    ensures a * c <= b * c
    decreases b - a
  {
    if a < b {
      MulMono(a, b - 1, c);
      assert (b - 1) * c + c == b * c;
    }
  }

  /**
   * The spread pick of `load_samples`: all valid rows when there are at
   * most `n`, otherwise `valid[i * step]` for `i < n` with
   * `step = max(1, len // n)`.
   */
  function Spread(valid: seq<Sample>, n: nat): (r: seq<Sample>)
    requires n >= 1
    ensures |r| == (if |valid| <= n then |valid| else n)
    ensures forall i :: 0 <= i < |r| ==> SampleIndex(|valid|, n, i) < |valid| && r[i] == valid[SampleIndex(|valid|, n, i)]
    ensures forall i, j :: 0 <= i < j < |r| ==> SampleIndex(|valid|, n, i) < SampleIndex(|valid|, n, j)
  {
    forall i, j | 0 <= i < j < (if |valid| <= n then |valid| else n)
      ensures SampleIndex(|valid|, n, i) < SampleIndex(|valid|, n, j) < |valid|
    {
      SampleIndexBounds(|valid|, n, i, j);
    }
    if |valid| <= n then valid
    else
      forall i | 0 <= i < n ensures SampleIndex(|valid|, n, i) < |valid| {
        if i + 1 < n { SampleIndexBounds(|valid|, n, i, i + 1); }
        else if i > 0 { SampleIndexBounds(|valid|, n, 0, i); }
      }
      seq(n, i requires 0 <= i < n => valid[SampleIndex(|valid|, n, i)])
  }

  const SampleCount: nat := 3

  /** One pass of the `valid` loop: the row's sample, when its UPC is long enough. */
  method SampleOf(r: Row, upcCol: Option<string>, nameCol: Option<string>, urlCol: Option<string>) returns (v: seq<Sample>)
    ensures v == RowSample(r, upcCol, nameCol, urlCol)
  {
    v := [];
    var upc := CellOf(r, upcCol);
    if upc != "" && |upc| >= 5 {
      v := [Sample(upc, CellOf(r, nameCol), CellOf(r, urlCol))];
    }
  }

  /**
   * `load_samples`: no samples for an empty sheet; the UPC, name and URL
   * columns are the first ones the header has; then three spread samples.
   */
  method LoadSamples(rows: seq<Row>) returns (samples: seq<Sample>)
    ensures rows == [] ==> samples == []
    ensures rows != [] ==>
              samples == Spread(ValidSamples(rows, ColumnIn(rows[0], ScraperLib.UpcColumns), ColumnIn(rows[0], ScraperLib.NameColumns),
                                              if "Product URL" in rows[0] then Some("Product URL") else None), SampleCount)
    ensures |samples| <= SampleCount
    ensures forall i :: 0 <= i < |samples| ==> |samples[i].upc| >= 5
  {
    if rows == [] {
      return [];
    }
    var upcCol := ColumnIn(rows[0], ScraperLib.UpcColumns);
    var nameCol := ColumnIn(rows[0], ScraperLib.NameColumns);
    var urlCol := if "Product URL" in rows[0] then Some("Product URL") else None;
    var valid: seq<Sample> := [];
    var i := 0;
    while i < |rows|
      invariant 0 <= i <= |rows|
      invariant valid == ValidSamples(rows[..i], upcCol, nameCol, urlCol)
      decreases |rows| - i
    {
      ValidSamplesAppend(rows, i, upcCol, nameCol, urlCol);
      var v := SampleOf(rows[i], upcCol, nameCol, urlCol);
      valid := valid + v;
      i := i + 1;
    }
    assert rows[..i] == rows;
    samples := Spread(valid, SampleCount);
  }

  // ------------------------------------------------------------------
  // Page data

  /** What the regexes of `extract_page_data` capture from a page. */
  datatype DeepPage = DeepPage(
    titleTag: Option<string>,
    ogTitle: Option<string>,
    ogDescription: Option<string>,
    ogImage: Option<string>,
    metaDescription: Option<string>,
    ldBlocks: seq<Option<Json>>,
    h1Text: Option<string>)     // the first h1 with its inner tags removed

  datatype PageData = PageData(
    title: string,
    ogTitle: string,
    ogDescription: string,
    ogImage: string,
    metaDescription: string,
    jsonLdProduct: Option<Json>,
    h1: string)

  /**
   * The last-wins JSON-LD scan: every block that yields a Product (a
   * Product dict, the first Product of a list or of `@graph`) replaces the
   * one before.
   */
  function LastLdProduct(blocks: seq<Option<Json>>): (r: Option<Json>)
    ensures r.Some? ==> IsProduct(r.value)
    ensures r.None? <==> forall k :: 0 <= k < |blocks| ==> !ScraperLib.Yields(blocks, k)
    decreases |blocks|
  {
    if |blocks| == 0 then None
    else
      var last := |blocks| - 1;
      var init := blocks[..last];
      assert forall k :: 0 <= k < last ==> (ScraperLib.Yields(blocks, k) <==> ScraperLib.Yields(init, k));
      if ScraperLib.Yields(blocks, last) then ScraperLib.BlockProduct(blocks[last].value)
      else LastLdProduct(init)
  }

  /** The result is the Product of the last block that yields one. */
  lemma {:induction false} LastLdProductIsLast(blocks: seq<Option<Json>>) returns (k: nat)
    requires LastLdProduct(blocks).Some?
    ensures k < |blocks| && ScraperLib.Yields(blocks, k)
    ensures LastLdProduct(blocks) == ScraperLib.BlockProduct(blocks[k].value)
    ensures forall j :: k < j < |blocks| ==> !ScraperLib.Yields(blocks, j)
    decreases |blocks|
  {
    var last := |blocks| - 1;
    if ScraperLib.Yields(blocks, last) {
      k := last;
    } else {
      var init := blocks[..last];
      assert LastLdProduct(blocks) == LastLdProduct(init);
      k := LastLdProductIsLast(init);
      assert init[k] == blocks[k];
      forall j | k < j < |blocks|
        ensures !ScraperLib.Yields(blocks, j)
      {
        if j < last {
          assert init[j] == blocks[j];
          assert !ScraperLib.Yields(init, j);
        }
      }
    }
  }

  /** The scan as the script runs it: one pass that overwrites on each match. */
  method ScanLastProduct(blocks: seq<Option<Json>>) returns (found: Option<Json>)
    ensures found == LastLdProduct(blocks)
  {
    found := None;
    var i := 0;
    while i < |blocks|
      invariant 0 <= i <= |blocks|
      invariant found == LastLdProduct(blocks[..i])
      decreases |blocks| - i
    {
      assert blocks[..i + 1][..i] == blocks[..i];
      assert forall k :: 0 <= k < i ==> (ScraperLib.Yields(blocks[..i + 1], k) <==> ScraperLib.Yields(blocks[..i], k));
      if blocks[i].Some? {
        var b := ScraperLib.BlockProduct(blocks[i].value);
        if b.Some? {
          found := b;
        }
      }
      i := i + 1;
    }
    assert blocks[..i] == blocks;
  }

  /** With two Products in separate blocks the shared scan keeps the first and this one the last. */
  lemma LastWinsUnlikeShared(a: Json, b: Json)
    requires IsProduct(a) && IsProduct(b)
    ensures ScraperLib.ExtractJsonLdProduct([Some(a), Some(b)]) == Some(a)
    ensures LastLdProduct([Some(a), Some(b)]) == Some(b)
  {
    var blocks := [Some(a), Some(b)];
    assert ScraperLib.Yields(blocks, 0) && ScraperLib.Yields(blocks, 1);
  }

  /** `extract_page_data` */
  function ExtractPageData(p: DeepPage): (d: PageData)
    ensures SingleSpaced(d.title) && |d.h1| <= 200
    ensures d.jsonLdProduct == LastLdProduct(p.ldBlocks)
    ensures d.ogTitle == ScraperLib.OgValue(p.ogTitle)
    ensures d.ogImage == ScraperLib.OgValue(p.ogImage) && d.ogDescription == ScraperLib.OgValue(p.ogDescription)
    ensures d.metaDescription == ScraperLib.OgValue(p.metaDescription)
  {
    PageData(ScraperLib.ExtractTitle(p.titleTag),
             ScraperLib.OgValue(p.ogTitle), ScraperLib.OgValue(p.ogDescription), ScraperLib.OgValue(p.ogImage),
             ScraperLib.OgValue(p.metaDescription),
             LastLdProduct(p.ldBlocks),
             if p.h1Text.Some? then Take(Strip(p.h1Text.value), 200) else "")
  }

  /** What `extract_page_data("")` gives: the baseline when the homepage fails. */
  const EmptyData: PageData := PageData("", "", "", "", "", None, "")

  // ------------------------------------------------------------------
  // Page tests

  const NotFoundSignals: seq<string> := ["page not found", "404", "no results", "0 results", "nothing found",
                                         "no products found", "sorry, we couldn't find"]
  const SearchPageSignals: seq<string> := ["search:", "results found", "search results", "results for",
                                           "you searched for", "showing results"]

  /** `looks_not_found`: a signal in the lower-cased first 5000 characters. */
  predicate LooksNotFound(html: string)
  {
    ContainsAny(Lower(Take(html, 5000)), NotFoundSignals)
  }

  /** `looks_like_search_page`: a signal in the lower-cased title. */
  predicate LooksLikeSearchPage(d: PageData)
  {
    ContainsAny(Lower(d.title), SearchPageSignals)
  }

  /** The same og image as the baseline, with no description or the baseline's. */
  predicate SameOgAsBaseline(d: PageData, baseline: PageData)
  {
    d.ogImage != "" && baseline.ogImage != "" && d.ogImage == baseline.ogImage
    && (d.ogDescription == "" || d.ogDescription == baseline.ogDescription)
  }

  /**
   * `is_generic`: no title; the baseline's title (trimmed, ignoring
   * case); then a JSON-LD Product rules it out; then the baseline's og
   * image with a missing or identical description.
   */
  function IsGeneric(d: PageData, baseline: PageData): (g: bool)
    ensures d.title == "" ==> g
    ensures Lower(Strip(d.title)) == Lower(Strip(baseline.title)) ==> g
    ensures d.title != "" && Lower(Strip(d.title)) != Lower(Strip(baseline.title)) ==>
              (g <==> d.jsonLdProduct.None? && SameOgAsBaseline(d, baseline))
  {
    if d.title == "" then true
    else if Lower(Strip(d.title)) == Lower(Strip(baseline.title)) then true
    else if d.jsonLdProduct.Some? then false
    else SameOgAsBaseline(d, baseline)
  }

  /** The homepage itself is always generic, whatever else it holds. */
  lemma BaselineIsGeneric(baseline: PageData)
    ensures IsGeneric(baseline, baseline)
  {
  }

  /** A titled page with a JSON-LD Product and a title of its own is never generic. */
  lemma JsonLdNotGeneric(d: PageData, baseline: PageData)
    requires d.title != "" && d.jsonLdProduct.Some?
    requires Lower(Strip(d.title)) != Lower(Strip(baseline.title))
    ensures !IsGeneric(d, baseline)
  {
  }

  /** `_is_homepage`: equal after dropping trailing slashes, then query and fragment. */
  predicate IsHomepage(currentUrl: string, baseUrl: string)
  {
    StripQueryFragment(RStripCh(currentUrl, '/')) == StripQueryFragment(RStripCh(baseUrl, '/'))
  }

  lemma IsHomepageReflexive(u: string)
    ensures IsHomepage(u, u)
  {
  }

  /** A trailing slash alone never makes two URLs differ. */
  lemma TrailingSlashIgnored(u: string, b: string)
    ensures IsHomepage(u + "/", b) == IsHomepage(u, b)
  {
    assert (u + "/")[..|u + "/"| - 1] == u;
  }

  /** Slashes are dropped before the query is: a slash in front of a query still counts. */
  lemma SlashBeforeQueryCounts()
    ensures !IsHomepage("a/?q", "a")
  {
    assert RStripCh("a/?q", '/') == "a/?q";
    assert Before("a/?q", '?') == "a/";
    assert Before("a/", '#') == "a/";
    assert RStripCh("a", '/') == "a";
    assert Before("a", '?') == "a";
    assert Before("a", '#') == "a";
  }

  /**
   * `needs_follow`: the page is generic, reads as not found, looks like a
   * search page or has no JSON-LD Product — and is not the homepage.
   */
  predicate NeedsFollow(d: PageData, html: string, currentUrl: string, baseUrl: string, baseline: PageData)
  {
    (IsGeneric(d, baseline) || LooksNotFound(html) || LooksLikeSearchPage(d) || d.jsonLdProduct.None?)
    && !IsHomepage(currentUrl, baseUrl)
  }

  // ------------------------------------------------------------------
  // Product links in the DOM

  const ProductHrefKeywords: seq<string> := ["/products/", "/product/", "/product_info.php", "/p/", "/catalog/product/",
                                             "/item/", "/dp/"]

  /** `//` hrefs get `https:`, `/` hrefs the base without its trailing slash. */
  function ResolveHref(href: string, baseUrl: string): (u: string)
    ensures StartsWith(href, "//") ==> u == "https:" + href
    ensures !StartsWith(href, "/") ==> u == href
  {
    if StartsWith(href, "//") then "https:" + href
    else if StartsWith(href, "/") then RStripCh(baseUrl, '/') + href
    else href
  }

  /**
   * The product links of a list of hrefs, in order: product hrefs, made
   * absolute, whose URL without query and fragment is not yet in `seen`.
   */
  function CollectLinks(hrefs: seq<string>, baseUrl: string, seen: set<string>): (links: seq<string>)
    ensures forall i :: 0 <= i < |links| ==> StripQueryFragment(links[i]) !in seen
    ensures forall i, j :: 0 <= i < j < |links| ==> StripQueryFragment(links[i]) != StripQueryFragment(links[j])
    ensures forall l :: l in links ==> exists h :: h in hrefs && ContainsAny(h, ProductHrefKeywords) && l == ResolveHref(h, baseUrl)
    decreases |hrefs|
  {
    if |hrefs| == 0 then []
    else
      var h := hrefs[0];
      if ContainsAny(h, ProductHrefKeywords) && StripQueryFragment(ResolveHref(h, baseUrl)) !in seen then
        var u := ResolveHref(h, baseUrl);
        var rest := CollectLinks(hrefs[1..], baseUrl, seen + {StripQueryFragment(u)});
        assert forall l :: l in rest ==> exists h' :: h' in hrefs && ContainsAny(h', ProductHrefKeywords) && l == ResolveHref(h', baseUrl) by {
          forall l | l in rest ensures exists h' :: h' in hrefs && ContainsAny(h', ProductHrefKeywords) && l == ResolveHref(h', baseUrl) {
            var h' :| h' in hrefs[1..] && ContainsAny(h', ProductHrefKeywords) && l == ResolveHref(h', baseUrl);
          }
        }
        [u] + rest
      else
        var rest := CollectLinks(hrefs[1..], baseUrl, seen);
        assert forall l :: l in rest ==> exists h' :: h' in hrefs && ContainsAny(h', ProductHrefKeywords) && l == ResolveHref(h', baseUrl) by {
          forall l | l in rest ensures exists h' :: h' in hrefs && ContainsAny(h', ProductHrefKeywords) && l == ResolveHref(h', baseUrl) {
            var h' :| h' in hrefs[1..] && ContainsAny(h', ProductHrefKeywords) && l == ResolveHref(h', baseUrl);
          }
        }
        rest
  }

  /** The `seen` set after collecting. */
  function CollectSeen(hrefs: seq<string>, baseUrl: string, seen: set<string>): set<string>
    decreases |hrefs|
  {
    if |hrefs| == 0 then seen
    else
      var h := hrefs[0];
      if ContainsAny(h, ProductHrefKeywords) && StripQueryFragment(ResolveHref(h, baseUrl)) !in seen then
        CollectSeen(hrefs[1..], baseUrl, seen + {StripQueryFragment(ResolveHref(h, baseUrl))})
      else CollectSeen(hrefs[1..], baseUrl, seen)
  }

  /** Collecting nothing leaves `seen` as it was. */
  lemma {:induction false} NothingCollectedNothingSeen(hrefs: seq<string>, baseUrl: string, seen: set<string>)
    requires CollectLinks(hrefs, baseUrl, seen) == []
    ensures CollectSeen(hrefs, baseUrl, seen) == seen
    decreases |hrefs|
  {
    if |hrefs| > 0 {
      NothingCollectedNothingSeen(hrefs[1..], baseUrl, seen);
    }
  }

  /**
   * `find_product_links_via_dom`: the first container (in selector order;
   * `None` where the selector finds nothing) that yields a product link
   * decides; otherwise the whole document's anchors; at most five links.
   */
  function FindProductLinks(containers: seq<Option<seq<string>>>, allHrefs: seq<string>, baseUrl: string): (links: seq<string>)
    ensures |links| <= 5
    decreases |containers|
  {
    if |containers| == 0 then Take(CollectLinks(allHrefs, baseUrl, {}), 5)
    else if containers[0].Some? && CollectLinks(containers[0].value, baseUrl, {}) != [] then
      Take(CollectLinks(containers[0].value, baseUrl, {}), 5)
    else FindProductLinks(containers[1..], allHrefs, baseUrl)
  }

  /** A container the selector found, holding at least one product link. */
  predicate Yields(container: Option<seq<string>>, baseUrl: string)
  {
    container.Some? && CollectLinks(container.value, baseUrl, {}) != []
  }

  /**
   * The first container that yields decides, with its own first five
   * links; when none does, the first five of the whole document's. So the
   * result is empty exactly when neither any container nor the document
   * has a product link.
   */
  lemma {:induction false} FindProductLinksSpec(containers: seq<Option<seq<string>>>, allHrefs: seq<string>, baseUrl: string)
    ensures forall k :: 0 <= k < |containers| && Yields(containers[k], baseUrl)
                        && (forall j :: 0 <= j < k ==> !Yields(containers[j], baseUrl)) ==>
              FindProductLinks(containers, allHrefs, baseUrl) == Take(CollectLinks(containers[k].value, baseUrl, {}), 5)
    ensures (forall k :: 0 <= k < |containers| ==> !Yields(containers[k], baseUrl)) ==>
              FindProductLinks(containers, allHrefs, baseUrl) == Take(CollectLinks(allHrefs, baseUrl, {}), 5)
    ensures FindProductLinks(containers, allHrefs, baseUrl) == [] <==>
              (forall k :: 0 <= k < |containers| ==> !Yields(containers[k], baseUrl)) && CollectLinks(allHrefs, baseUrl, {}) == []
    decreases |containers|
  {
    if |containers| > 0 {
      FindProductLinksSpec(containers[1..], allHrefs, baseUrl);
      assert forall k :: 1 <= k < |containers| ==> containers[1..][k - 1] == containers[k];
    }
  }

  /** The anchor loop over one list of hrefs, updating `links` and `seen`. */
  method CollectInto(hrefs: seq<string>, baseUrl: string, links0: seq<string>, seen0: set<string>)
    returns (links: seq<string>, seen: set<string>)
    ensures links == links0 + CollectLinks(hrefs, baseUrl, seen0)
    ensures seen == CollectSeen(hrefs, baseUrl, seen0)
  {
    links := links0;
    seen := seen0;
    var i := 0;
    while i < |hrefs|
      invariant 0 <= i <= |hrefs|
      invariant links + CollectLinks(hrefs[i..], baseUrl, seen) == links0 + CollectLinks(hrefs, baseUrl, seen0)
      invariant CollectSeen(hrefs[i..], baseUrl, seen) == CollectSeen(hrefs, baseUrl, seen0)
      decreases |hrefs| - i
    {
      assert hrefs[i..][1..] == hrefs[i + 1..];
      var url := ResolveHref(hrefs[i], baseUrl);
      if ContainsAny(hrefs[i], ProductHrefKeywords) {
        var canon := StripQueryFragment(url);
        if canon !in seen {
          seen := seen + {canon};
          links := links + [url];
        }
      }
      i := i + 1;
    }
  }

  /** The selector loop, then the document-wide fallback. */
  method FindProductLinksViaDom(containers: seq<Option<seq<string>>>, allHrefs: seq<string>, baseUrl: string)
    returns (result: seq<string>)
    ensures result == FindProductLinks(containers, allHrefs, baseUrl)
  {
    var links: seq<string> := [];
    var seen: set<string> := {};
    var k := 0;
    while k < |containers|
      invariant 0 <= k <= |containers|
      invariant links == [] && seen == {}
      invariant FindProductLinks(containers[k..], allHrefs, baseUrl) == FindProductLinks(containers, allHrefs, baseUrl)
      decreases |containers| - k
    {
      assert containers[k..][1..] == containers[k + 1..];
      if containers[k].Some? {
        links, seen := CollectInto(containers[k].value, baseUrl, links, seen);
        if links != [] {
          return Take(links, 5);
        }
        NothingCollectedNothingSeen(containers[k].value, baseUrl, {});
      }
      k := k + 1;
    }
    links, seen := CollectInto(allHrefs, baseUrl, links, seen);
    result := Take(links, 5);
  }

  // ------------------------------------------------------------------
  // Evaluating one strategy URL

  /** What the browser gives for one URL tried. */
  datatype Visit = Visit(
    html: string,
    page: DeepPage,
    finalUrl: string,
    containers: seq<Option<seq<string>>>,
    allHrefs: seq<string>,
    follow: Option<(DeepPage, string)>)   // the followed page and its final URL; `None` when that navigation fails

  /** One result entry of a strategy. */
  datatype Entry = Entry(
    upc: string,
    urlTried: string,
    data: PageData,
    generic: bool,
    followed: bool,
    followedUrl: string,
    finalUrl: string,
    notFound: bool)

  /**
   * `_fetch_and_evaluate`: a failed navigation leaves the generic default
   * entry; otherwise the page data, and when a follow is needed and a
   * product link exists, the first link's page replaces the data and the
   * genericity; the not-found flag stays that of the first page.
   */
  function Evaluate(upc: string, url: string, visit: Option<Visit>, baseline: PageData, baseUrl: string): (e: Entry)
    ensures visit.None? ==> e == Entry(upc, url, EmptyData, true, false, "", "", false)
    ensures visit.Some? ==> e.notFound == LooksNotFound(visit.value.html)
    ensures visit.Some? && IsHomepage(visit.value.finalUrl, baseUrl) ==>
              !e.followed && e.data == ExtractPageData(visit.value.page)
    ensures e.followed ==>
              visit.Some? && NeedsFollow(ExtractPageData(visit.value.page), visit.value.html, visit.value.finalUrl, baseUrl, baseline)
              && |FindProductLinks(visit.value.containers, visit.value.allHrefs, baseUrl)| > 0
              && e.followedUrl == FindProductLinks(visit.value.containers, visit.value.allHrefs, baseUrl)[0]
    ensures e.generic == IsGeneric(e.data, baseline) || visit.None?
    ensures e.upc == upc && e.urlTried == url
    ensures visit.Some? ==>
              (e.followed <==> NeedsFollow(ExtractPageData(visit.value.page), visit.value.html, visit.value.finalUrl, baseUrl, baseline)
                               && |FindProductLinks(visit.value.containers, visit.value.allHrefs, baseUrl)| > 0
                               && visit.value.follow.Some?)
    ensures visit.Some? && e.followed ==>
              e.data == ExtractPageData(visit.value.follow.value.0) && e.finalUrl == visit.value.follow.value.1
    ensures visit.Some? && !e.followed ==>
              e.data == ExtractPageData(visit.value.page) && e.finalUrl == visit.value.finalUrl && e.followedUrl == ""
  {
    match visit
    case None => Entry(upc, url, EmptyData, true, false, "", "", false)
    case Some(v) =>
      var d := ExtractPageData(v.page);
      var notFound := LooksNotFound(v.html);
      var links := FindProductLinks(v.containers, v.allHrefs, baseUrl);
      if NeedsFollow(d, v.html, v.finalUrl, baseUrl, baseline) && links != [] && v.follow.Some? then
        var pd := ExtractPageData(v.follow.value.0);
        Entry(upc, url, pd, IsGeneric(pd, baseline), true, links[0], v.follow.value.1, notFound)
      else Entry(upc, url, d, IsGeneric(d, baseline), false, "", v.finalUrl, notFound)
  }

  // ------------------------------------------------------------------
  // Uniqueness and scoring

  /** The non-empty values, in order. */
  function NonEmpty(xs: seq<string>): (r: seq<string>)
    ensures |r| <= |xs|
    ensures forall x :: x in r <==> x in xs && x != ""
  {
    if |xs| == 0 then [] else (if xs[0] != "" then [xs[0]] else []) + NonEmpty(xs[1..])
  }

  function Titles(es: seq<Entry>): (ts: seq<string>)
    ensures |ts| == |es| && forall i :: 0 <= i < |es| ==> ts[i] == es[i].data.title
  {
    seq(|es|, i requires 0 <= i < |es| => es[i].data.title)
  }

  function Images(es: seq<Entry>): (ts: seq<string>)
    ensures |ts| == |es| && forall i :: 0 <= i < |es| ==> ts[i] == es[i].data.ogImage
  {
    seq(|es|, i requires 0 <= i < |es| => es[i].data.ogImage)
  }

  /** A sequence has at least as many elements as its set of values. */
  lemma {:induction false} CardSetOfSeq(xs: seq<string>)
    ensures |set x | x in xs| <= |xs|
    decreases |xs|
  {
    if |xs| > 0 {
      CardSetOfSeq(xs[1..]);
      assert (set x | x in xs) == (set x | x in xs[1..]) + {xs[0]};
    }
  }

  datatype Uniqueness = Uniqueness(total: nat, uniqueTitles: nat, uniqueImages: nat)

  /** `uniqueness_check` */
  function UniquenessCheck(es: seq<Entry>): (u: Uniqueness)
    ensures u.total == |es|
    ensures u.uniqueTitles == |set t | t in NonEmpty(Titles(es))| && u.uniqueImages == |set t | t in NonEmpty(Images(es))|
    ensures u.uniqueTitles <= |NonEmpty(Titles(es))| <= u.total
    ensures u.uniqueImages <= |NonEmpty(Images(es))| <= u.total
  {
    CardSetOfSeq(NonEmpty(Titles(es)));
    CardSetOfSeq(NonEmpty(Images(es)));
    Uniqueness(|es|, |set t | t in NonEmpty(Titles(es))|, |set t | t in NonEmpty(Images(es))|)
  }

  /** The number of entries satisfying `p`. */
  function CountIf(es: seq<Entry>, p: Entry -> bool): (n: nat)
    ensures n <= |es|
  {
    if |es| == 0 then 0 else (if p(es[0]) then 1 else 0) + CountIf(es[1..], p)
  }

  /**
   * `score_strategy` of the results of one strategy: 10 per non-generic
   * entry, 5 per unique title, 3 per unique image, 2 per og description
   * and 8 per JSON-LD Product; never negative and at most 28 per entry.
   */
  function ScoreStrategy(es: seq<Entry>): (sc: int)
    ensures 0 <= sc <= 28 * |es|
  {
    var u := UniquenessCheck(es);
    10 * CountIf(es, (e: Entry) => !e.generic) + 5 * u.uniqueTitles + 3 * u.uniqueImages
    + 2 * CountIf(es, (e: Entry) => e.data.ogDescription != "") + 8 * CountIf(es, (e: Entry) => e.data.jsonLdProduct.Some?)
  }

  lemma ScoresAtMost(strategies: seq<(string, seq<Entry>)>, i: nat, before: int, after: int)
    requires i < |strategies| && before <= after && ScoreStrategy(strategies[i].1) <= after
    requires forall j :: 0 <= j < i ==> ScoreStrategy(strategies[j].1) <= before
    ensures forall j :: 0 <= j < i + 1 ==> ScoreStrategy(strategies[j].1) <= after
  {
  }

  /**
   * The best-strategy loop: the first strategy with the highest score
   * (a later one must score strictly more); `None` only without strategies.
   */
  method PickBest(strategies: seq<(string, seq<Entry>)>) returns (best: Option<string>, bestScore: int)
    ensures best.None? <==> |strategies| == 0
    ensures best.None? ==> bestScore == -1
    ensures best.Some? ==> exists k :: 0 <= k < |strategies| && strategies[k].0 == best.value
                                       && bestScore == ScoreStrategy(strategies[k].1)
                                       && forall j :: 0 <= j < k ==> ScoreStrategy(strategies[j].1) < bestScore
    ensures forall j :: 0 <= j < |strategies| ==> ScoreStrategy(strategies[j].1) <= bestScore
  {
    best := None;
    bestScore := -1;
    var bestIndex := 0;
    var i := 0;
    while i < |strategies|
      invariant 0 <= i <= |strategies|
      invariant best.None? <==> i == 0
      invariant best.None? ==> bestScore == -1
      invariant best.Some? ==> bestIndex < i && strategies[bestIndex].0 == best.value
                               && bestScore == ScoreStrategy(strategies[bestIndex].1)
                               && forall j :: 0 <= j < bestIndex ==> ScoreStrategy(strategies[j].1) < bestScore
      invariant forall j :: 0 <= j < i ==> ScoreStrategy(strategies[j].1) <= bestScore
      decreases |strategies| - i
    {
      var sc := ScoreStrategy(strategies[i].1);
      ScoresAtMost(strategies, i, bestScore, if sc > bestScore then sc else bestScore);
      if sc > bestScore {
        bestScore := sc;
        best := Some(strategies[i].0);
        bestIndex := i;
      }
      i := i + 1;
    }
  }

  // ------------------------------------------------------------------
  // Strategy URLs

  datatype Strategy = DirectP | SearchQUpc | SearchSUpc | ShopifySearch | SearchQName | SearchSName

  const Strategies: seq<Strategy> := [DirectP, SearchQUpc, SearchSUpc, ShopifySearch, SearchQName, SearchSName]

  /** The name part: the quoted name, or the UPC when there is no name. */
  function NameOrUpc(s: Sample): string
  {
    if s.name != "" then QuotePlus(s.name) else s.upc
  }

  /** `make_url`: each template under the base without its trailing slash. */
  function StrategyUrl(k: Strategy, baseUrl: string, s: Sample): (u: string)
    ensures StartsWith(u, RStripCh(baseUrl, '/') + "/")
  {
    var b := RStripCh(baseUrl, '/');
    var path := match k
      case DirectP => "?p=" + s.upc
      case SearchQUpc => "search?q=" + s.upc
      case SearchSUpc => "?s=" + s.upc
      case ShopifySearch => "search?type=product&q=" + s.upc
      case SearchQName => "search?q=" + NameOrUpc(s)
      case SearchSName => "?s=" + NameOrUpc(s);
    assert (b + "/" + path)[..|b + "/"|] == b + "/";
    b + "/" + path
  }
}
