/**
 * The deep investigation of sites that failed standard scraping:
 * robots.txt sitemaps, a recursive sitemap walk, the API probes, a
 * browser search test and the verdict naming the first approach that
 * works.
 */
module DeepInvestigate {
  import opened Wrappers
  import opened Text
  import opened Sheet
  import opened Url
  import ScraperLib
  import DeepAnalyze

  // ------------------------------------------------------------------
  // Sites to investigate

  /** The sites that the run looks at. */
  const Unsolved: set<string> := {
    "colours_craft", "enday", "gi_go", "goplay", "lchaim", "moore", "rhode_island", "sands",
    "winning_moves", "cazenove", "steiff"
  }

  /** The configured sites to investigate, in configuration order: unsolved ones, or only the named target. */
  function Todo(siteIds: seq<string>, target: Option<string>): (todo: seq<string>)
    ensures forall s :: s in todo <==> s in siteIds && s in Unsolved && (target.None? || s == target.value)
    ensures |todo| <= |siteIds|
  {
    Select(siteIds, (s: string) => s in Unsolved && (target.None? || s == target.value))
  }

  /**
   * `load_samples` of this script: as in deep_analyze, but without the
   * product URL column, so every sample has an empty URL.
   */
  function Samples(rows: seq<Row>): (samples: seq<DeepAnalyze.Sample>)
    ensures |samples| <= 3
    ensures forall i :: 0 <= i < |samples| ==> |samples[i].upc| >= 5 && samples[i].productUrl == ""
  {
    if rows == [] then []
    else
      var valid := DeepAnalyze.ValidSamples(rows, DeepAnalyze.ColumnIn(rows[0], ScraperLib.UpcColumns),
                                            DeepAnalyze.ColumnIn(rows[0], ScraperLib.NameColumns), None);
      NoUrlColumnNoUrl(rows, DeepAnalyze.ColumnIn(rows[0], ScraperLib.UpcColumns), DeepAnalyze.ColumnIn(rows[0], ScraperLib.NameColumns));
      DeepAnalyze.Spread(valid, 3)
  }

  /** Without a URL column, no valid sample has a URL. */
  lemma {:induction false} NoUrlColumnNoUrl(rows: seq<Row>, upcCol: Option<string>, nameCol: Option<string>)
    ensures forall i :: 0 <= i < |DeepAnalyze.ValidSamples(rows, upcCol, nameCol, None)| ==>
              DeepAnalyze.ValidSamples(rows, upcCol, nameCol, None)[i].productUrl == ""
    decreases |rows|
  {
    if rows != [] {
      NoUrlColumnNoUrl(rows[..|rows| - 1], upcCol, nameCol);
    }
  }

  // ------------------------------------------------------------------
  // robots.txt

  /** A reply of the session: its status code and text. */
  datatype Reply = Reply(status: int, text: string)

  /**
   * The session: the reply to a GET of a URL, `None` when the request
   * raises.
   */
  type Session = string -> Option<Reply>

  /** "sitemap:" in any letter case. */
  predicate IsSitemapLabel(s: string)
  {
    Lower(s) == "sitemap:"
  }

  /**
   * `re.findall(r"Sitemap:\s*(\S+)", text, re.I)`: after each label, any
   * whitespace is skipped and the following run of non-whitespace is
   * taken; the scan goes on after it.
   */
  function Sitemaps(text: string): (r: seq<string>)
    ensures forall k :: 0 <= k < |r| ==> IsWord(r[k])
    decreases |text|
  {
    if |text| < 8 then []
    else if IsSitemapLabel(text[..8]) then
      var rest := LStrip(text[8..]);
      LStripShape(text[8..]);
      var v := TakeWord(rest);
      if v != "" then [v] + Sitemaps(rest[|v|..]) else Sitemaps(text[1..])
    else Sitemaps(text[1..])
  }

  lemma {:induction false} LStripSpaces(ws: string, u: string)
    requires All(ws, IsSpace) && (|u| == 0 || !IsSpace(u[0]))
    ensures LStrip(ws + u) == u
    decreases |ws|
  {
    if ws == [] {
      assert ws + u == u;
      if |u| > 0 { assert !IsSpace(u[0]); }
    } else {
      assert (ws + u)[1..] == ws[1..] + u;
      LStripSpaces(ws[1..], u);
    }
  }

  /** A label followed by a value: the value, and the scan resumes after it. */
  lemma SitemapsAtLabel(text: string)
    requires |text| >= 8 && IsSitemapLabel(text[..8]) && TakeWord(LStrip(text[8..])) != ""
    ensures Sitemaps(text) == [TakeWord(LStrip(text[8..]))] + Sitemaps(LStrip(text[8..])[|TakeWord(LStrip(text[8..]))|..])
  {
  }

  /**
   * A "Sitemap:" line, in any letter case and with any whitespace after
   * the label, gives its value, and the scan goes on after the value.
   */
  lemma SitemapLine(text: string, head: string, ws: string, v: string, t: string)
    requires text == head + ws + v + t
    requires |head| == 8 && IsSitemapLabel(head)
    requires All(ws, IsSpace) && IsWord(v) && (|t| == 0 || IsSpace(t[0]))
    ensures Sitemaps(text) == [v] + Sitemaps(t)
  {
    var after := v + t;
    assert text[..8] == head;
    assert IsSitemapLabel(text[..8]);
    assert text[8..] == ws + after;
    LStripSpaces(ws, after);
    assert LStrip(text[8..]) == after;
    TakeWordOfWord(v, t);
    assert TakeWord(after) == v;
    assert after[|v|..] == t;
    SitemapsAtLabel(text);
  }

  /** A text without the label, in any letter case, names no sitemap. */
  lemma {:induction false} NoLabelNoSitemaps(text: string)
    requires !Contains(Lower(text), "sitemap:")
    ensures Sitemaps(text) == []
    decreases |text|
  {
    if |text| >= 8 {
      assert Lower(text[..8]) == Lower(text)[..8];
      assert !IsSitemapLabel(text[..8]);
      assert Lower(text[1..]) == Lower(text)[1..];
      NoLabelNoSitemaps(text[1..]);
    }
  }

  /** What `try_robots` returns. */
  datatype Robots = Robots(found: bool, sitemaps: seq<string>, snippet: string)

  /** `try_robots`: the sitemaps of a 200 reply, and its first 500 characters. */
  function TryRobots(base: string, get: Session): (r: Robots)
    ensures r.found <==> get(base + "/robots.txt").Some? && get(base + "/robots.txt").value.status == 200
    ensures r.found ==> r.sitemaps == Sitemaps(get(base + "/robots.txt").value.text) && |r.snippet| <= 500
    ensures !r.found ==> r == Robots(false, [], "")
  {
    match get(base + "/robots.txt")
    case Some(reply) =>
      if reply.status == 200 then Robots(true, Sitemaps(reply.text), Take(reply.text, 500))
      else Robots(false, [], "")
    case None => Robots(false, [], "")
  }

  // ------------------------------------------------------------------
  // Sitemaps

  /** The `<loc>` values of a sitemap text, in order: the parser's output. */
  type LocParser = string -> seq<string>

  /** What `try_sitemap` returns. */
  datatype SitemapResult = SitemapResult(found: bool, productUrls: seq<string>)

  const NotFound: SitemapResult := SitemapResult(false, [])

  /** The path fragments that mark a product page URL. */
  const ProductKeys: seq<string> := ["/product", "/products/", "/item/", "/p/"]

  predicate IsProductLoc(u: string)
  {
    ContainsAny(Lower(u), ProductKeys)
  }

  predicate NamesProduct(u: string)
  {
    Contains(Lower(u), "product")
  }

  /**
   * The children of an index that are walked: those whose URL names
   * "product", otherwise the first three; only the first two of them are
   * fetched.
   */
  function ChosenChildren(children: seq<string>): (r: seq<string>)
    ensures |r| <= 2
    ensures forall u :: u in r ==> u in children
    ensures (exists u :: u in children && NamesProduct(u)) ==> forall u :: u in r ==> NamesProduct(u)
  {
    var named := Select(children, NamesProduct);
    Take(if named != [] then named else Take(children, 3), 2)
  }

  /**
   * `try_sitemap`, with the recursion bounded by `fuel`: the source has
   * no bound of its own, and only the interpreter's recursion limit,
   * raised inside the `try`, ends a cycle of index sitemaps. A failed
   * request or a non-200 reply finds nothing; an index gathers the
   * product URLs of its chosen children; a leaf keeps its product
   * locations. Either way at most `maxProducts` are returned.
   */
  function SitemapOf(url: string, get: Session, locs: LocParser, maxProducts: nat, fuel: nat): (r: SitemapResult)
    ensures |r.productUrls| <= maxProducts
    ensures r.found ==> get(url).Some? && get(url).value.status == 200 && fuel > 0
    ensures maxProducts > 0 ==> (r.found <==> r.productUrls != [])
    decreases fuel, 0
  {
    if fuel == 0 then NotFound
    else
      match get(url)
      case None => NotFound
      case Some(reply) =>
        if reply.status != 200 then NotFound
        else if Contains(reply.text, "<sitemapindex") then
          var all := ChildUrls(ChosenChildren(locs(reply.text)), get, locs, maxProducts, fuel - 1);
          SitemapResult(all != [], Take(all, maxProducts))
        else
          var products := Select(locs(reply.text), IsProductLoc);
          SitemapResult(products != [], Take(products, maxProducts))
  }

  /** The product URLs of the children, walked in order with the given fuel, concatenated. */
  function ChildUrls(children: seq<string>, get: Session, locs: LocParser, maxProducts: nat, fuel: nat): seq<string>
    decreases fuel, 1, |children|
  {
    if children == [] then []
    else SitemapOf(children[0], get, locs, maxProducts, fuel).productUrls + ChildUrls(children[1..], get, locs, maxProducts, fuel)
  }

  /** On a leaf sitemap, the result is found exactly when some location is a product URL. */
  lemma LeafFound(url: string, get: Session, locs: LocParser, maxProducts: nat, fuel: nat)
    requires fuel > 0 && get(url).Some? && get(url).value.status == 200
    requires !Contains(get(url).value.text, "<sitemapindex")
    ensures SitemapOf(url, get, locs, maxProducts, fuel).found
            <==> exists u :: u in locs(get(url).value.text) && IsProductLoc(u)
  {
    var products := Select(locs(get(url).value.text), IsProductLoc);
    if products != [] {
      assert products[0] in products;
    }
  }

  /** Every URL the walk returns is a product location of some leaf sitemap. */
  lemma {:induction false} SitemapUrlsAreProducts(url: string, get: Session, locs: LocParser, maxProducts: nat, fuel: nat)
    ensures forall u :: u in SitemapOf(url, get, locs, maxProducts, fuel).productUrls ==> IsProductLoc(u)
    decreases fuel, 0
  {
    if fuel > 0 && get(url).Some? && get(url).value.status == 200 {
      var text := get(url).value.text;
      if Contains(text, "<sitemapindex") {
        var all := ChildUrls(ChosenChildren(locs(text)), get, locs, maxProducts, fuel - 1);
        ChildUrlsAreProducts(ChosenChildren(locs(text)), get, locs, maxProducts, fuel - 1);
        assert forall u :: u in Take(all, maxProducts) ==> u in all;
      } else {
        var products := Select(locs(text), IsProductLoc);
        assert forall u :: u in Take(products, maxProducts) ==> u in products;
      }
    }
  }

  lemma {:induction false} ChildUrlsAreProducts(children: seq<string>, get: Session, locs: LocParser, maxProducts: nat, fuel: nat)
    ensures forall u :: u in ChildUrls(children, get, locs, maxProducts, fuel) ==> IsProductLoc(u)
    decreases fuel, 1, |children|
  {
    if children != [] {
      SitemapUrlsAreProducts(children[0], get, locs, maxProducts, fuel);
      ChildUrlsAreProducts(children[1..], get, locs, maxProducts, fuel);
    }
  }

  /**
   * An index that lists only itself is fetched again at every level, so
   * the walk finds nothing however much fuel it has: only the bound ends
   * it.
   */
  lemma {:induction false} SelfIndexFindsNothing(url: string, get: Session, locs: LocParser, maxProducts: nat, fuel: nat)
    requires get(url).Some? && get(url).value.status == 200
    requires Contains(get(url).value.text, "<sitemapindex") && locs(get(url).value.text) == [url]
    ensures SitemapOf(url, get, locs, maxProducts, fuel) == NotFound
    decreases fuel
  {
    if fuel > 0 {
      var chosen := ChosenChildren([url]);
      assert chosen == [url] by {
        if NamesProduct(url) {
          assert Select([url], NamesProduct) == [url] + Select([url][1..], NamesProduct);
          assert [url][1..] == [];
        } else {
          assert Select([url], NamesProduct) == Select([url][1..], NamesProduct);
          assert [url][1..] == [];
        }
      }
      SelfIndexFindsNothing(url, get, locs, maxProducts, fuel - 1);
      assert chosen[1..] == [];
      assert ChildUrls(chosen, get, locs, maxProducts, fuel - 1) == [];
    }
  }

  /** The recursive walk of `try_sitemap`. */
  method TrySitemap(url: string, get: Session, locs: LocParser, maxProducts: nat, fuel: nat) returns (r: SitemapResult)
    ensures r == SitemapOf(url, get, locs, maxProducts, fuel)
    decreases fuel, 0
  {
    if fuel == 0 {
      return NotFound;
    }
    var reply := get(url);
    if reply.None? || reply.value.status != 200 {
      return NotFound;
    }
    var text := reply.value.text;
    if Contains(text, "<sitemapindex") {
      var all := WalkChildren(ChosenChildren(locs(text)), get, locs, maxProducts, fuel - 1);
      r := SitemapResult(all != [], Take(all, maxProducts));
    } else {
      var products := Select(locs(text), IsProductLoc);
      r := SitemapResult(products != [], Take(products, maxProducts));
    }
  }

  /** One more child's URLs move from the children still to walk to the URLs gathered. */
  lemma ChildUrlsStep(children: seq<string>, i: nat, get: Session, locs: LocParser, maxProducts: nat, fuel: nat,
                      all: seq<string>, child: SitemapResult)
    requires i < |children| && child == SitemapOf(children[i], get, locs, maxProducts, fuel)
    ensures all + ChildUrls(children[i..], get, locs, maxProducts, fuel)
            == (if child.productUrls != [] then all + child.productUrls else all) + ChildUrls(children[i + 1..], get, locs, maxProducts, fuel)
  {
    assert children[i..][1..] == children[i + 1..];
    var rest := ChildUrls(children[i + 1..], get, locs, maxProducts, fuel);
    assert ChildUrls(children[i..], get, locs, maxProducts, fuel) == child.productUrls + rest;
    assert all + (child.productUrls + rest) == (all + child.productUrls) + rest;
    if child.productUrls == [] {
      assert child.productUrls + rest == rest;
    }
  }

  /** The child loop of an index, extending the gathered URLs child by child. */
  method WalkChildren(children: seq<string>, get: Session, locs: LocParser, maxProducts: nat, fuel: nat) returns (all: seq<string>)
    ensures all == ChildUrls(children, get, locs, maxProducts, fuel)
    decreases fuel, 1
  {
    all := [];
    var i := 0;
    while i < |children|
      invariant 0 <= i <= |children|
      invariant ChildUrls(children, get, locs, maxProducts, fuel) == all + ChildUrls(children[i..], get, locs, maxProducts, fuel)
      decreases |children| - i
    {
      var child := TrySitemap(children[i], get, locs, maxProducts, fuel);
      ChildUrlsStep(children, i, get, locs, maxProducts, fuel, all, child);
      if child.productUrls != [] {
        all := all + child.productUrls;
      }
      i := i + 1;
    }
    assert children[i..] == [];
  }

  /** The sitemaps to try: those of robots.txt, else the two usual locations. */
  function SitemapSources(base: string, robots: Robots): (urls: seq<string>)
    ensures urls != []
    ensures robots.sitemaps != [] ==> urls == robots.sitemaps
  {
    if robots.sitemaps != [] then robots.sitemaps else [base + "/sitemap.xml", base + "/sitemap_index.xml"]
  }

  /** The number of products a sitemap walk keeps. */
  const MaxProducts: nat := 10

  /**
   * The sitemap loop of `investigate_site`: the first of the first three
   * sources whose walk finds anything; nothing when none does.
   */
  method FindSitemap(urls: seq<string>, get: Session, locs: LocParser, fuel: nat) returns (r: SitemapResult, k: nat)
    ensures k <= 3 && k <= |urls|
    ensures forall j :: 0 <= j < k && j < |urls| ==> !SitemapOf(urls[j], get, locs, MaxProducts, fuel).found
    ensures r.found ==> k < |urls| && k < 3 && r == SitemapOf(urls[k], get, locs, MaxProducts, fuel)
    ensures !r.found ==> r == NotFound && k == (if |urls| < 3 then |urls| else 3)
  {
    var tries := Take(urls, 3);
    r := NotFound;
    k := 0;
    while k < |tries|
      invariant 0 <= k <= |tries|
      invariant forall j :: 0 <= j < k ==> !SitemapOf(urls[j], get, locs, MaxProducts, fuel).found
      decreases |tries| - k
    {
      var result := TrySitemap(tries[k], get, locs, MaxProducts, fuel);
      if result.found {
        return result, k;
      }
      k := k + 1;
    }
  }

  // ------------------------------------------------------------------
  // The browser

  /** What the browser reports after loading a URL: its title, final URL and whether it links to a product. */
  datatype Loaded = Loaded(title: string, finalUrl: string, hasProductLinks: bool)

  /** The browser: `None` when navigation raises. */
  type Browser = string -> Option<Loaded>

  /** One browser visit as recorded in the findings. */
  datatype Probe = Browsed(url: string, title: string, hasProductLinks: bool, blocked: bool) | Failed(url: string)

  /** A Cloudflare waiting page or an access-denied page. */
  predicate StealthBlocked(title: string)
  {
    Contains(Lower(title), "just a moment") || Contains(Lower(title), "access denied")
  }

  /** The two searches per sample: by name through `?s=`, by UPC through `search?q=`. */
  function StealthUrls(base: string, samples: seq<DeepAnalyze.Sample>): (urls: seq<string>)
    ensures |urls| == 2 * |Take(samples, 2)|
    decreases |samples|
  {
    var firstTwo := Take(samples, 2);
    if firstTwo == [] then []
    else
      [base + "/?s=" + QuotePlus(firstTwo[0].name), base + "/search?q=" + QuotePlus(firstTwo[0].upc)]
      + StealthUrls(base, firstTwo[1..])
  }

  /** The visit of one URL; `blocked` uses the whole title, the record keeps 80 characters of it. */
  function StealthProbe(url: string, browse: Browser): (p: Probe)
    ensures p.url == url
    ensures p.Failed? <==> browse(url).None?
    ensures p.Browsed? ==> (p.blocked <==> StealthBlocked(browse(url).value.title)) && |p.title| <= 80
  {
    match browse(url)
    case None => Failed(url)
    case Some(l) => Browsed(url, Take(l.title, 80), l.hasProductLinks, StealthBlocked(l.title))
  }

  /** `try_stealth_browse`: one probe per search URL, in order. */
  function StealthOf(base: string, samples: seq<DeepAnalyze.Sample>, browse: Browser): (ps: seq<Probe>)
    ensures |ps| == 2 * |Take(samples, 2)| <= 4
    ensures forall k :: 0 <= k < |ps| ==> ps[k] == StealthProbe(StealthUrls(base, samples)[k], browse)
  {
    var urls := StealthUrls(base, samples);
    seq(|urls|, k requires 0 <= k < |urls| => StealthProbe(urls[k], browse))
  }

  /** The visit of one sitemap product page; here only the waiting page counts as blocked. */
  function PageProbe(url: string, browse: Browser): (p: Probe)
    ensures p.url == url
    ensures p.Failed? <==> browse(url).None?
    ensures p.Browsed? ==> (p.blocked <==> Contains(Lower(browse(url).value.title), "just a moment"))
  {
    match browse(url)
    case None => Failed(url)
    case Some(l) => Browsed(url, Take(l.title, 80), l.hasProductLinks, Contains(Lower(l.title), "just a moment"))
  }

  /** `try_product_page_from_sitemap`: the first three product URLs, visited in order. */
  function SitemapPages(productUrls: seq<string>, browse: Browser): (ps: seq<Probe>)
    ensures |ps| <= 3 && |ps| <= |productUrls| && (ps == [] <==> productUrls == [])
    ensures forall k :: 0 <= k < |ps| ==> ps[k] == PageProbe(productUrls[k], browse)
  {
    var urls := Take(productUrls, 3);
    seq(|urls|, k requires 0 <= k < |urls| => PageProbe(urls[k], browse))
  }

  // ------------------------------------------------------------------
  // Verdict

  /** A page that loaded, unblocked. */
  predicate Good(p: Probe)
  {
    p.Browsed? && !p.blocked
  }

  /** A search that loaded, unblocked, with a product link. */
  predicate StealthOk(p: Probe)
  {
    p.Browsed? && !p.blocked && p.hasProductLinks
  }

  predicate AnyGood(ps: seq<Probe>)
  {
    exists k :: 0 <= k < |ps| && Good(ps[k])
  }

  predicate AnyStealthOk(ps: seq<Probe>)
  {
    exists k :: 0 <= k < |ps| && StealthOk(ps[k])
  }

  /** The findings of the three JSON probes, whose parsing is not modelled. */
  datatype Apis = Apis(shopifyJson: bool, collections: bool, wpApi: bool)

  datatype Verdict = Verdict(canScrape: bool, approach: string)

  const ShopifyMethod: string := "Shopify products.json API"
  const SitemapMethod: string := "Sitemap \U{2192} product pages"
  const WpMethod: string := "WordPress REST API"
  const CollectionsMethod: string := "Shopify collections"
  const StealthMethod: string := "Stealth browser search"

  /** The sitemap branch is taken when the sitemap gave URLs and their pages were visited. */
  predicate SitemapTried(sitemap: SitemapResult, pages: seq<Probe>)
  {
    sitemap.productUrls != [] && pages != []
  }

  /**
   * The verdict: the Shopify JSON API first, then the sitemap pages, the
   * WordPress API and the collections, of which the first that applies is
   * the only one consulted; when none succeeds, the browser search.
   */
  function VerdictOf(apis: Apis, sitemap: SitemapResult, pages: seq<Probe>, stealth: seq<Probe>): (v: Verdict)
    ensures v.canScrape <==> (apis.shopifyJson
                              || (SitemapTried(sitemap, pages) && AnyGood(pages))
                              || (!SitemapTried(sitemap, pages) && (apis.wpApi || apis.collections))
                              || AnyStealthOk(stealth))
    ensures !v.canScrape <==> v.approach == "NONE"
    ensures apis.shopifyJson ==> v.approach == ShopifyMethod
    ensures v.approach == StealthMethod ==> !apis.shopifyJson && AnyStealthOk(stealth)
  {
    var first :=
      if apis.shopifyJson then Verdict(true, ShopifyMethod)
      else if SitemapTried(sitemap, pages) then
        (if AnyGood(pages) then Verdict(true, SitemapMethod) else Verdict(false, "NONE"))
      else if apis.wpApi then Verdict(true, WpMethod)
      else if apis.collections then Verdict(true, CollectionsMethod)
      else Verdict(false, "NONE");
    if first.canScrape then first
    else if AnyStealthOk(stealth) then Verdict(true, StealthMethod)
    else first
  }

  /**
   * When the sitemap gave URLs whose pages were visited, the WordPress
   * API and the collections are never consulted, even when every page
   * was bad.
   */
  lemma SitemapShadowsApis(apis1: Apis, apis2: Apis, sitemap: SitemapResult, pages: seq<Probe>, stealth: seq<Probe>)
    requires SitemapTried(sitemap, pages) && apis1.shopifyJson == apis2.shopifyJson
    ensures VerdictOf(apis1, sitemap, pages, stealth) == VerdictOf(apis2, sitemap, pages, stealth)
  {
  }

  /** The summary of `investigate_site`, updating `can_scrape` and `method` step by step. */
  method DecideVerdict(apis: Apis, sitemap: SitemapResult, pages: seq<Probe>, stealth: seq<Probe>) returns (v: Verdict)
    ensures v == VerdictOf(apis, sitemap, pages, stealth)
  {
    var canScrape := false;
    var approach := "NONE";
    if apis.shopifyJson {
      canScrape := true;
      approach := ShopifyMethod;
    } else if sitemap.productUrls != [] && pages != [] {
      var good := Select(pages, Good);
      if good != [] {
        assert good[0] in good;
        canScrape := true;
        approach := SitemapMethod;
      } else {
        assert forall k :: 0 <= k < |pages| ==> !Good(pages[k]) by {
          forall k | 0 <= k < |pages| ensures !Good(pages[k]) {
            assert pages[k] in pages;
          }
        }
      }
    } else if apis.wpApi {
      canScrape := true;
      approach := WpMethod;
    } else if apis.collections {
      canScrape := true;
      approach := CollectionsMethod;
    }
    if !canScrape {
      var ok := Select(stealth, StealthOk);
      if ok != [] {
        assert ok[0] in ok;
        canScrape := true;
        approach := StealthMethod;
      } else {
        assert forall k :: 0 <= k < |stealth| ==> !StealthOk(stealth[k]) by {
          forall k | 0 <= k < |stealth| ensures !StealthOk(stealth[k]) {
            assert stealth[k] in stealth;
          }
        }
      }
    }
    v := Verdict(canScrape, approach);
  }

  // ------------------------------------------------------------------
  // One site

  datatype Findings = Findings(
    siteId: string, baseUrl: string, robots: Robots, sitemap: SitemapResult, apis: Apis,
    stealth: seq<Probe>, sitemapProducts: seq<Probe>, verdict: Verdict)

  /**
   * `investigate_site`: robots.txt, the sitemap sources, the API probes,
   * the browser search and, when the sitemap gave URLs, their pages; then
   * the verdict over all of them.
   */
  method InvestigateSite(siteId: string, base: string, rows: seq<Row>, get: Session, locs: LocParser, apis: Apis,
                         browse: Browser, fuel: nat)
    returns (f: Findings)
    ensures f.robots == TryRobots(base, get)
    ensures f.sitemap.found ==> exists k :: 0 <= k < |SitemapSources(base, f.robots)| && k < 3
                                 && f.sitemap == SitemapOf(SitemapSources(base, f.robots)[k], get, locs, MaxProducts, fuel)
    ensures !f.sitemap.found ==> f.sitemap == NotFound
    ensures f.stealth == StealthOf(base, Samples(rows), browse)
    ensures f.sitemapProducts == SitemapPages(f.sitemap.productUrls, browse)
    ensures f.verdict == VerdictOf(apis, f.sitemap, f.sitemapProducts, f.stealth)
    ensures forall u :: u in f.sitemap.productUrls ==> IsProductLoc(u)
  {
    var samples := Samples(rows);
    var robots := TryRobots(base, get);
    var sources := SitemapSources(base, robots);
    var sitemap, k := FindSitemap(sources, get, locs, fuel);
    if sitemap.found {
      SitemapUrlsAreProducts(sources[k], get, locs, MaxProducts, fuel);
    }
    var stealth := StealthOf(base, samples, browse);
    var pages: seq<Probe> := [];
    if sitemap.productUrls != [] {
      pages := SitemapPages(sitemap.productUrls, browse);
    }
    var verdict := DecideVerdict(apis, sitemap, pages, stealth);
    f := Findings(siteId, base, robots, sitemap, apis, stealth, pages, verdict);
  }
}
