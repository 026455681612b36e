/**
 * Classifying one fetched page of a site and trying the product URL
 * candidates built from a sample row.
 */
module AnalyzeSite {
  import opened Wrappers
  import opened Text
  import opened Json
  import opened Slugs
  import ScraperLib

  // ------------------------------------------------------------------
  // Slug

  /**
   * `slug`: blank gives ""; otherwise the stripped text keeps `[\w\s-]`,
   * runs of hyphens and whitespace become one hyphen, the result is
   * lower-cased and cut at 80. (The same helper appears unchanged in
   * several scripts; this is its single definition.)
   */
  function Slug(s: string): string
  {
    if Strip(s) == "" then "" else Take(Lower(Hyphenate(Strip(s))), 80)
  }

  /** A slug holds only `[a-z0-9_-]`, never two hyphens in a row, at most 80 characters; blank input gives "". */
  lemma SlugShape(s: string)
    ensures All(Slug(s), IsSlugChar) && NoAdjacent(Slug(s), '-') && |Slug(s)| <= 80
    ensures Strip(s) == "" ==> Slug(s) == ""
    ensures Strip(s) != "" ==> (Slug(s) == "" <==> Filter(Strip(s), IsSlugKeep) == "")
  {
    if Strip(s) != "" {
      HyphenateShape(Strip(s));
      LowerSlugChars(Hyphenate(Strip(s)));
      TakeSlugChars(Lower(Hyphenate(Strip(s))), 80);
    }
  }

  /** Slugging a slug changes nothing. */
  lemma SlugIdempotent(s: string)
    ensures Slug(Slug(s)) == Slug(s)
  {
    SlugShape(s);
    var r := Slug(s);
    if r != "" {
      assert NoEdgeSpace(r);
      StripOfNoEdge(r);
      HyphenateIdle(r);
      assert Lower(r) == r;
    }
  }

  // ------------------------------------------------------------------
  // Product URL candidates

  datatype Candidate = Candidate(kind: string, url: string)

  /** `f"{base}/{path}{key}"`: starts with the base and a slash, ends with the key. */
  function UrlUnder(base: string, path: string, key: string): (u: string)
    ensures StartsWith(u, base + "/") && EndsWith(u, key)
  {
    var u := base + "/" + path + key;
    assert u[..|base + "/"|] == base + "/";
    assert u[|u| - |key|..] == key;
    u
  }

  /**
   * `product_url_candidates`: the four UPC-based URLs when the UPC is
   * non-empty, then the two slug-based URLs when the slug is non-empty, all
   * under the base without its trailing slashes (the URLs themselves are
   * stated by `UpcCandidates` and `SlugCandidates`).
   */
  function ProductUrlCandidates(baseUrl: string, upc: string, name: string): (out: seq<Candidate>)
    ensures |out| == (if upc != "" then 4 else 0) + (if Slug(name) != "" then 2 else 0)
    ensures forall c :: c in out ==> StartsWith(c.url, RStripCh(baseUrl, '/') + "/")
    ensures upc != "" ==> out[..4] == UpcCandidates(RStripCh(baseUrl, '/'), upc)
    ensures Slug(name) != "" ==> out[|out| - 2..] == SlugCandidates(RStripCh(baseUrl, '/'), Slug(name))
  {
    var base := RStripCh(baseUrl, '/');
    var nameSlug := Slug(name);
    var byUpc := if upc != "" then UpcCandidates(base, upc) else [];
    var bySlug := if nameSlug != "" then SlugCandidates(base, nameSlug) else [];
    var out := byUpc + bySlug;
    assert out[..|byUpc|] == byUpc && out[|byUpc|..] == bySlug;
    out
  }

  /** The four UPC-based candidates, each under `base` and ending with the UPC. */
  function UpcCandidates(base: string, upc: string): (out: seq<Candidate>)
    ensures |out| == 4
    ensures forall c :: c in out ==> StartsWith(c.url, base + "/") && EndsWith(c.url, upc)
    ensures out[0].kind == "query_param_upc" && out[3].kind == "p_upc"
    ensures out[0].url == base + "/?p=" + upc && out[1].url == base + "/products/" + upc
    ensures out[2].url == base + "/product/" + upc && out[3].url == base + "/p/" + upc
  {
    assert base + "/" + "?p=" + upc == base + "/?p=" + upc;
    assert base + "/" + "products/" + upc == base + "/products/" + upc;
    assert base + "/" + "product/" + upc == base + "/product/" + upc;
    assert base + "/" + "p/" + upc == base + "/p/" + upc;
    [Candidate("query_param_upc", UrlUnder(base, "?p=", upc)),
     Candidate("products_upc", UrlUnder(base, "products/", upc)),
     Candidate("product_upc", UrlUnder(base, "product/", upc)),
     Candidate("p_upc", UrlUnder(base, "p/", upc))]
  }

  /** The two slug-based candidates, each under `base` and ending with the slug. */
  function SlugCandidates(base: string, nameSlug: string): (out: seq<Candidate>)
    ensures |out| == 2
    ensures forall c :: c in out ==> StartsWith(c.url, base + "/") && EndsWith(c.url, nameSlug)
    ensures out[0].url == base + "/products/" + nameSlug && out[1].url == base + "/product/" + nameSlug
  {
    assert base + "/" + "products/" + nameSlug == base + "/products/" + nameSlug;
    assert base + "/" + "product/" + nameSlug == base + "/product/" + nameSlug;
    [Candidate("products_slug", UrlUnder(base, "products/", nameSlug)),
     Candidate("product_slug", UrlUnder(base, "product/", nameSlug))]
  }

  // ------------------------------------------------------------------
  // Page analysis

  datatype PageType = Empty | Blocked | Captcha | Product | Search | NotFound | GenericOrHome

  /** What the regular expressions of `analyze_html` find in a page. */
  datatype Page = Page(
    html: string,
    titleText: Option<string>,     // the first `<title>` text, unstripped
    ldBlocks: seq<Option<Json>>,   // each ld+json script, parsed or not
    hasOgTitle: bool,
    hasOgDescription: bool,
    hasOgImage: bool,
    productLinks: nat)             // hrefs with /product/ or /products/

  datatype Analysis = Analysis(
    pageType: PageType,
    title: string,
    jsonLdProduct: bool,
    ogTitle: bool,
    ogDescription: bool,
    ogImage: bool,
    productLinksCount: nat,
    blocked: bool)

  /** A block that ends the JSON-LD scan: a Product dict, or any list. */
  predicate Decides(b: Option<Json>)
  {
    b.Some? && (IsProduct(b.value) || b.value.JArr?)
  }

  /** What a deciding block says: a Product dict, or a list holding a Product. */
  predicate DecidesProduct(b: Option<Json>)
  {
    b.Some? && (IsProduct(b.value) || (b.value.JArr? && FirstProduct(b.value.items).Some?))
  }

  /**
   * The JSON-LD flag: the first block that is a Product dict or a list
   * decides it, and it is set iff that block is a Product or a list with
   * a Product in it.
   */
  function LdProductFlag(blocks: seq<Option<Json>>): (found: bool)
    ensures found <==> exists k :: 0 <= k < |blocks| && Decides(blocks[k]) && DecidesProduct(blocks[k])
                                   && forall j :: 0 <= j < k ==> !Decides(blocks[j])
    decreases |blocks|
  {
    if |blocks| == 0 then false
    else if Decides(blocks[0]) then DecidesProduct(blocks[0])
    else
      var r := LdProductFlag(blocks[1..]);
      assert forall k :: 1 <= k < |blocks| ==> blocks[k] == blocks[1..][k - 1];
      assert r ==> exists k :: 1 <= k < |blocks| && Decides(blocks[k]) && DecidesProduct(blocks[k])
                               && forall j :: 0 <= j < k ==> !Decides(blocks[j]) by {
        if r {
          var k :| 0 <= k < |blocks[1..]| && Decides(blocks[1..][k]) && DecidesProduct(blocks[1..][k])
                   && forall j :: 0 <= j < k ==> !Decides(blocks[1..][j]);
          assert forall j :: 1 <= j < k + 1 ==> !Decides(blocks[j]);
        }
      }
      r
  }

  /** The scan loop of `analyze_html`, with its two breaks. */
  method ScanLdProduct(blocks: seq<Option<Json>>) returns (found: bool)
    ensures found == LdProductFlag(blocks)
  {
    found := false;
    var i := 0;
    while i < |blocks|
      invariant 0 <= i <= |blocks|
      invariant !found
      invariant LdProductFlag(blocks) == LdProductFlag(blocks[i..])
      decreases |blocks| - i
    {
      assert blocks[i..][1..] == blocks[i + 1..];
      var b := blocks[i];
      if b.Some? && IsProduct(b.value) {
        found := true;
        break;
      }
      if b.Some? && b.value.JArr? {
        found := FirstProduct(b.value.items).Some?;
        break;
      }
      i := i + 1;
    }
  }

  /** The HTML is empty or shorter than 200 characters. */
  predicate TooShort(p: Page) { |p.html| < 200 }

  /** "403" in the first 1500 characters or "Forbidden" in the first 2000. */
  predicate Forbidden(p: Page) { Contains(Take(p.html, 1500), "403") || Contains(Take(p.html, 2000), "Forbidden") }

  /** "sgcaptcha" in the first 2000 or "captcha" in the first 3000 characters, ignoring case. */
  predicate CaptchaPage(p: Page)
  {
    Contains(Lower(Take(p.html, 2000)), "sgcaptcha") || Contains(Lower(Take(p.html, 3000)), "captcha")
  }

  /** The default record with only the page type and the blocked flag set. */
  function BlockedAnalysis(t: PageType): Analysis
  {
    Analysis(t, "", false, false, false, false, 0, true)
  }

  /** The stripped first title, cut at 200 characters. */
  function TitleOf(p: Page): string
  {
    if p.titleText.Some? then Take(Strip(p.titleText.value), 200) else ""
  }

  /** The page type cascade of `analyze_html`. */
  function PageTypeOf(p: Page): PageType
  {
    if TooShort(p) then Empty
    else if Forbidden(p) then Blocked
    else if CaptchaPage(p) then Captcha
    else if LdProductFlag(p.ldBlocks) || (p.hasOgTitle && p.hasOgImage) then Product
    else if p.productLinks > 0 then Search
    else if Contains(TitleOf(p), "404") || Contains(Lower(TitleOf(p)), "not found") then NotFound
    else GenericOrHome
  }

  /** `analyze_html` */
  function AnalyzeHtml(p: Page): (a: Analysis)
    ensures TooShort(p) ==> a == BlockedAnalysis(Empty)
    ensures !TooShort(p) && Forbidden(p) ==> a == BlockedAnalysis(Blocked)
    ensures !TooShort(p) && !Forbidden(p) && CaptchaPage(p) ==> a == BlockedAnalysis(Captcha)
    ensures a.blocked <==> a.pageType in {Empty, Blocked, Captcha}
    ensures !a.blocked ==>
              (a.pageType == Product <==> a.jsonLdProduct || (a.ogTitle && a.ogImage))
              && (a.pageType == Search <==> !(a.jsonLdProduct || (a.ogTitle && a.ogImage)) && a.productLinksCount > 0)
              && (a.pageType == NotFound <==> !(a.jsonLdProduct || (a.ogTitle && a.ogImage)) && a.productLinksCount == 0
                                                && (Contains(a.title, "404") || Contains(Lower(a.title), "not found")))
    ensures !a.blocked ==> a.jsonLdProduct == LdProductFlag(p.ldBlocks) && |a.title| <= 200
    ensures a.pageType == PageTypeOf(p)
  {
    var t := PageTypeOf(p);
    if t in {Empty, Blocked, Captcha} then BlockedAnalysis(t)
    else Analysis(t, TitleOf(p), LdProductFlag(p.ldBlocks), p.hasOgTitle, p.hasOgDescription, p.hasOgImage, p.productLinks, false)
  }

  /** A flag set by this scan implies that the shared selector finds a Product too. */
  lemma LdFlagImpliesProduct(blocks: seq<Option<Json>>)
    requires LdProductFlag(blocks)
    ensures ScraperLib.ExtractJsonLdProduct(blocks).Some?
  {
    var k :| 0 <= k < |blocks| && Decides(blocks[k]) && DecidesProduct(blocks[k])
             && forall j :: 0 <= j < k ==> !Decides(blocks[j]);
    assert ScraperLib.Yields(blocks, k);
  }

  /**
   * A list block without a Product ends the scan: a Product in a later
   * block is missed.
   */
  lemma ListBlockHidesLaterProduct(product: Json)
    requires IsProduct(product)
    ensures !LdProductFlag([Some(JArr([])), Some(product)])
    ensures ScraperLib.ExtractJsonLdProduct([Some(JArr([])), Some(product)]) == Some(product)
  {
    var blocks := [Some(JArr([])), Some(product)];
    assert Decides(blocks[0]) && !DecidesProduct(blocks[0]);
    assert !ScraperLib.Yields(blocks, 0) && ScraperLib.Yields(blocks, 1);
  }

  // ------------------------------------------------------------------
  // Candidate trial loop of `run_analysis`

  /** The page type of each fetched page; `None` where navigation failed. */
  function Classify(fetched: seq<Option<Page>>): (types: seq<Option<PageType>>)
    ensures |types| == |fetched|
  {
    seq(|fetched|, j requires 0 <= j < |fetched| => if fetched[j].Some? then Some(PageTypeOf(fetched[j].value)) else None)
  }

  /** A classified page worth keeping: not blocked, captcha or 404. */
  predicate Keepable(t: Option<PageType>)
  {
    t.Some? && t.value != Blocked && t.value != Captcha && t.value != NotFound
  }

  /**
   * The candidates are tried in order; `fetched[i]` is the page the
   * browser returned for candidate `i`, `None` when navigation failed.
   * `worked` is the first candidate classified `product`; `kept` is the
   * index whose page is saved: the product when there is one, otherwise
   * the first page not classified blocked, captcha or 404.
   */
  method TryCandidates(cands: seq<Candidate>, fetched: seq<Option<Page>>) returns (worked: Option<nat>, kept: Option<nat>)
    requires |fetched| == |cands|
    ensures worked.Some? ==> worked.value < |cands| && Classify(fetched)[worked.value] == Some(Product)
                             && forall j :: 0 <= j < worked.value ==> Classify(fetched)[j] != Some(Product)
    ensures worked.None? ==> forall j :: 0 <= j < |cands| ==> Classify(fetched)[j] != Some(Product)
    ensures worked.Some? ==> kept == worked
    ensures worked.None? ==> (kept.None? <==> forall j :: 0 <= j < |cands| ==> !Keepable(Classify(fetched)[j]))
    ensures worked.None? && kept.Some? ==>
              kept.value < |cands| && Keepable(Classify(fetched)[kept.value])
              && forall j :: 0 <= j < kept.value ==> !Keepable(Classify(fetched)[j])
  {
    worked, kept := PickCandidate(Classify(fetched));
  }

  /** The trial loop over the classified pages, in candidate order. */
  method PickCandidate(types: seq<Option<PageType>>) returns (worked: Option<nat>, kept: Option<nat>)
    ensures worked.Some? ==> worked.value < |types| && types[worked.value] == Some(Product)
                             && forall j :: 0 <= j < worked.value ==> types[j] != Some(Product)
    ensures worked.None? ==> forall j :: 0 <= j < |types| ==> types[j] != Some(Product)
    ensures worked.Some? ==> kept == worked
    ensures worked.None? ==> (kept.None? <==> forall j :: 0 <= j < |types| ==> !Keepable(types[j]))
    ensures worked.None? && kept.Some? ==>
              kept.value < |types| && Keepable(types[kept.value])
              && forall j :: 0 <= j < kept.value ==> !Keepable(types[j])
  {
    worked := None;
    kept := None;
    var i := 0;
    while i < |types|
      invariant 0 <= i <= |types|
      invariant worked.None?
      invariant forall j :: 0 <= j < i ==> types[j] != Some(Product)
      invariant kept.None? <==> forall j :: 0 <= j < i ==> !Keepable(types[j])
      invariant kept.Some? ==> kept.value < i && Keepable(types[kept.value])
                               && forall j :: 0 <= j < kept.value ==> !Keepable(types[j])
      decreases |types| - i
    {
      if types[i].Some? {
        var t := types[i].value;
        if t == Product {
          worked := Some(i);
          kept := Some(i);
          break;
        } else if Keepable(types[i]) {
          if kept.None? {
            kept := Some(i);
          }
        }
      }
      i := i + 1;
    }
  }

  /** An empty page is not a failure for the fallback: it can be the page kept. */
  lemma EmptyPageCanBeKept(p: Page)
    requires TooShort(p)
    ensures Keepable(Some(AnalyzeHtml(p).pageType))
  {
  }
}
