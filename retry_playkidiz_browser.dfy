/**
 * The playkidiz retry through a browser: the site's search, with the
 * name and then its first two keywords, a landing on a product page or
 * the first product link of the results, and the WooCommerce extraction
 * with its image and description fallbacks.
 */
module RetryPlaykidizBrowser {
  import opened Wrappers
  import opened Text
  import opened Matching
  import opened Sheet
  import opened Retry
  import ScraperLib

  const Base: string := "https://playkidiz.com"

  const Filler: set<string> := {
    "the", "a", "an", "and", "or", "of", "for", "with", "by", "in", "to",
    "set", "kit", "pack", "ct", "pcs", "pc", "piece", "pieces", "toy"}

  const ImageSels: seq<string> := [".woocommerce-product-gallery img", ".wp-post-image", "figure img"]
  const TextSels: seq<string> := [".woocommerce-product-details__short-description", ".entry-content"]

  /** `extract_keywords`: the significant words of the normalised name, else its first words. */
  function ExtractKeywords(name: string, max: nat): seq<string>
  {
    KeywordsOrWords(Words(Normalize(name)), Filler, max)
  }

  /** The query list for keywords `kw`: the name, then the first two keywords when there are two. */
  function QueriesOf(name: string, kw: seq<string>): (r: seq<string>)
    ensures |r| == (if |kw| >= 2 then 2 else 1)
    ensures r[0] == name
    ensures |kw| >= 2 ==> r[1] == kw[0] + " " + kw[1]
  {
    assert |kw| >= 2 ==> Join(" ", kw[..2]) == kw[0] + " " + kw[1] by {
      if |kw| >= 2 {
        assert kw[..2][1..] == [kw[1]];
      }
    }
    [name] + (if |kw| >= 2 then [Join(" ", kw[..2])] else [])
  }

  function Queries(name: string): seq<string>
  {
    QueriesOf(name, ExtractKeywords(name, 3))
  }

  function Attempt(web: Web): (string, string) -> Option<Entry>
  {
    Searcher(web, ProductPath, ProductPath, WooExtractor(Base, ImageSels, TextSels))
  }

  /**
   * `_extract`: a row needs a title; a missing image comes from the
   * selectors and is then a web URL, never inline data; a missing
   * description comes from the selectors and is at most 500 characters.
   */
  lemma ExtractFallbacks(view: View, url: string, upc: string)
    ensures var r := ExtractWoo(view, url, Base, upc, ImageSels, TextSels);
            && (r.Got? ==> r.entry.title != "" && r.entry.upc == upc && r.entry.productUrl == url)
            && (r.Got? && ScraperLib.PageFields(view.page).value.imageUrl == "" && r.entry.imageUrl != "" ==>
                  StartsWith(r.entry.imageUrl, "http") && !StartsWith(r.entry.imageUrl, "data:"))
            && (r.Got? && ScraperLib.PageFields(view.page).value.description == "" ==> |r.entry.description| <= 500)
  {
    FallbackImageIsWeb(view, url, Base, upc, ImageSels, TextSels);
  }

  /** The new rows are for sheet rows with a non-empty UPC that had no result. */
  lemma NewRowsAreNew(site: Site)
    ensures forall e :: e in NewRows(site, Queries, Attempt(site.web)) ==> e.upc != "" && e.upc !in Done(site.existing)
  {
    WooExtractorKeepsUpc(Base, ImageSels, TextSels);
    SearcherKeepsUpc(site.web, ProductPath, ProductPath, WooExtractor(Base, ImageSels, TextSels));
    NewRowsAreMissing(site.rows, site.existing, Queries, Attempt(site.web));
  }

  /** `main`: the file is rewritten only when rows were missing, with the new rows after the old. */
  method Run(site: Site) returns (written: Option<seq<Entry>>, newMatches: nat)
    ensures Missing(site.rows, site.existing) == [] ==> written.None?
    ensures Missing(site.rows, site.existing) != [] ==> written == Some(site.existing + NewRows(site, Queries, Attempt(site.web)))
    ensures newMatches == |NewRows(site, Queries, Attempt(site.web))|
  {
    written, newMatches := RetrySite(site.existing, site.rows, Queries, Attempt(site.web));
  }
}
