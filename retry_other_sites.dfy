/**
 * The retry of four sites whose first pass missed products: playkidiz and
 * samvix (WooCommerce searches), metal_earth (the autocomplete endpoint)
 * and razor (a search whose result is read by the shared page helpers).
 * Each retries only the sheet rows that have no result yet, with shorter
 * queries built from the name's keywords.
 */
module RetryOtherSites {
  import opened Wrappers
  import opened Text
  import opened Matching
  import opened Sheet
  import opened Retry

  const Filler: set<string> := {
    "the", "a", "an", "and", "or", "of", "for", "with", "by", "in", "to",
    "set", "kit", "pack", "ct", "pcs", "pc", "piece", "pieces", "toy",
    "toys", "game", "games", "play", "kids", "children", "child"}

  predicate LongerThanOne(w: string)
  {
    |w| > 1
  }

  /**
   * The keywords of a name's normalised words: those that are not filler
   * and longer than two letters, else those longer than one letter; the
   * first `max` of them, in order.
   */
  function Keywords(words: seq<string>, max: nat): (r: seq<string>)
    ensures |r| <= max
    ensures IsSubseq(r, words)
    ensures SigWords(words, Filler) != [] ==> forall w :: w in r ==> w !in Filler && |w| > 2
    ensures SigWords(words, Filler) == [] ==> forall w :: w in r ==> |w| > 1
    ensures max > 0 && (exists w :: w in words && |w| > 1) ==> r != []
    ensures var sig := SigWords(words, Filler);
            sig != [] ==> r == sig[..if max < |sig| then max else |sig|]
    ensures var longer := Select(words, LongerThanOne);
            SigWords(words, Filler) == [] ==> r == longer[..if max < |longer| then max else |longer|]
  {
    var longer := Select(words, LongerThanOne);
    SelectSubseq(words, LongerThanOne);
    var r := TakeSig(words, Filler, max, longer);
    assert forall w :: w in r ==> w in SigWords(words, Filler) || w in longer;
    r
  }

  /** `extract_keywords`: the keywords of the normalised name. */
  function ExtractKeywords(name: string, max: nat): seq<string>
  {
    Keywords(Words(Normalize(name)), max)
  }

  /** The queries of playkidiz, samvix and razor: the name, the first two keywords, the first keyword. */
  function Queries(name: string): seq<string>
  {
    ShortQueries(name, ExtractKeywords(name, 3))
  }

  /**
   * The metal_earth query list for keywords `kw`: the name, the first two
   * keywords when there are two, the second and third when there are three.
   */
  function MetalQueriesOf(name: string, kw: seq<string>): (r: seq<string>)
    ensures |r| == 1 + (if |kw| >= 3 then 2 else if |kw| == 2 then 1 else 0)
    ensures r[0] == name
    ensures |kw| >= 2 ==> r[1] == kw[0] + " " + kw[1]
    ensures |kw| >= 3 ==> r[2] == kw[1] + " " + kw[2]
  {
    assert |kw| >= 2 ==> Join(" ", kw[..2]) == kw[0] + " " + kw[1] by {
      if |kw| >= 2 {
        assert kw[..2][1..] == [kw[1]];
      }
    }
    assert |kw| >= 3 ==> Join(" ", kw[1..3]) == kw[1] + " " + kw[2] by {
      if |kw| >= 3 {
        assert kw[1..3][1..] == [kw[2]];
      }
    }
    [name]
    + (if |kw| >= 2 then [Join(" ", kw[..2])] else [])
    + (if |kw| >= 3 then [Join(" ", kw[1..3])] else [])
  }

  /** The queries of metal_earth, from four keywords. */
  function MetalQueries(name: string): seq<string>
  {
    MetalQueriesOf(name, ExtractKeywords(name, 4))
  }

  // ------------------------------------------------------------------
  // The four sites

  const PlaykidizBase: string := "https://playkidiz.com"
  const SamvixBase: string := "https://www.samvix.com"
  const MetalBase: string := "https://www.metalearth.com"
  const RazorBase: string := "https://razor.com"

  const WooImageSels: seq<string> := [".woocommerce-product-gallery img", ".product-images img", ".wp-post-image", "figure img"]
  const WooTextSels: seq<string> := [".woocommerce-product-details__short-description", ".product-description", ".entry-content"]

  /** A samvix landing taken for a product: under "/products/", not a listing page, not the catalog root. */
  predicate SamvixRedirect(url: string)
  {
    Contains(url, "/products/") && !Contains(url, "/products/page/") && url != SamvixBase + "/index.php/products/"
  }

  /** A samvix anchor taken for a product: under "/products/", not a listing page, not ending at "/products/". */
  predicate SamvixLink(href: string)
  {
    Contains(href, "/products/") && !Contains(href, "/products/page/") && !EndsWith(href, "/products/")
  }

  function PlaykidizAttempt(web: Web): (string, string) -> Option<Entry>
  {
    Searcher(web, ProductPath, ProductPath, WooExtractor(PlaykidizBase, WooImageSels, WooTextSels))
  }

  function SamvixAttempt(web: Web): (string, string) -> Option<Entry>
  {
    Searcher(web, SamvixRedirect, SamvixLink, WooExtractor(SamvixBase, WooImageSels, WooTextSels))
  }

  function MetalAttempt(web: Web): (string, string) -> Option<Entry>
  {
    Completer(web, MetalBase)
  }

  function RazorAttempt(web: Web): (string, string) -> Option<Entry>
  {
    Searcher(web, ProductPath, ProductPath, PageExtractor())
  }

  /** Every site's attempt gives rows with the UPC it searched for. */
  lemma AttemptsKeepUpc(web: Web)
    ensures KeepsUpc(PlaykidizAttempt(web)) && KeepsUpc(SamvixAttempt(web))
    ensures KeepsUpc(MetalAttempt(web)) && KeepsUpc(RazorAttempt(web))
  {
    WooExtractorKeepsUpc(PlaykidizBase, WooImageSels, WooTextSels);
    WooExtractorKeepsUpc(SamvixBase, WooImageSels, WooTextSels);
    PageExtractorKeepsUpc();
    SearcherKeepsUpc(web, ProductPath, ProductPath, WooExtractor(PlaykidizBase, WooImageSels, WooTextSels));
    SearcherKeepsUpc(web, SamvixRedirect, SamvixLink, WooExtractor(SamvixBase, WooImageSels, WooTextSels));
    SearcherKeepsUpc(web, ProductPath, ProductPath, PageExtractor());
    CompleterKeepsUpc(web, MetalBase);
  }

  /**
   * The new rows of every site are for rows that had no result: a
   * non-empty UPC of the site's sheet that was not in its results.
   */
  lemma NewRowsOfEachSite(p: Site, s: Site, m: Site, r: Site)
    ensures forall e :: e in NewRows(p, Queries, PlaykidizAttempt(p.web)) ==> e.upc != "" && e.upc !in Done(p.existing)
    ensures forall e :: e in NewRows(s, Queries, SamvixAttempt(s.web)) ==> e.upc != "" && e.upc !in Done(s.existing)
    ensures forall e :: e in NewRows(m, MetalQueries, MetalAttempt(m.web)) ==> e.upc != "" && e.upc !in Done(m.existing)
    ensures forall e :: e in NewRows(r, Queries, RazorAttempt(r.web)) ==> e.upc != "" && e.upc !in Done(r.existing)
  {
    AttemptsKeepUpc(p.web);
    AttemptsKeepUpc(s.web);
    AttemptsKeepUpc(m.web);
    AttemptsKeepUpc(r.web);
    NewRowsAreMissing(p.rows, p.existing, Queries, PlaykidizAttempt(p.web));
    NewRowsAreMissing(s.rows, s.existing, Queries, SamvixAttempt(s.web));
    NewRowsAreMissing(m.rows, m.existing, MetalQueries, MetalAttempt(m.web));
    NewRowsAreMissing(r.rows, r.existing, Queries, RazorAttempt(r.web));
  }

  /**
   * `main`: the four retries in turn; each site's file is rewritten only
   * when it had missing rows, and the total is the sum of the new rows.
   */
  method Run(p: Site, s: Site, m: Site, r: Site)
    returns (files: seq<Option<seq<Entry>>>, total: nat)
    ensures |files| == 4
    ensures files[0] == (if Missing(p.rows, p.existing) == [] then None else Some(p.existing + NewRows(p, Queries, PlaykidizAttempt(p.web))))
    ensures files[1] == (if Missing(s.rows, s.existing) == [] then None else Some(s.existing + NewRows(s, Queries, SamvixAttempt(s.web))))
    ensures files[2] == (if Missing(m.rows, m.existing) == [] then None else Some(m.existing + NewRows(m, MetalQueries, MetalAttempt(m.web))))
    ensures files[3] == (if Missing(r.rows, r.existing) == [] then None else Some(r.existing + NewRows(r, Queries, RazorAttempt(r.web))))
    ensures total == |NewRows(p, Queries, PlaykidizAttempt(p.web))| + |NewRows(s, Queries, SamvixAttempt(s.web))|
                     + |NewRows(m, MetalQueries, MetalAttempt(m.web))| + |NewRows(r, Queries, RazorAttempt(r.web))|
  {
    var w0, n0 := RetrySite(p.existing, p.rows, Queries, PlaykidizAttempt(p.web));
    var w1, n1 := RetrySite(s.existing, s.rows, Queries, SamvixAttempt(s.web));
    var w2, n2 := RetrySite(m.existing, m.rows, MetalQueries, MetalAttempt(m.web));
    var w3, n3 := RetrySite(r.existing, r.rows, Queries, RazorAttempt(r.web));
    files := [w0, w1, w2, w3];
    total := n0 + n1 + n2 + n3;
  }
}
