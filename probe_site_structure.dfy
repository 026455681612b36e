/**
 * Probing a site's structure: its search URL, the product URL of a sheet
 * row, and a short report of a fetched page.
 */
module ProbeSiteStructure {
  import opened Wrappers
  import opened Text
  import opened Json
  import opened Sheet
  import opened Sites
  import opened Url
  import AnalyzeSite
  import ScraperLib

  // ------------------------------------------------------------------
  // Search URL

  /**
   * `get_search_url`: `None` for an empty base or a blank query; with a
   * template, `{base_url}`, `{query}` and `{q}` are substituted in that
   * order; otherwise the default `/search?q=` URL.
   */
  function GetSearchUrl(cfg: SiteConfig, query: string): (r: Option<string>)
    ensures r.None? <==> RStripCh(cfg.baseUrl, '/') == "" || Strip(query) == ""
    ensures r.Some? && cfg.searchUrl == "" ==> r.value == RStripCh(cfg.baseUrl, '/') + "/search?q=" + QuotePlus(Strip(query))
    ensures r.Some? && cfg.searchUrl != "" ==> r.value == SubstituteSearch(cfg.searchUrl, RStripCh(cfg.baseUrl, '/'), QuotePlus(Strip(query)))
  {
    var base := RStripCh(cfg.baseUrl, '/');
    if base == "" || Strip(query) == "" then None
    else
      var q := QuotePlus(Strip(query));
      if cfg.searchUrl != "" then
        Some(SubstituteSearch(cfg.searchUrl, base, q))
      else Some(base + "/search?q=" + q)
  }

  /** The three substitutions of a search template. */
  function SubstituteSearch(template: string, base: string, q: string): string
  {
    ReplaceAll(ReplaceAll(ReplaceAll(template, "{base_url}", base), "{query}", q), "{q}", q)
  }

  /** A template without placeholders is used as it stands. */
  lemma TemplateWithoutPlaceholders(template: string, base: string, q: string)
    requires !Contains(template, "{base_url}") && !Contains(template, "{query}") && !Contains(template, "{q}")
    ensures SubstituteSearch(template, base, q) == template
  {
    ReplaceAllAbsent(template, "{base_url}", base);
    ReplaceAllAbsent(template, "{query}", q);
    ReplaceAllAbsent(template, "{q}", q);
  }

  // ------------------------------------------------------------------
  // Row URL

  /** `(row.get(c1) or row.get(c2) or ... or "").strip()`: the first non-empty cell, then stripped. */
  function FirstCellStripped(row: Row, cols: seq<string>): string
  {
    Strip(FirstFilled(row, cols))
  }

  /** The four placeholder substitutions of a URL pattern, in the order the scripts apply them. */
  function Substitute(pattern: string, base: string, upc: string, number: string, nameSlug: string): string
  {
    ReplaceAll(ReplaceAll(ReplaceAll(ReplaceAll(pattern, "{base_url}", base), "{upc}", upc), "{number}", number),
               "{name_slug}", nameSlug)
  }

  /**
   * `get_row_url` of this script: a non-empty product URL column wins
   * (stripped, `None` if only blanks); otherwise the pattern is filled
   * from the row's UPC, number and name slug, and `None` comes back when
   * there is no pattern or base, or when `{name_slug}` or `{upc}` is used
   * but empty.
   */
  function GetRowUrl(row: Row, cfg: SiteConfig): (r: Option<string>)
    ensures cfg.productUrlColumn != "" && Cell(row, cfg.productUrlColumn) != "" ==>
              r == (if Strip(Cell(row, cfg.productUrlColumn)) == "" then None else Some(Strip(Cell(row, cfg.productUrlColumn))))
    ensures !(cfg.productUrlColumn != "" && Cell(row, cfg.productUrlColumn) != "") ==>
              (r.None? <==> cfg.urlPattern == "" || RStripCh(cfg.baseUrl, '/') == ""
                            || (Contains(cfg.urlPattern, "{name_slug}") && AnalyzeSite.Slug(FirstCellStripped(row, ScraperLib.NameColumns)) == "")
                            || (Contains(cfg.urlPattern, "{upc}") && FirstCellStripped(row, ScraperLib.UpcColumns) == ""))
  {
    var col := cfg.productUrlColumn;
    if col != "" && Cell(row, col) != "" then
      (if Strip(Cell(row, col)) == "" then None else Some(Strip(Cell(row, col))))
    else
      var base := RStripCh(cfg.baseUrl, '/');
      var pattern := cfg.urlPattern;
      if pattern == "" || base == "" then None
      else
        var upc := FirstCellStripped(row, ScraperLib.UpcColumns);
        var name := FirstCellStripped(row, ScraperLib.NameColumns);
        var number := Strip(Cell(row, "Number"));
        var nameSlug := if name != "" then AnalyzeSite.Slug(name) else "";
        if Contains(pattern, "{name_slug}") && nameSlug == "" then None
        else if Contains(pattern, "{upc}") && upc == "" then None
        else Some(Substitute(pattern, base, upc, number, nameSlug))
  }

  /** A brace-free text contains no placeholder. */
  lemma NoPlaceholders(s: string)
    requires forall i :: 0 <= i < |s| ==> s[i] != '{'
    ensures !Contains(s, "{upc}") && !Contains(s, "{number}") && !Contains(s, "{name_slug}")
  {
    ContainsNeedsHead(s, "{upc}");
    ContainsNeedsHead(s, "{number}");
    ContainsNeedsHead(s, "{name_slug}");
  }

  /**
   * Unlike the pattern builders of fetch_pages and discover_urls, this one
   * can return the bare base: the pattern `{base_url}` alone gives it.
   */
  lemma BareBaseReturned(row: Row, cfg: SiteConfig)
    requires cfg.productUrlColumn == "" && cfg.urlPattern == "{base_url}"
    requires RStripCh(cfg.baseUrl, '/') != ""
    requires forall i :: 0 <= i < |cfg.baseUrl| ==> cfg.baseUrl[i] != '{'
    ensures GetRowUrl(row, cfg) == Some(RStripCh(cfg.baseUrl, '/'))
  {
    var base := RStripCh(cfg.baseUrl, '/');
    RStripChPrefix(cfg.baseUrl, '/');
    assert forall i :: 0 <= i < |base| ==> base[i] == cfg.baseUrl[i];
    BasePatternIsBase(base, FirstCellStripped(row, ScraperLib.UpcColumns), Strip(Cell(row, "Number")),
                      var name := FirstCellStripped(row, ScraperLib.NameColumns); if name != "" then AnalyzeSite.Slug(name) else "");
    PatternHasNoUpc();
  }

  lemma PatternHasNoUpc()
    ensures !Contains("{base_url}", "{upc}") && !Contains("{base_url}", "{name_slug}")
  {
    var s := "{base_url}";
    assert forall i :: 1 <= i < |s| ==> s[i] != '{';
    var upc, slug := "{upc}", "{name_slug}";
    assert upc[0] == '{' && upc[1] == 'u';
    assert slug[0] == '{' && slug[1] == 'n';
    OneOpeningBrace(s, upc);
    OneOpeningBrace(s, slug);
  }

  /**
   * A string whose only `{` is its first character holds a placeholder
   * only as its own prefix; a different second character rules that out.
   */
  lemma OneOpeningBrace(s: string, p: string)
    requires |s| >= 2 && |p| >= 2 && s[0] == '{' && p[0] == '{' && s[1] != p[1]
    requires forall i :: 1 <= i < |s| ==> s[i] != '{'
    ensures !Contains(s, p)
  {
    ContainsNeedsHead(s[1..], p);
    assert |p| <= |s| ==> s[..|p|][1] != p[1];
  }

  /** The pattern `{base_url}` fills to the base itself when the base holds no brace. */
  lemma BasePatternIsBase(base: string, upc: string, number: string, nameSlug: string)
    requires forall i :: 0 <= i < |base| ==> base[i] != '{'
    ensures Substitute("{base_url}", base, upc, number, nameSlug) == base
  {
    NoPlaceholders(base);
    ReplaceAllWhole("{base_url}", base);
    ReplaceAllAbsent(base, "{upc}", upc);
    ReplaceAllAbsent(base, "{number}", number);
    ReplaceAllAbsent(base, "{name_slug}", nameSlug);
  }

  // ------------------------------------------------------------------
  // Page report

  datatype Report = Report(
    source: string,
    title: string,
    jsonLdProduct: bool,
    ogTitle: bool,
    ogDescription: bool,
    ogImage: bool,
    productLinksCount: nat,
    blocked: bool)

  /**
   * The early exits of `report_html`: shorter than 200 characters, "403"
   * in the first 1000, "Forbidden" in the first 2000, or "sgcaptcha"
   * (case-sensitive) in the first 2000.
   */
  predicate ReportBlocked(p: AnalyzeSite.Page)
  {
    |p.html| < 200 || Contains(Take(p.html, 1000), "403") || Contains(Take(p.html, 2000), "Forbidden")
    || Contains(Take(p.html, 2000), "sgcaptcha")
  }

  /** `report_html` */
  function ReportHtml(p: AnalyzeSite.Page, source: string): (r: Report)
    ensures r.blocked <==> ReportBlocked(p)
    ensures r.blocked ==> r == Report(source, "", false, false, false, false, 0, true)
    ensures !r.blocked ==> |r.title| <= 80 && r.jsonLdProduct == AnalyzeSite.LdProductFlag(p.ldBlocks)
                           && r.ogTitle == p.hasOgTitle && r.ogDescription == p.hasOgDescription
                           && r.ogImage == p.hasOgImage && r.productLinksCount == p.productLinks
    ensures !r.blocked ==> r.title == (if p.titleText.Some? then Take(Strip(p.titleText.value), 80) else "")
    ensures r.source == source
  {
    if ReportBlocked(p) then Report(source, "", false, false, false, false, 0, true)
    else
      var title := if p.titleText.Some? then Take(Strip(p.titleText.value), 80) else "";
      Report(source, title, AnalyzeSite.LdProductFlag(p.ldBlocks), p.hasOgTitle, p.hasOgDescription, p.hasOgImage,
             p.productLinks, false)
  }

  /** Every page this report calls blocked is also blocked for `analyze_html`. */
  lemma ReportBlockedImpliesAnalyzeBlocked(p: AnalyzeSite.Page)
    requires ReportBlocked(p)
    ensures AnalyzeSite.AnalyzeHtml(p).blocked
  {
    if |p.html| >= 200 {
      if Contains(Take(p.html, 1000), "403") {
        ContainsMono(p.html, "403", 1000, 1500);
        assert AnalyzeSite.Forbidden(p);
      } else if Contains(Take(p.html, 2000), "Forbidden") {
        assert AnalyzeSite.Forbidden(p);
      } else {
        ContainsLower(Take(p.html, 2000), "sgcaptcha");
        assert Lower("sgcaptcha") == "sgcaptcha";
        assert AnalyzeSite.CaptchaPage(p);
      }
    }
  }

  /** The converse fails: a page whose only alarm is a plain "captcha" is reported as not blocked. */
  lemma CaptchaOnlyInAnalyze(p: AnalyzeSite.Page)
    requires |p.html| >= 200 && !ReportBlocked(p)
    requires Contains(Lower(Take(p.html, 3000)), "captcha") && !Contains(Take(p.html, 1500), "403")
    ensures AnalyzeSite.AnalyzeHtml(p).blocked && !ReportHtml(p, "").blocked
  {
  }
}
