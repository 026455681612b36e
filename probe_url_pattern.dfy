/**
 * Finding a site's URL rule from one reference number: the first sheet
 * row with a UPC or a number is tried against a fixed list of URL
 * shapes, and the first shape that returns a product page becomes the
 * site's `url_pattern`.
 */
module ProbeUrlPattern {
  import opened Wrappers
  import opened Text
  import opened Sheet
  import opened Sites
  import ScraperLib
  import ProbeSiteStructure

  // ------------------------------------------------------------------
  // The reference of a sheet

  /** A reference value and its kind, "upc" or "number". */
  datatype Ref = Ref(value: string, kind: string)

  /**
   * One row's reference: the stripped `or` chain of the UPC columns,
   * else the stripped "Number" cell.
   */
  function RowRef(row: Row): (r: Option<Ref>)
    ensures r.Some? ==> r.value.value != "" && r.value.kind in {"upc", "number"}
    ensures r.Some? && r.value.kind == "number" ==> ProbeSiteStructure.FirstCellStripped(row, ScraperLib.UpcColumns) == ""
  {
    var upc := ProbeSiteStructure.FirstCellStripped(row, ScraperLib.UpcColumns);
    if upc != "" then Some(Ref(upc, "upc"))
    else
      var num := Strip(Cell(row, "Number"));
      if num != "" then Some(Ref(num, "number")) else None
  }

  /** `first_row_with_ref`: the reference of the first row that has one. */
  function FirstRowWithRef(rows: seq<Row>): Option<Ref>
  {
    FirstOf(rows, RowRef)
  }

  /**
   * The reference found is that of the row at the returned index, no
   * earlier row has one, and nothing is found only when no row has one.
   */
  lemma FirstRowWithRefIsFirst(rows: seq<Row>) returns (k: nat)
    requires FirstRowWithRef(rows).Some?
    ensures k < |rows| && FirstRowWithRef(rows) == RowRef(rows[k])
    ensures forall j :: 0 <= j < k ==> RowRef(rows[j]).None?
  {
    k := FirstOfIsFirst(rows, RowRef);
  }

  lemma FirstRowWithRefNone(rows: seq<Row>)
    ensures FirstRowWithRef(rows).None? <==> forall k :: 0 <= k < |rows| ==> RowRef(rows[k]).None?
  {
    FirstOfNone(rows, RowRef);
  }

  // ------------------------------------------------------------------
  // URL shapes

  /** A shape `{base}<mid>{ref}<tail>`. */
  datatype Shape = Shape(mid: string, tail: string)

  /** `URL_PATTERNS`, in the order they are tried. */
  const UrlPatterns: seq<Shape> := [
    Shape("/products/", ""),
    Shape("/product/", ""),
    Shape("/product/", "/"),
    Shape("/p/", ""),
    Shape("/products/", "/"),
    Shape("/item/", ""),
    Shape("/shop/product/", ""),
    Shape("/?p=", "")]

  /** `pattern.format(base=base, ref=ref)` */
  function Format(p: Shape, base: string, ref: string): string
  {
    base + p.mid + ref + p.tail
  }

  /** The shape written as a site pattern: `{base_url}<mid>{upc}<tail>` or with `{number}`. */
  function ConfigPattern(p: Shape, kind: string): string
  {
    "{base_url}" + p.mid + "{" + kind + "}" + p.tail
  }

  predicate BraceFree(s: string) { forall i :: 0 <= i < |s| ==> s[i] != '{' }

  /** Every shape of the list is free of braces outside its placeholders. */
  lemma ShapesBraceFree()
    ensures forall k :: 0 <= k < |UrlPatterns| ==> BraceFree(UrlPatterns[k].mid) && BraceFree(UrlPatterns[k].tail)
  {
  }

  lemma BraceFreeConcat(a: string, b: string)
    requires BraceFree(a) && BraceFree(b)
    ensures BraceFree(a + b)
  {
  }

  /** A brace-free text has no placeholder to fill. */
  lemma NoPlaceholderReplaced(s: string, pat: string, rep: string)
    requires BraceFree(s) && |pat| > 0 && pat[0] == '{'
    ensures ReplaceAll(s, pat, rep) == s
  {
    ContainsNeedsHead(s, pat);
    ReplaceAllAbsent(s, pat, rep);
  }

  /** The placeholders are pairwise different, none a prefix of another, and hold a brace only first. */
  predicate Distinct(q: string, pat: string)
  {
    |q| > 0 && |pat| > 0 && pat[0] == '{' && !StartsWith(q, pat) && !StartsWith(pat, q) && BraceFree(q[1..])
  }

  lemma PlaceholdersDistinct()
    ensures Distinct("{upc}", "{base_url}") && Distinct("{number}", "{base_url}") && Distinct("{number}", "{upc}")
  {
    assert "{base_url}"[..5] != "{upc}" by { assert "{base_url}"[1] == 'b'; }
    assert "{base_url}"[..8] != "{number}" by { assert "{base_url}"[1] == 'b'; }
    assert "{number}"[..5] != "{upc}" by { assert "{number}"[1] == 'n'; }
  }

  /** Replacing `pat` in `pre + q + tail` with brace-free ends: `q` becomes `rep` when it is `pat` and stays otherwise. */
  lemma FillOne(pre: string, q: string, tail: string, pat: string, rep: string)
    requires BraceFree(pre) && |pat| > 0 && pat[0] == '{'
    requires q == pat || Distinct(q, pat)
    ensures ReplaceAll(pre + q + tail, pat, rep) == pre + (if q == pat then rep else q) + ReplaceAll(tail, pat, rep)
  {
    assert pre + q + tail == pre + (q + tail);
    ReplaceAllSkip(pre, q + tail, pat, rep);
    if q == pat {
      ReplaceAllHead(tail, pat, rep);
    } else {
      ReplaceAllMiss(q, tail, pat, rep);
    }
  }

  /** Filling `{base_url}` at the head of a pattern whose other placeholder is `q`. */
  lemma FillBase(m: string, q: string, t: string, base: string)
    requires BraceFree(m) && BraceFree(t) && BraceFree(base) && Distinct(q, "{base_url}")
    ensures ReplaceAll("{base_url}" + (m + q + t), "{base_url}", base) == (base + m) + q + t
  {
    assert "{base_url}" + (m + q + t) == "" + "{base_url}" + (m + q + t);
    FillOne("", "{base_url}", m + q + t, "{base_url}", base);
    FillOne(m, q, t, "{base_url}", base);
    NoPlaceholderReplaced(t, "{base_url}", base);
    assert "" + base + (m + q + t) == (base + m) + q + t;
  }

  /** A placeholder `q` other than `pat` between brace-free ends is left alone. */
  lemma KeepOther(pre: string, q: string, t: string, pat: string, rep: string)
    requires BraceFree(pre) && BraceFree(t) && Distinct(q, pat)
    ensures ReplaceAll(pre + q + t, pat, rep) == pre + q + t
  {
    FillOne(pre, q, t, pat, rep);
    NoPlaceholderReplaced(t, pat, rep);
  }

  /** The placeholder `q` between brace-free ends becomes `rep`, and the result is brace-free. */
  lemma FillHere(pre: string, q: string, t: string, rep: string)
    requires BraceFree(pre) && BraceFree(t) && BraceFree(rep) && |q| > 0 && q[0] == '{'
    ensures ReplaceAll(pre + q + t, q, rep) == pre + rep + t && BraceFree(pre + rep + t)
  {
    FillOne(pre, q, t, q, rep);
    NoPlaceholderReplaced(t, q, rep);
    BraceFreeConcat(pre, rep);
    BraceFreeConcat(pre + rep, t);
  }

  /**
   * The found rule works for every product: filling the written UPC
   * pattern as the URL builders do, for any number and name slug, gives
   * the very URL that was probed.
   */
  lemma UpcRuleRebuildsUrl(p: Shape, base: string, ref: string, number: string, nameSlug: string)
    requires BraceFree(p.mid) && BraceFree(p.tail) && BraceFree(base) && BraceFree(ref)
    ensures ProbeSiteStructure.Substitute(ConfigPattern(p, "upc"), base, ref, number, nameSlug) == Format(p, base, ref)
  {
    PlaceholdersDistinct();
    assert ConfigPattern(p, "upc") == "{base_url}" + (p.mid + "{upc}" + p.tail);
    FillBase(p.mid, "{upc}", p.tail, base);
    BraceFreeConcat(base, p.mid);
    FillHere(base + p.mid, "{upc}", p.tail, ref);
    var r2 := base + p.mid + ref + p.tail;
    NoPlaceholderReplaced(r2, "{number}", number);
    NoPlaceholderReplaced(r2, "{name_slug}", nameSlug);
  }

  /** The same for a number reference, whatever the row's UPC and name slug. */
  lemma NumberRuleRebuildsUrl(p: Shape, base: string, upc: string, ref: string, nameSlug: string)
    requires BraceFree(p.mid) && BraceFree(p.tail) && BraceFree(base) && BraceFree(ref)
    ensures ProbeSiteStructure.Substitute(ConfigPattern(p, "number"), base, upc, ref, nameSlug) == Format(p, base, ref)
  {
    PlaceholdersDistinct();
    assert ConfigPattern(p, "number") == "{base_url}" + (p.mid + "{number}" + p.tail);
    FillBase(p.mid, "{number}", p.tail, base);
    BraceFreeConcat(base, p.mid);
    KeepOther(base + p.mid, "{number}", p.tail, "{upc}", upc);
    FillHere(base + p.mid, "{number}", p.tail, ref);
    NoPlaceholderReplaced(base + p.mid + ref + p.tail, "{name_slug}", nameSlug);
  }

  // ------------------------------------------------------------------
  // Recognising a product page

  /** `looks_like_product_page` */
  predicate LooksLikeProductPage(html: string)
  {
    |html| >= 2000 &&
    var low := Lower(html);
    Contains(low, "add to cart") || Contains(low, "add to bag") || Contains(low, "buy now")
    || (Contains(low, "product") && (Contains(low, "price") || Contains(low, "description")))
  }

  /** Lower-casing twice is lower-casing once. */
  lemma {:induction false} LowerIdempotent(s: string)
    ensures Lower(Lower(s)) == Lower(s) && |Lower(s)| == |s|
  {
    assert forall i :: 0 <= i < |s| ==> LowerChar(LowerChar(s[i])) == LowerChar(s[i]);
  }

  /** The test ignores letter case, and a page under 2000 characters never passes. */
  lemma LooksIgnoresCase(html: string)
    ensures LooksLikeProductPage(Lower(html)) == LooksLikeProductPage(html)
    ensures |html| < 2000 ==> !LooksLikeProductPage(html)
  {
    LowerIdempotent(html);
  }

  // ------------------------------------------------------------------
  // The pattern loop

  /** What a request gives: the status (-1 after an exception) and the body ("" then). */
  type Fetcher = string -> (int, string)

  /** A shape works when its URL answers 200 with a product page. */
  predicate Works(p: Shape, base: string, ref: string, fetch: Fetcher)
  {
    fetch(Format(p, base, ref)).0 == 200 && LooksLikeProductPage(fetch(Format(p, base, ref)).1)
  }

  /** The index of the first working shape from `k` on, if any. */
  function FirstWorking(base: string, ref: string, fetch: Fetcher, k: nat): (r: Option<nat>)
    requires k <= |UrlPatterns|
    ensures r.Some? ==> k <= r.value < |UrlPatterns| && Works(UrlPatterns[r.value], base, ref, fetch)
                        && forall j :: k <= j < r.value ==> !Works(UrlPatterns[j], base, ref, fetch)
    ensures r.None? ==> forall j :: k <= j < |UrlPatterns| ==> !Works(UrlPatterns[j], base, ref, fetch)
    decreases |UrlPatterns| - k
  {
    if k == |UrlPatterns| then None
    else if Works(UrlPatterns[k], base, ref, fetch) then Some(k)
    else FirstWorking(base, ref, fetch, k + 1)
  }

  /** The loop over `URL_PATTERNS`, leaving at the first shape that works. */
  method FindPattern(base: string, ref: Ref, fetch: Fetcher) returns (found: Option<string>)
    ensures FirstWorking(base, ref.value, fetch, 0).None? ==> found.None?
    ensures FirstWorking(base, ref.value, fetch, 0).Some? ==>
              found == Some(ConfigPattern(UrlPatterns[FirstWorking(base, ref.value, fetch, 0).value], ref.kind))
  {
    var k := 0;
    while k < |UrlPatterns|
      invariant 0 <= k <= |UrlPatterns|
      invariant FirstWorking(base, ref.value, fetch, 0) == FirstWorking(base, ref.value, fetch, k)
      decreases |UrlPatterns| - k
    {
      var (code, body) := fetch(Format(UrlPatterns[k], base, ref.value));
      if code == 200 && LooksLikeProductPage(body) {
        return Some(ConfigPattern(UrlPatterns[k], ref.kind));
      }
      k := k + 1;
    }
    found := None;
  }

  // ------------------------------------------------------------------
  // Sites

  /** One entry of `results`: the site, its found pattern, and the reference kind or the reason. */
  datatype Probe = Probe(siteId: string, pattern: Option<string>, status: string)

  /**
   * One site: "no_sheet", "no_ref", "no_base" or "no_match" without a
   * pattern; otherwise the pattern of the first working shape, with the
   * reference kind as status.
   */
  function ProbeSite(siteId: string, cfg: SiteConfig, sheet: Option<seq<Row>>, fetch: Fetcher): (r: Probe)
    ensures r.siteId == siteId
    ensures r.pattern.Some? <==> r.status in {"upc", "number"}
    ensures r.pattern.Some? ==> sheet.Some? && FirstRowWithRef(sheet.value).Some?
    ensures r.pattern.Some? && sheet.Some? && FirstRowWithRef(sheet.value).Some? ==>
              var ref := FirstRowWithRef(sheet.value).value;
              var w := FirstWorking(RStripCh(cfg.baseUrl, '/'), ref.value, fetch, 0);
              w.Some? && r.pattern == Some(ConfigPattern(UrlPatterns[w.value], ref.kind)) && r.status == ref.kind
  {
    if sheet.None? then Probe(siteId, None, "no_sheet")
    else
      match FirstRowWithRef(sheet.value)
      case None => Probe(siteId, None, "no_ref")
      case Some(ref) =>
        var base := RStripCh(cfg.baseUrl, '/');
        if base == "" then Probe(siteId, None, "no_base")
        else
          match FirstWorking(base, ref.value, fetch, 0)
          case None => Probe(siteId, None, "no_match")
          case Some(k) =>
            assert ref.kind in {"upc", "number"} by {
              var j := FirstRowWithRefIsFirst(sheet.value);
            }
            Probe(siteId, Some(ConfigPattern(UrlPatterns[k], ref.kind)), ref.kind)
  }

  /**
   * `--update-config`: every site with a found pattern gets it as its
   * `url_pattern` and loses its product URL column; others are untouched.
   */
  function UpdateConfig(config: map<string, SiteConfig>, results: seq<Probe>): (c: map<string, SiteConfig>)
    ensures c.Keys == config.Keys
    decreases |results|
  {
    if results == [] then config
    else
      var r := results[0];
      var next := if r.pattern.Some? && r.siteId in config
                  then config[r.siteId := config[r.siteId].(urlPattern := r.pattern.value, productUrlColumn := "")]
                  else config;
      UpdateConfig(next, results[1..])
  }

  /** The site ids of the results. */
  function Ids(results: seq<Probe>): set<string>
  {
    set k | 0 <= k < |results| :: results[k].siteId
  }

  /**
   * With one result per site, each site with a found pattern ends up
   * using it, and every other site keeps its settings.
   */
  lemma {:induction false} UpdateConfigApplies(config: map<string, SiteConfig>, results: seq<Probe>, k: nat)
    requires k < |results| && results[k].siteId in config && results[k].pattern.Some?
    requires forall i, j :: 0 <= i < j < |results| ==> results[i].siteId != results[j].siteId
    ensures UpdateConfig(config, results)[results[k].siteId]
            == config[results[k].siteId].(urlPattern := results[k].pattern.value, productUrlColumn := "")
    decreases |results|
  {
    var r := results[0];
    var next := if r.pattern.Some? && r.siteId in config
                then config[r.siteId := config[r.siteId].(urlPattern := r.pattern.value, productUrlColumn := "")]
                else config;
    if k == 0 {
      KeptUnlessProbed(next, results[1..], r.siteId);
    } else {
      assert results[1..][k - 1] == results[k];
      assert next[results[k].siteId] == config[results[k].siteId];
      UpdateConfigApplies(next, results[1..], k - 1);
    }
  }

  /** A site that no result names is left unchanged. */
  lemma {:induction false} KeptUnlessProbed(config: map<string, SiteConfig>, results: seq<Probe>, id: string)
    requires id in config
    requires forall j :: 0 <= j < |results| ==> results[j].siteId != id
    ensures UpdateConfig(config, results)[id] == config[id]
    decreases |results|
  {
    if results != [] {
      var r := results[0];
      var next := if r.pattern.Some? && r.siteId in config
                  then config[r.siteId := config[r.siteId].(urlPattern := r.pattern.value, productUrlColumn := "")]
                  else config;
      assert forall j :: 0 <= j < |results[1..]| ==> results[1..][j] == results[j + 1];
      KeptUnlessProbed(next, results[1..], id);
    }
  }
}
