/**
 * A smoke test of the fetch configuration: one sample URL per site is
 * requested, a good page is kept as the site's test sample, and the run
 * fails when any site fails.
 */
module TestFetchOnePerSite {
  import opened Wrappers
  import opened Text
  import opened Sheet
  import opened Sites
  import DU = DiscoverUrls

  /** The chosen URL and the row's name cut at 50 characters. */
  datatype Sample = Sample(url: string, name: string)

  /** The name recorded with a sample. */
  function SampleName(row: Row, cfg: SiteConfig): string
  {
    Take(DU.RowName(row, cfg), 50)
  }

  /** A row whose product URL column holds a non-blank value. */
  function ColumnSample(row: Row, cfg: SiteConfig): Option<Sample>
  {
    if cfg.productUrlColumn != "" && Strip(Cell(row, cfg.productUrlColumn)) != "" then
      Some(Sample(Strip(Cell(row, cfg.productUrlColumn)), SampleName(row, cfg)))
    else None
  }

  /** A row whose URL can be built. */
  function BuiltSample(row: Row, cfg: SiteConfig): Option<Sample>
  {
    match DU.GetRowUrl(row, cfg)
    case None => None
    case Some(u) => Some(Sample(u, SampleName(row, cfg)))
  }

  /**
   * The sample of a site: the first row with a product URL column value;
   * when no row has one, the first row whose URL can be built.
   */
  function SampleOf(rows: seq<Row>, cfg: SiteConfig): Option<Sample>
  {
    var col := FirstOf(rows, (row: Row) => ColumnSample(row, cfg));
    if col.Some? then col else FirstOf(rows, (row: Row) => BuiltSample(row, cfg))
  }

  /**
   * The row loop of `main`: it leaves at the first column value and
   * remembers the first buildable URL on the way.
   */
  method ChooseSample(rows: seq<Row>, cfg: SiteConfig) returns (sample: Option<Sample>)
    ensures sample == SampleOf(rows, cfg)
  {
    ghost var colOf := (row: Row) => ColumnSample(row, cfg);
    ghost var builtOf := (row: Row) => BuiltSample(row, cfg);
    var fallback: Option<Sample> := None;
    var i := 0;
    while i < |rows|
      invariant 0 <= i <= |rows|
      invariant FirstOf(rows, colOf) == FirstOf(rows[i..], colOf)
      invariant fallback.None? ==> FirstOf(rows, builtOf) == FirstOf(rows[i..], builtOf)
      invariant fallback.Some? ==> FirstOf(rows, builtOf) == fallback
      decreases |rows| - i
    {
      assert rows[i..][1..] == rows[i + 1..];
      var c := ColumnSample(rows[i], cfg);
      if c.Some? {
        assert colOf(rows[i]) == c;
        return c;
      }
      assert colOf(rows[i]).None?;
      if fallback.None? {
        var u := DU.GetRowUrl(rows[i], cfg);
        if u.Some? {
          fallback := Some(Sample(u.value, SampleName(rows[i], cfg)));
        }
        assert builtOf(rows[i]) == fallback;
      }
      i := i + 1;
    }
    sample := fallback;
  }

  /** A column value anywhere in the sheet wins over any earlier buildable URL. */
  lemma ColumnWins(rows: seq<Row>, cfg: SiteConfig, k: nat)
    requires k < |rows| && ColumnSample(rows[k], cfg).Some?
    ensures SampleOf(rows, cfg).Some?
    ensures SampleOf(rows, cfg) == FirstOf(rows, (row: Row) => ColumnSample(row, cfg))
  {
    FirstOfNone(rows, (row: Row) => ColumnSample(row, cfg));
  }

  // ------------------------------------------------------------------
  // One site

  /** `str(n)` of an integer. */
  function IntStr(n: int): (s: string)
    ensures s != ""
  {
    if n < 0 then "-" + NatText(-n) else NatText(n)
  }

  /** One line of the results file. */
  datatype SiteResult = SiteResult(siteId: string, url: Option<string>, status: string, size: nat, detail: string)

  /** A configured site: its id, its settings and its sheet, absent when the file is missing. */
  datatype SiteInput = SiteInput(siteId: string, cfg: SiteConfig, sheet: Option<seq<Row>>)

  /**
   * The result of one fetch: "ok" with the body size for status 200 and
   * a non-empty body; "fail" "404" for status 404; any other answer a
   * fail with the short error text or the status code.
   */
  function Classify(siteId: string, url: string, code: int, body: string): (r: SiteResult)
    ensures r.status == "ok" <==> code == 200 && body != ""
    ensures r.status == "ok" ==> r.size == |body|
    ensures r.status != "ok" ==> r.status == "fail" && r.size == 0
    ensures code == 404 ==> r.status == "fail" && r.detail == "404"
    ensures |r.detail| <= 80 && r.url == Some(url)
  {
    if code == 200 && body != "" then SiteResult(siteId, Some(url), "ok", |body|, IntStr(code))
    else if code == 404 then SiteResult(siteId, Some(url), "fail", 0, "404")
    else
      var err := if |body| < 100 then body else "code=" + IntStr(code);
      SiteResult(siteId, Some(url), "fail", 0, Take(err, 80))
  }

  /** A site: skipped without a sheet or a sample, otherwise its sample fetched and classified. */
  function SiteResultOf(site: SiteInput, fetch: string -> (int, string)): (r: SiteResult)
    ensures r.siteId == site.siteId
    ensures r.status in {"ok", "fail", "skip"}
    ensures r.status == "skip" <==> site.sheet.None? || SampleOf(site.sheet.value, site.cfg).None?
    ensures r.status != "skip" ==> r.url == Some(SampleOf(site.sheet.value, site.cfg).value.url)
  {
    if site.sheet.None? then SiteResult(site.siteId, None, "skip", 0, "no_sheet")
    else
      match SampleOf(site.sheet.value, site.cfg)
      case None => SiteResult(site.siteId, None, "skip", 0, "no_url")
      case Some(s) =>
        var (code, body) := fetch(s.url);
        Classify(site.siteId, s.url, code, body)
  }

  /** The number of results with the given status. */
  function CountStatus(results: seq<SiteResult>, status: string): (n: nat)
    ensures n <= |results|
  {
    if results == [] then 0
    else (if results[0].status == status then 1 else 0) + CountStatus(results[1..], status)
  }

  /** When every status is ok, fail or skip, the three counts add up to the number of sites. */
  lemma {:induction false} CountsAddUp(results: seq<SiteResult>)
    requires forall k :: 0 <= k < |results| ==> results[k].status in {"ok", "fail", "skip"}
    ensures CountStatus(results, "ok") + CountStatus(results, "fail") + CountStatus(results, "skip") == |results|
  {
    if results != [] {
      assert forall k :: 0 <= k < |results[1..]| ==> results[1..][k] == results[k + 1];
      CountsAddUp(results[1..]);
    }
  }

  /** The fail count is zero exactly when no result failed. */
  lemma {:induction false} NoFailCount(results: seq<SiteResult>)
    ensures CountStatus(results, "fail") == 0 <==> forall k :: 0 <= k < |results| ==> results[k].status != "fail"
  {
    if results != [] {
      NoFailCount(results[1..]);
      assert forall k :: 1 <= k < |results| ==> results[k] == results[1..][k - 1];
    }
  }

  /**
   * `main` over the configured sites: one result per site, in order, and
   * the exit code 0 exactly when no site failed; skipped sites do not
   * make the run fail.
   */
  method RunSites(sites: seq<SiteInput>, fetch: string -> (int, string)) returns (results: seq<SiteResult>, code: int)
    ensures |results| == |sites|
    ensures forall k :: 0 <= k < |sites| ==> results[k] == SiteResultOf(sites[k], fetch)
    ensures CountStatus(results, "ok") + CountStatus(results, "fail") + CountStatus(results, "skip") == |sites|
    ensures code == 0 <==> forall k :: 0 <= k < |sites| ==> results[k].status != "fail"
    ensures code == 0 || code == 1
  {
    results := [];
    var i := 0;
    while i < |sites|
      invariant 0 <= i <= |sites| && |results| == i
      invariant forall k :: 0 <= k < i ==> results[k] == SiteResultOf(sites[k], fetch)
      decreases |sites| - i
    {
      var site := sites[i];
      var r: SiteResult;
      if site.sheet.None? {
        r := SiteResult(site.siteId, None, "skip", 0, "no_sheet");
      } else {
        var sample := ChooseSample(site.sheet.value, site.cfg);
        if sample.None? {
          r := SiteResult(site.siteId, None, "skip", 0, "no_url");
        } else {
          var (status, body) := fetch(sample.value.url);
          r := Classify(site.siteId, sample.value.url, status, body);
        }
      }
      ghost var before := results;
      results := results + [r];
      assert forall k :: 0 <= k < i ==> results[k] == before[k];
      i := i + 1;
    }
    CountsAddUp(results);
    NoFailCount(results);
    code := if CountStatus(results, "fail") == 0 then 0 else 1;
  }
}
