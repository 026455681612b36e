/**
 * Fetching product pages through a browser, for sites that need
 * JavaScript or show a captcha to plain requests: the rows with a URL
 * are collected first, then each page is visited and saved unless it
 * looks like a block page.
 */
module FetchPagesPlaywright {
  import opened Wrappers
  import opened Text
  import opened Sheet
  import opened Sites
  import AnalyzeSite
  import ProbeSiteStructure
  import GetAllProductData
  import DU = DiscoverUrls
  import FetchPages

  /** A row to visit: its file id and its URL. */
  datatype Target = Target(safeId: string, url: string)

  /** The target of row `i`, when it has a URL. */
  function TargetOf(row: Row, i: nat, cfg: SiteConfig): Option<Target>
  {
    match DU.GetRowUrl(row, cfg)
    case None => None
    case Some(url) => Some(Target(FetchPages.SafeId(DU.RowUpc(row, cfg), DU.RowNumber(row, cfg), i), url))
  }

  /**
   * The values `f` gives the rows from index `start` on, where it gives
   * any, in order.
   */
  function Collect(rows: seq<Row>, start: nat, f: (Row, nat) -> Option<Target>): seq<Target>
    decreases |rows|
  {
    if rows == [] then []
    else
      var rest := Collect(rows[1..], start + 1, f);
      if f(rows[0], start).Some? then [f(rows[0], start).value] + rest else rest
  }

  /** Each collected value is the value of some row, found at its index. */
  lemma {:induction false} CollectedFromRow(rows: seq<Row>, start: nat, f: (Row, nat) -> Option<Target>, k: nat) returns (j: nat)
    requires k < |Collect(rows, start, f)|
    ensures j < |rows| && f(rows[j], start + j) == Some(Collect(rows, start, f)[k])
    decreases |rows|
  {
    var rest := Collect(rows[1..], start + 1, f);
    if f(rows[0], start).Some? && k == 0 {
      j := 0;
    } else {
      var k' := if f(rows[0], start).Some? then k - 1 else k;
      var j' := CollectedFromRow(rows[1..], start + 1, f, k');
      assert rows[1..][j'] == rows[j' + 1];
      j := j' + 1;
    }
  }

  /** Collecting two consecutive stretches of rows gives the values of each, in order. */
  lemma {:induction false} CollectSplit(rows: seq<Row>, start: nat, f: (Row, nat) -> Option<Target>, m: nat)
    requires m <= |rows|
    ensures Collect(rows, start, f) == Collect(rows[..m], start, f) + Collect(rows[m..], start + m, f)
    decreases m
  {
    if m == 0 {
      assert rows[..0] == [] && rows[0..] == rows;
    } else {
      assert rows[..m][0] == rows[0];
      assert rows[..m][1..] == rows[1..][..m - 1];
      assert rows[m..] == rows[1..][m - 1..];
      CollectSplit(rows[1..], start + 1, f, m - 1);
    }
  }

  /** The targets of all rows from index `start` on, in sheet order. */
  function Targets(rows: seq<Row>, start: nat, cfg: SiteConfig): seq<Target>
  {
    Collect(rows, start, (row: Row, i: nat) => TargetOf(row, i, cfg))
  }

  /**
   * The targets are exactly the rows with a URL, in sheet order: each one
   * is the URL of such a row under that row's file id, and every stretch
   * of the sheet contributes its own targets in place.
   */
  lemma TargetsAreRows(rows: seq<Row>, start: nat, cfg: SiteConfig, k: nat) returns (j: nat)
    requires k < |Targets(rows, start, cfg)|
    ensures j < |rows| && DU.GetRowUrl(rows[j], cfg).Some?
    ensures Targets(rows, start, cfg)[k]
            == Target(FetchPages.SafeId(DU.RowUpc(rows[j], cfg), DU.RowNumber(rows[j], cfg), start + j), DU.GetRowUrl(rows[j], cfg).value)
  {
    j := CollectedFromRow(rows, start, (row: Row, i: nat) => TargetOf(row, i, cfg), k);
  }

  /** A row without a URL contributes nothing, a row with one exactly its target. */
  lemma OneRowTargets(row: Row, i: nat, cfg: SiteConfig)
    ensures DU.GetRowUrl(row, cfg).None? ==> Targets([row], i, cfg) == []
    ensures DU.GetRowUrl(row, cfg).Some? ==>
              Targets([row], i, cfg) == [Target(FetchPages.SafeId(DU.RowUpc(row, cfg), DU.RowNumber(row, cfg), i), DU.GetRowUrl(row, cfg).value)]
  {
    var f := (r: Row, n: nat) => TargetOf(r, n, cfg);
    assert [row][1..] == [];
    assert Collect([row][1..], i + 1, f) == [];
    assert f(row, i) == TargetOf(row, i, cfg);
  }

  /** Splitting the sheet splits its targets. */
  lemma TargetsSplit(rows: seq<Row>, start: nat, cfg: SiteConfig, m: nat)
    requires m <= |rows|
    ensures Targets(rows, start, cfg) == Targets(rows[..m], start, cfg) + Targets(rows[m..], start + m, cfg)
  {
    CollectSplit(rows, start, (row: Row, i: nat) => TargetOf(row, i, cfg), m);
  }

  /**
   * `rows_with_url`: the targets in sheet order, cut at the limit (a
   * non-zero limit stops as soon as that many are collected, so a
   * negative one keeps a single target).
   */
  method RowsWithUrl(rows: seq<Row>, cfg: SiteConfig, limit: int) returns (ts: seq<Target>)
    ensures ts == Take(Targets(rows, 0, cfg), GetAllProductData.ItemCount(|Targets(rows, 0, cfg)|, limit))
  {
    ts := [];
    var i := 0;
    while i < |rows|
      invariant 0 <= i <= |rows|
      invariant Targets(rows, 0, cfg) == ts + Targets(rows[i..], i, cfg)
      invariant limit != 0 ==> (limit > 0 ==> |ts| < limit) && (limit < 0 ==> ts == [])
      decreases |rows| - i
    {
      assert rows[i..][1..] == rows[i + 1..];
      var t := TargetOf(rows[i], i, cfg);
      ghost var before := ts;
      if t.Some? {
        ts := ts + [t.value];
        assert Targets(rows, 0, cfg) == ts + Targets(rows[i + 1..], i + 1, cfg) by {
          assert Targets(rows[i..], i, cfg) == [t.value] + Targets(rows[i + 1..], i + 1, cfg);
        }
        if limit != 0 && |ts| >= limit {
          return;
        }
      } else {
        assert Targets(rows[i..], i, cfg) == Targets(rows[i + 1..], i + 1, cfg);
      }
      i := i + 1;
    }
    assert rows[|rows|..] == [];
  }

  /** The page is not saved when it is empty or shows a captcha, a 403 or "Forbidden" near its start. */
  predicate Refused(html: string)
  {
    html == "" || Contains(Take(html, 2000), "sgcaptcha") || Contains(Take(html, 500), "403")
    || Contains(Take(html, 2000), "Forbidden")
  }

  /** Every page refused here would also be called blocked by probe_site_structure. */
  lemma RefusedIsReportBlocked(p: AnalyzeSite.Page)
    requires Refused(p.html)
    ensures ProbeSiteStructure.ReportBlocked(p)
  {
    if p.html != "" && |p.html| >= 200 && Contains(Take(p.html, 500), "403") {
      ContainsMono(p.html, "403", 500, 1000);
    }
  }

  /** The state of the visiting loop: pages counted, file names on disk, and the pages saved by this run. */
  datatype Visit = Visit(count: nat, files: set<string>, saved: map<string, string>)

  /**
   * One target: an existing file is counted unless overwritten; a
   * navigation error (`None`) and a refused page are passed over; any
   * other page is saved and counted.
   */
  function VisitStep(v: Visit, t: Target, browse: string -> Option<string>, overwrite: bool): Visit
  {
    var fname := t.safeId + ".html";
    if fname in v.files && !overwrite then v.(count := v.count + 1)
    else
      match browse(t.url)
      case None => v
      case Some(html) =>
        if Refused(html) then v
        else Visit(v.count + 1, v.files + {fname}, v.saved[fname := html])
  }

  /** The visiting loop over `ts`. */
  function VisitAll(ts: seq<Target>, v: Visit, browse: string -> Option<string>, overwrite: bool): Visit
    decreases |ts|
  {
    if ts == [] then v else VisitAll(ts[1..], VisitStep(v, ts[0], browse, overwrite), browse, overwrite)
  }

  /** Every page saved is one that was not refused. */
  predicate SavedAreClean(v: Visit)
  {
    forall f :: f in v.saved ==> !Refused(v.saved[f])
  }

  /**
   * The loop counts at most one page per target, only adds files, and
   * keeps every saved page a non-refused one.
   */
  lemma {:induction false} VisitAllKeeps(ts: seq<Target>, v: Visit, browse: string -> Option<string>, overwrite: bool)
    requires SavedAreClean(v)
    ensures var r := VisitAll(ts, v, browse, overwrite);
            SavedAreClean(r) && v.count <= r.count <= v.count + |ts| && v.files <= r.files
    decreases |ts|
  {
    if ts != [] {
      VisitAllKeeps(ts[1..], VisitStep(v, ts[0], browse, overwrite), browse, overwrite);
    }
  }

  /** Without overwrite, a target whose file exists is never visited: the browser's answer does not matter. */
  lemma ExistingNotVisited(v: Visit, t: Target, b1: string -> Option<string>, b2: string -> Option<string>)
    requires t.safeId + ".html" in v.files
    ensures VisitStep(v, t, b1, false) == VisitStep(v, t, b2, false) == v.(count := v.count + 1)
  {
  }

  /** The visiting loop of `main`. */
  method VisitTargets(ts: seq<Target>, files: set<string>, browse: string -> Option<string>, overwrite: bool)
    returns (v: Visit)
    ensures v == VisitAll(ts, Visit(0, files, map[]), browse, overwrite)
  {
    v := Visit(0, files, map[]);
    var i := 0;
    while i < |ts|
      invariant 0 <= i <= |ts|
      invariant VisitAll(ts[i..], v, browse, overwrite) == VisitAll(ts, Visit(0, files, map[]), browse, overwrite)
      decreases |ts| - i
    {
      assert ts[i..][1..] == ts[i + 1..];
      var fname := ts[i].safeId + ".html";
      if fname in v.files && !overwrite {
        v := v.(count := v.count + 1);
      } else {
        var html := browse(ts[i].url);
        if html.Some? && !Refused(html.value) {
          v := Visit(v.count + 1, v.files + {fname}, v.saved[fname := html.value]);
        }
      }
      i := i + 1;
    }
    assert ts[0..] == ts;
  }

  /** The exit code: 1 for an unknown site, a missing sheet or no row with a URL, else 0. */
  function ExitCode(known: bool, sheetExists: bool, ts: seq<Target>): (code: int)
    ensures code == 0 <==> known && sheetExists && ts != []
    ensures code == 0 || code == 1
  {
    if !known || !sheetExists || ts == [] then 1 else 0
  }
}
