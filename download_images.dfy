/**
 * The image downloader: the main image of every extracted row goes to
 * `<site>/<product id><extension>`, files already present are skipped
 * unless overwriting, and the exit code says whether any download failed.
 */
module DownloadImages {
  import opened Wrappers
  import opened Text
  import opened Sheet

  // ------------------------------------------------------------------
  // File names

  /** The characters `[<>:"/\\|?*]` a file name may not hold. */
  predicate IsReserved(c: char) { c in "<>:\"/\\|?*" }

  function Unreserve(c: char): char
  {
    if IsReserved(c) then '_' else c
  }

  /** A character the sanitised id may hold: neither reserved nor whitespace. */
  predicate IsSafe(c: char) { !IsReserved(c) && !IsSpace(c) }

  /**
   * `sanitize_product_id`: "unknown" for an empty id; else stripped,
   * reserved characters and whitespace runs made "_", cut at 200, and
   * "unknown" if nothing is left.
   */
  function SanitizeProductId(id: string): string
  {
    if id == "" then "unknown"
    else
      var s := CollapseRuns(MapChars(Strip(id), Unreserve), IsSpace, '_');
      if s != "" then Take(s, 200) else "unknown"
  }

  /** Collapsing the whitespace runs of an unreserved id leaves only safe characters. */
  lemma CollapsedIsSafe(t: string)
    ensures All(CollapseRuns(MapChars(t, Unreserve), IsSpace, '_'), IsSafe)
  {
    var m := MapChars(t, Unreserve);
    assert forall i :: 0 <= i < |m| ==> m[i] == Unreserve(t[i]) && !IsReserved(m[i]);
    assert IsSafe('_');
    CollapseRunsReplaces(m, IsSpace, '_', IsSafe);
  }

  /** A prefix of safe characters is safe. */
  lemma TakeSafe(s: string, n: nat)
    requires All(s, IsSafe)
    ensures All(Take(s, n), IsSafe)
  {
  }

  /** A sanitised id is a non-empty name of at most 200 safe characters: no path separator can reach the file system. */
  lemma SanitizeSpec(id: string)
    ensures var r := SanitizeProductId(id);
            r != "" && |r| <= 200 && All(r, IsSafe) && '/' !in r && '\\' !in r
    ensures Strip(id) == "" ==> SanitizeProductId(id) == "unknown"
  {
    var r := SanitizeProductId(id);
    if id != "" {
      var s := CollapseRuns(MapChars(Strip(id), Unreserve), IsSpace, '_');
      CollapsedIsSafe(Strip(id));
      TakeSafe(s, 200);
      if Strip(id) == "" {
        assert MapChars(Strip(id), Unreserve) == "";
      }
    }
    assert All(r, IsSafe) by {
      if r == "unknown" {
        assert forall i :: 0 <= i < |r| ==> IsLowerAlpha(r[i]);
      }
    }
    assert !IsSafe('/') && !IsSafe('\\');
  }

  /** An id of at most 200 safe characters is its own file name. */
  lemma SanitizeIdle(id: string)
    requires id != "" && |id| <= 200 && All(id, IsSafe)
    ensures SanitizeProductId(id) == id
  {
    assert !IsSpace(id[0]) && !IsSpace(id[|id| - 1]);
    StripOfNoEdge(id);
    var m := MapChars(id, Unreserve);
    assert forall i :: 0 <= i < |id| ==> m[i] == id[i];
    assert m == id;
    assert forall i :: 0 <= i < |id| ==> !IsSpace(id[i]);
    CollapseRunsIdle(id, IsSpace, '_');
    assert Take(id, 200) == id;
  }

  /** The extensions tried, in order. */
  const Extensions: seq<string> := [".jpg", ".jpeg", ".png", ".webp", ".gif", ".avif"]

  /** The first of the extensions `k` onwards that the lower-cased path ends with, ".jpeg" read as ".jpg". */
  function FirstExtension(lower: string, k: nat): string
    decreases |Extensions| - k
  {
    if k >= |Extensions| then ".jpg"
    else if EndsWith(lower, Extensions[k]) then (if Extensions[k] == ".jpeg" then ".jpg" else Extensions[k])
    else FirstExtension(lower, k + 1)
  }

  /** The URL without its query and fragment. */
  function UrlFilePath(url: string): string
  {
    Before(Before(url, '?'), '#')
  }

  /** `extension_from_url` */
  function ExtensionFromUrl(url: string): string
  {
    var path := UrlFilePath(url);
    if path == "" then ".jpg" else FirstExtension(Lower(path), 0)
  }

  /** Two endings of one string: the shorter ends the longer. */
  lemma SuffixesNest(s: string, e: string, f: string)
    requires EndsWith(s, e) && EndsWith(s, f) && |e| <= |f|
    ensures EndsWith(f, e)
  {
    assert f[|f| - |e|..] == s[|s| - |e|..];
  }

  /** No string ends with two of the extensions: their last three characters all differ. */
  lemma ExclusiveEndings(s: string)
    ensures forall i, j :: 0 <= i < |Extensions| && 0 <= j < |Extensions| && i != j && EndsWith(s, Extensions[i]) ==> !EndsWith(s, Extensions[j])
  {
    var tails := ExtensionTails();
    forall i, j | 0 <= i < |Extensions| && 0 <= j < |Extensions| && i != j && EndsWith(s, Extensions[i])
      ensures !EndsWith(s, Extensions[j])
    {
      SameTail(s, Extensions[i], Extensions[j], 3);
    }
  }

  /** Two endings of one string end alike. */
  lemma SameTail(s: string, e: string, f: string, n: nat)
    requires EndsWith(s, e) && n <= |e| && n <= |f|
    ensures EndsWith(s, f) ==> e[|e| - n..] == f[|f| - n..]
  {
    TailOfEnding(s, e, n);
    if EndsWith(s, f) {
      TailOfEnding(s, f, n);
    }
  }

  /** The extensions' last three characters, which are all different. */
  lemma ExtensionTails() returns (tails: seq<string>)
    ensures |tails| == |Extensions|
    ensures forall i :: 0 <= i < |Extensions| ==> |Extensions[i]| >= 3 && Extensions[i][|Extensions[i]| - 3..] == tails[i]
    ensures forall i, j :: 0 <= i < |tails| && 0 <= j < |tails| && i != j ==> tails[i] != tails[j]
  {
    tails := ["jpg", "peg", "png", "ebp", "gif", "vif"];
    assert ".jpg"[1..] == "jpg" && ".jpeg"[2..] == "peg" && ".png"[1..] == "png";
    assert ".webp"[2..] == "ebp" && ".gif"[1..] == "gif" && ".avif"[2..] == "vif";
  }

  /** A string that ends with `e` ends with `e`'s last `n` characters. */
  lemma TailOfEnding(s: string, e: string, n: nat)
    requires EndsWith(s, e) && n <= |e|
    ensures s[|s| - n..] == e[|e| - n..]
  {
    assert s[|s| - n..] == s[|s| - |e|..][|e| - n..];
  }

  /**
   * The extension is one of five; each but ".jpg" is chosen exactly when
   * the path, lower-cased, ends with it; ".jpg" otherwise (for ".jpg",
   * ".jpeg", any other ending and an empty path).
   */
  lemma ExtensionSpec(url: string)
    ensures ExtensionFromUrl(url) in {".jpg", ".png", ".webp", ".gif", ".avif"}
    ensures var lower := Lower(UrlFilePath(url));
            forall e :: e in {".png", ".webp", ".gif", ".avif"} ==>
              (ExtensionFromUrl(url) == e <==> EndsWith(lower, e))
  {
    var path := UrlFilePath(url);
    var lower := Lower(path);
    ExclusiveEndings(lower);
    assert Extensions[2] == ".png" && Extensions[3] == ".webp" && Extensions[4] == ".gif" && Extensions[5] == ".avif";
    if path == "" {
      assert lower == "";
    }
  }

  /** A query or a fragment after the path does not change the extension. */
  lemma ExtensionIgnoresQuery(path: string, sep: char, rest: string)
    requires '?' !in path && '#' !in path && (sep == '?' || sep == '#')
    ensures ExtensionFromUrl(path + [sep] + rest) == ExtensionFromUrl(path)
  {
    BeforeAbsent(path, '?');
    BeforeAbsent(path, '#');
    if sep == '?' {
      BeforeOfJoin(path, '?', rest);
    } else {
      var tail := Before(rest, '?');
      assert path + [sep] + rest == path + ([sep] + rest);
      BeforeAppend(path, [sep] + rest, '?');
      assert Before([sep] + rest, '?') == [sep] + tail;
      assert path + ([sep] + tail) == path + [sep] + tail;
      BeforeOfJoin(path, '#', tail);
    }
  }

  // ------------------------------------------------------------------
  // The rows of one site

  predicate Processable(r: Row)
  {
    Strip(Cell(r, "product_id")) != "" && Strip(Cell(r, "image_url")) != ""
  }

  /** `xs[:k]` for any integer `k`: a negative `k` drops the last `-k`. */
  function SliceTo<T>(xs: seq<T>, k: int): (r: seq<T>)
    ensures |r| <= |xs| && r == xs[..|r|]
    ensures k >= 0 ==> |r| == if k < |xs| then k else |xs|
    ensures k < 0 ==> |r| == if |xs| + k > 0 then |xs| + k else 0
  {
    if k >= 0 then Take(xs, k) else if |xs| + k > 0 then xs[..|xs| + k] else []
  }

  /** `to_process`: the rows with a product id and an image URL, cut at a non-zero limit. */
  function ToProcess(rows: seq<Row>, limit: int): seq<Row>
  {
    var all := Select(rows, Processable);
    if limit != 0 then SliceTo(all, limit) else all
  }

  /**
   * The rows processed are rows of the sheet with both cells filled, the
   * first of them in order; every such row without a limit, and the first
   * `limit` of them with a positive one.
   */
  lemma ToProcessSpec(rows: seq<Row>, limit: int)
    ensures var all := Select(rows, Processable);
            var r := ToProcess(rows, limit);
            r == all[..|r|] && (forall x :: x in r ==> x in rows && Processable(x))
            && (limit == 0 ==> r == all) && (limit > 0 ==> |r| == if limit < |all| then limit else |all|)
  {
    var all := Select(rows, Processable);
    var r := ToProcess(rows, limit);
    assert forall x :: x in r ==> x in all;
  }

  /** What one row asks for: its image URL and the file it goes to, the sanitised id and the URL's extension. */
  datatype Job = Job(url: string, name: string)

  function JobOf(r: Row): Job
  {
    var url := Strip(Cell(r, "image_url"));
    Job(url, SanitizeProductId(Strip(Cell(r, "product_id"))) + ExtensionFromUrl(url))
  }

  /** The jobs of a sequence of rows, in order. */
  function Jobs(rows: seq<Row>): (js: seq<Job>)
    ensures |js| == |rows| && forall i :: 0 <= i < |rows| ==> js[i] == JobOf(rows[i])
  {
    seq(|rows|, i requires 0 <= i < |rows| => JobOf(rows[i]))
  }

  /** The file name of a row's job is a sanitised id followed by one of the extensions. */
  lemma JobNameSpec(r: Row)
    ensures exists id, e :: JobOf(r).name == id + e && id != "" && |id| <= 200 && All(id, IsSafe)
                            && e in {".jpg", ".png", ".webp", ".gif", ".avif"}
  {
    var id := SanitizeProductId(Strip(Cell(r, "product_id")));
    var e := ExtensionFromUrl(Strip(Cell(r, "image_url")));
    SanitizeSpec(Strip(Cell(r, "product_id")));
    ExtensionSpec(Strip(Cell(r, "image_url")));
    assert JobOf(r).name == id + e;
  }

  /** The counters of `main`. */
  datatype Totals = Totals(ok: nat, skip: nat, fail: nat)

  function Add(a: Totals, b: Totals): Totals
  {
    Totals(a.ok + b.ok, a.skip + b.skip, a.fail + b.fail)
  }

  /** The counters and the folder's files as the rows go by. */
  datatype Progress = Progress(totals: Totals, files: set<string>)

  /**
   * One row: skipped when its file is there and overwriting is off; else
   * downloaded, after which the file is there, or failed. `download`
   * stands for the request and the write of the file.
   */
  function Step(st: Progress, j: Job, overwrite: bool, download: (string, string) -> bool): Progress
  {
    var t := st.totals;
    if j.name in st.files && !overwrite then Progress(t.(skip := t.skip + 1), st.files)
    else if download(j.url, j.name) then Progress(t.(ok := t.ok + 1), st.files + {j.name})
    else Progress(t.(fail := t.fail + 1), st.files)
  }

  /** One row adds one to exactly one counter, skips only without overwriting, keeps every file, and fails or leaves its file. */
  lemma StepSpec(st: Progress, j: Job, overwrite: bool, download: (string, string) -> bool)
    ensures var n := Step(st, j, overwrite, download);
            n.totals.ok + n.totals.skip + n.totals.fail == st.totals.ok + st.totals.skip + st.totals.fail + 1
            && (overwrite ==> n.totals.skip == st.totals.skip)
            && st.files <= n.files && st.totals.fail <= n.totals.fail
            && (n.totals.fail == st.totals.fail ==> j.name in n.files)
  {
  }

  /** The jobs of a site in turn, from no counts and the folder's files. */
  function Downloads(jobs: seq<Job>, overwrite: bool, dir: set<string>, download: (string, string) -> bool): Progress
    decreases |jobs|
  {
    if jobs == [] then Progress(Totals(0, 0, 0), dir)
    else Step(Downloads(jobs[..|jobs| - 1], overwrite, dir, download), jobs[|jobs| - 1], overwrite, download)
  }

  /** Every row is counted once, as a download, a skip or a failure; with overwriting nothing is skipped. */
  lemma {:induction false} DownloadsCounts(jobs: seq<Job>, overwrite: bool, dir: set<string>, download: (string, string) -> bool)
    ensures Downloads(jobs, overwrite, dir, download).totals.ok + Downloads(jobs, overwrite, dir, download).totals.skip
            + Downloads(jobs, overwrite, dir, download).totals.fail == |jobs|
    ensures overwrite ==> Downloads(jobs, overwrite, dir, download).totals.skip == 0
    decreases |jobs|
  {
    if jobs != [] {
      var n := |jobs| - 1;
      DownloadsCounts(jobs[..n], overwrite, dir, download);
      StepSpec(Downloads(jobs[..n], overwrite, dir, download), jobs[n], overwrite, download);
    }
  }

  /** Files are only added, and without a failure every row's file is in the folder afterwards. */
  lemma {:induction false} DownloadsFiles(jobs: seq<Job>, overwrite: bool, dir: set<string>, download: (string, string) -> bool)
    ensures dir <= Downloads(jobs, overwrite, dir, download).files
    ensures Downloads(jobs, overwrite, dir, download).totals.fail == 0 ==>
              forall i :: 0 <= i < |jobs| ==> jobs[i].name in Downloads(jobs, overwrite, dir, download).files
    decreases |jobs|
  {
    if jobs != [] {
      var n := |jobs| - 1;
      var p := jobs[..n];
      DownloadsFiles(p, overwrite, dir, download);
      var st := Downloads(p, overwrite, dir, download);
      StepSpec(st, jobs[n], overwrite, download);
      var last := Downloads(jobs, overwrite, dir, download);
      assert last == Step(st, jobs[n], overwrite, download);
      if last.totals.fail == 0 {
        forall i | 0 <= i < |jobs|
          ensures jobs[i].name in last.files
        {
          if i < n {
            assert p[i] == jobs[i];
          }
        }
      }
    }
  }

  /** A skip is no failure: jobs whose files are all there are all skipped without overwriting. */
  lemma {:induction false} AllPresentSkipped(jobs: seq<Job>, dir: set<string>, download: (string, string) -> bool)
    requires forall i :: 0 <= i < |jobs| ==> jobs[i].name in dir
    ensures Downloads(jobs, false, dir, download) == Progress(Totals(0, |jobs|, 0), dir)
    decreases |jobs|
  {
    if jobs != [] {
      var n := |jobs| - 1;
      assert forall i :: 0 <= i < n ==> jobs[..n][i] == jobs[i];
      AllPresentSkipped(jobs[..n], dir, download);
    }
  }

  /** One more job is one more step. */
  lemma DownloadsSnoc(jobs: seq<Job>, i: nat, overwrite: bool, dir: set<string>, download: (string, string) -> bool)
    requires i < |jobs|
    ensures Downloads(jobs[..i + 1], overwrite, dir, download) == Step(Downloads(jobs[..i], overwrite, dir, download), jobs[i], overwrite, download)
  {
    assert jobs[..i + 1][..i] == jobs[..i];
  }

  /** The body of the row loop: the skip test, then the download. */
  method DownloadRow(row: Row, overwrite: bool, t: Totals, files: set<string>, download: (string, string) -> bool)
    returns (t': Totals, files': set<string>)
    ensures Progress(t', files') == Step(Progress(t, files), JobOf(row), overwrite, download)
  {
    var url := Strip(Cell(row, "image_url"));
    var name := SanitizeProductId(Strip(Cell(row, "product_id"))) + ExtensionFromUrl(url);
    t', files' := t, files;
    if name in files && !overwrite {
      t' := t.(skip := t.skip + 1);
    } else if download(url, name) {
      t' := t.(ok := t.ok + 1);
      files' := files + {name};
    } else {
      t' := t.(fail := t.fail + 1);
    }
  }

  /** The loop of `main` over one site's rows. */
  method DownloadSite(rows: seq<Row>, limit: int, overwrite: bool, dir: set<string>, download: (string, string) -> bool)
    returns (t: Totals, after: set<string>)
    ensures Progress(t, after) == Downloads(Jobs(ToProcess(rows, limit)), overwrite, dir, download)
  {
    var todo := ToProcess(rows, limit);
    ghost var jobs := Jobs(todo);
    t, after := Totals(0, 0, 0), dir;
    var i := 0;
    while i < |todo|
      invariant 0 <= i <= |todo|
      invariant Progress(t, after) == Downloads(jobs[..i], overwrite, dir, download)
      decreases |todo| - i
    {
      DownloadsSnoc(jobs, i, overwrite, dir, download);
      t, after := DownloadRow(todo[i], overwrite, t, after, download);
      i := i + 1;
    }
    assert jobs[..|todo|] == jobs;
  }

  // ------------------------------------------------------------------
  // All sites

  /** A site is downloaded only when its CSV has both columns. */
  predicate HasColumns(t: Table)
  {
    "product_id" in t.fields && "image_url" in t.fields
  }

  /** What one site adds to the counters. */
  function SiteTotals(t: Table, limit: int, overwrite: bool, dir: set<string>, download: (string, string) -> bool): Totals
  {
    if HasColumns(t) then Downloads(Jobs(ToProcess(t.rows, limit)), overwrite, dir, download).totals else Totals(0, 0, 0)
  }

  /** The counters after the sites `sites`, each site with its own folder. */
  function AllTotals(sites: seq<(string, Table)>, limit: int, overwrite: bool, dirs: string -> set<string>, download: (string, string) -> bool): Totals
    decreases |sites|
  {
    if sites == [] then Totals(0, 0, 0)
    else Add(AllTotals(sites[..|sites| - 1], limit, overwrite, dirs, download),
             SiteTotals(sites[|sites| - 1].1, limit, overwrite, dirs(sites[|sites| - 1].0), download))
  }

  /** Every processed row of a site with both columns has its file in the site's folder afterwards. */
  predicate SiteSaved(site: (string, Table), limit: int, overwrite: bool, dirs: string -> set<string>, download: (string, string) -> bool)
  {
    var jobs := Jobs(ToProcess(site.1.rows, limit));
    HasColumns(site.1) ==>
      forall i :: 0 <= i < |jobs| ==> jobs[i].name in Downloads(jobs, overwrite, dirs(site.0), download).files
  }

  /** A site without a failure has all its files. */
  lemma SiteSavedOf(site: (string, Table), limit: int, overwrite: bool, dirs: string -> set<string>, download: (string, string) -> bool)
    requires SiteTotals(site.1, limit, overwrite, dirs(site.0), download).fail == 0
    ensures SiteSaved(site, limit, overwrite, dirs, download)
  {
    if HasColumns(site.1) {
      DownloadsFiles(Jobs(ToProcess(site.1.rows, limit)), overwrite, dirs(site.0), download);
    }
  }

  /** No failure over some sites is no failure over all but the last, nor at the last. */
  lemma NoFailureSplit(sites: seq<(string, Table)>, limit: int, overwrite: bool,
                       dirs: string -> set<string>, download: (string, string) -> bool)
    requires sites != [] && AllTotals(sites, limit, overwrite, dirs, download).fail == 0
    ensures AllTotals(sites[..|sites| - 1], limit, overwrite, dirs, download).fail == 0
    ensures SiteTotals(sites[|sites| - 1].1, limit, overwrite, dirs(sites[|sites| - 1].0), download).fail == 0
  {
  }

  /** A run without a failure has no failure at site `k`. */
  lemma {:induction false} NoFailureAt(sites: seq<(string, Table)>, limit: int, overwrite: bool,
                                       dirs: string -> set<string>, download: (string, string) -> bool, k: nat)
    requires k < |sites| && AllTotals(sites, limit, overwrite, dirs, download).fail == 0
    ensures SiteTotals(sites[k].1, limit, overwrite, dirs(sites[k].0), download).fail == 0
    decreases |sites|
  {
    var n := |sites| - 1;
    NoFailureSplit(sites, limit, overwrite, dirs, download);
    if k < n {
      var p := sites[..n];
      assert p[k] == sites[k];
      NoFailureAt(p, limit, overwrite, dirs, download, k);
    } else {
      assert k == |sites| - 1;
    }
  }

  /** A run without a failure has no failure at any site, so (by `SiteSavedOf`) every site has all its files. */
  lemma NoFailureAnySite(sites: seq<(string, Table)>, limit: int, overwrite: bool,
                         dirs: string -> set<string>, download: (string, string) -> bool)
    requires AllTotals(sites, limit, overwrite, dirs, download).fail == 0
    ensures forall k :: 0 <= k < |sites| ==> SiteTotals(sites[k].1, limit, overwrite, dirs(sites[k].0), download).fail == 0
  {
    forall k | 0 <= k < |sites|
      ensures SiteTotals(sites[k].1, limit, overwrite, dirs(sites[k].0), download).fail == 0
    {
      NoFailureAt(sites, limit, overwrite, dirs, download, k);
    }
  }

  /** The site of a stem among the extracted files. */
  function FindSite(files: seq<(string, Table)>, stem: string): (r: Option<(string, Table)>)
    ensures r.Some? ==> r.value in files && r.value.0 == stem
    ensures r.None? ==> forall f :: f in files ==> f.0 != stem
    decreases |files|
  {
    if files == [] then None else if files[0].0 == stem then Some(files[0]) else FindSite(files[1..], stem)
  }

  /**
   * The sites `main` visits: the named one, else every extracted file but
   * "all_extracted"; an empty `--site` is false in Python and names none.
   */
  function SiteList(files: seq<(string, Table)>, site: Option<string>): Option<seq<(string, Table)>>
  {
    if site.Some? && site.value != "" then
      var f := FindSite(files, Strip(site.value));
      if f.Some? then Some([f.value]) else None
    else Some(Select(files, (f: (string, Table)) => f.0 != "all_extracted"))
  }

  /** One site: its rows downloaded when its CSV has both columns, else nothing. */
  method DownloadTable(table: Table, limit: int, overwrite: bool, dir: set<string>, download: (string, string) -> bool)
    returns (t: Totals)
    ensures t == SiteTotals(table, limit, overwrite, dir, download)
  {
    t := Totals(0, 0, 0);
    if HasColumns(table) {
      var after;
      t, after := DownloadSite(table.rows, limit, overwrite, dir, download);
    }
  }

  /** The loop of `main` over the sites, each downloaded into its own folder when it has both columns. */
  method DownloadAll(sites: seq<(string, Table)>, limit: int, overwrite: bool,
                     dirs: string -> set<string>, download: (string, string) -> bool)
    returns (totals: Totals)
    ensures totals == AllTotals(sites, limit, overwrite, dirs, download)
  {
    totals := Totals(0, 0, 0);
    var i := 0;
    while i < |sites|
      invariant 0 <= i <= |sites|
      invariant totals == AllTotals(sites[..i], limit, overwrite, dirs, download)
      decreases |sites| - i
    {
      var t := DownloadTable(sites[i].1, limit, overwrite, dirs(sites[i].0), download);
      assert sites[..i + 1][..i] == sites[..i];
      totals := Add(totals, t);
      i := i + 1;
    }
    assert sites[..|sites|] == sites;
  }

  /**
   * `main`: `hasDir` says whether the extracted folder exists and `files`
   * lists its CSVs as (stem, contents) in the order the loop visits them.
   * The exit code is 0 exactly when the folder and the named site exist
   * and no download failed.
   */
  method Run(hasDir: bool, files: seq<(string, Table)>, site: Option<string>, limit: int, overwrite: bool,
            dirs: string -> set<string>, download: (string, string) -> bool)
    returns (code: int, totals: Totals)
    ensures code == 0 <==> hasDir && SiteList(files, site).Some? && totals.fail == 0
    ensures hasDir && SiteList(files, site).Some? ==> totals == AllTotals(SiteList(files, site).value, limit, overwrite, dirs, download)
  {
    totals := Totals(0, 0, 0);
    if !hasDir {
      return 1, totals;
    }
    var list := SiteList(files, site);
    if list.None? {
      return 1, totals;
    }
    totals := DownloadAll(list.value, limit, overwrite, dirs, download);
    code := if totals.fail == 0 then 0 else 1;
  }
}
