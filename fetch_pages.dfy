/**
 * Fetching the product page of every sheet row to disk: the URL is
 * built as in discover_urls, each page is requested with a bounded
 * retry policy, and a site directory records which pages exist and
 * whether a fetch is in progress.
 */
module FetchPages {
  import opened Wrappers
  import opened Text
  import opened Sheet
  import opened Sites
  import DU = DiscoverUrls

  // ------------------------------------------------------------------
  // The retry policy of `fetch_html`

  /** What one request attempt ends with. */
  datatype Outcome =
    | Reply(status: int, text: string)
    | Timeout
    | ConnectionError
    | OtherError

  /** `raise_for_status` raises for the statuses 400 to 599; anything else is a success. */
  predicate Succeeds(o: Outcome) { o.Reply? && !(400 <= o.status < 600) }

  /** A timeout, a connection error and a 5xx status lead to another attempt. */
  predicate Retryable(o: Outcome)
  {
    o.Timeout? || o.ConnectionError? || (o.Reply? && 500 <= o.status < 600)
  }

  /** A 4xx status and any other exception end the attempts at once. */
  predicate Stops(o: Outcome)
  {
    o.OtherError? || (o.Reply? && 400 <= o.status < 500)
  }

  /** Every outcome is exactly one of success, retry and stop. */
  lemma OutcomeClasses(o: Outcome)
    ensures Succeeds(o) || Retryable(o) || Stops(o)
    ensures !(Succeeds(o) && Retryable(o)) && !(Succeeds(o) && Stops(o)) && !(Retryable(o) && Stops(o))
  {
  }

  /** The page text, if any, and the number of requests made. */
  datatype Fetched = Fetched(text: Option<string>, attempts: nat)

  /** `range(1 + retries)`: a negative retry count leaves no attempt at all. */
  function AttemptLimit(retries: int): nat
  {
    if 1 + retries < 0 then 0 else 1 + retries
  }

  /**
   * The attempts from `k` on, where `net(k)` is what the k-th request
   * ends with. At most the limit is ever requested.
   */
  function FetchFrom(net: nat -> Outcome, n: nat, k: nat): (r: Fetched)
    requires k <= n
    ensures k <= r.attempts <= n
    ensures r.text.Some? ==> r.attempts >= 1 && Succeeds(net(r.attempts - 1))
    decreases n - k
  {
    if k == n then Fetched(None, k)
    else if Succeeds(net(k)) then Fetched(Some(net(k).text), k + 1)
    else if Stops(net(k)) then Fetched(None, k + 1)
    else FetchFrom(net, n, k + 1)
  }

  /** `fetch_html` */
  function Fetch(net: nat -> Outcome, retries: int): (r: Fetched)
    ensures r.attempts <= AttemptLimit(retries)
  {
    FetchFrom(net, AttemptLimit(retries), 0)
  }

  /** The attempt loop, leaving at the first success or stop. */
  method FetchHtml(net: nat -> Outcome, retries: int) returns (text: Option<string>)
    ensures text == Fetch(net, retries).text
  {
    var n := AttemptLimit(retries);
    var attempt := 0;
    while attempt < n
      invariant 0 <= attempt <= n
      invariant FetchFrom(net, n, attempt) == Fetch(net, retries)
      decreases n - attempt
    {
      var o := net(attempt);
      if Succeeds(o) {
        return Some(o.text);
      }
      if Stops(o) {
        break;
      }
      attempt := attempt + 1;
    }
    text := None;
  }

  /**
   * A text is returned only from a successful attempt within the limit,
   * every earlier attempt having been retryable; the k-th is returned.
   */
  lemma {:induction false} FetchedIsFirstSuccess(net: nat -> Outcome, n: nat, k: nat) returns (j: nat)
    requires k <= n && FetchFrom(net, n, k).text.Some?
    ensures k <= j < n && Succeeds(net(j)) && FetchFrom(net, n, k).text == Some(net(j).text)
    ensures forall i :: k <= i < j ==> Retryable(net(i))
    decreases n - k
  {
    if Succeeds(net(k)) {
      j := k;
    } else {
      OutcomeClasses(net(k));
      j := FetchedIsFirstSuccess(net, n, k + 1);
    }
  }

  /** Conversely a success after only retryable failures is returned, after exactly that many requests. */
  lemma {:induction false} SuccessIsFetched(net: nat -> Outcome, n: nat, k: nat, j: nat)
    requires k <= j < n && Succeeds(net(j))
    requires forall i :: k <= i < j ==> Retryable(net(i))
    ensures FetchFrom(net, n, k) == Fetched(Some(net(j).text), j + 1)
    decreases j - k
  {
    if k < j {
      OutcomeClasses(net(k));
      SuccessIsFetched(net, n, k + 1, j);
    }
  }

  /** A 4xx or an unexpected error ends the attempts with no text, whatever later attempts would give. */
  lemma {:induction false} StopIsFinal(net: nat -> Outcome, n: nat, k: nat, j: nat)
    requires k <= j < n && Stops(net(j))
    requires forall i :: k <= i < j ==> Retryable(net(i))
    ensures FetchFrom(net, n, k) == Fetched(None, j + 1)
    decreases j - k
  {
    OutcomeClasses(net(j));
    if k < j {
      OutcomeClasses(net(k));
      StopIsFinal(net, n, k + 1, j);
    }
  }

  /** When every attempt is retryable, all 1 + retries requests are made and nothing is returned. */
  lemma {:induction false} RetriesExhausted(net: nat -> Outcome, n: nat, k: nat)
    requires k <= n
    requires forall i :: k <= i < n ==> Retryable(net(i))
    ensures FetchFrom(net, n, k) == Fetched(None, n)
    decreases n - k
  {
    if k < n {
      OutcomeClasses(net(k));
      RetriesExhausted(net, n, k + 1);
    }
  }

  // ------------------------------------------------------------------
  // File names

  /** `re.sub(r"[^\w.-]", "_", c)` on one character. */
  function SafeChar(c: char): (d: char)
    ensures IsWordChar(d) || d == '.' || d == '-'
    ensures (IsWordChar(c) || c == '.' || c == '-') ==> d == c
  {
    if IsWordChar(c) || c == '.' || c == '-' then c else '_'
  }

  /** The file id: the UPC, else the number, sanitised, else `row{i}`. */
  function SafeId(upc: string, number: string, i: nat): (id: string)
    ensures forall k :: 0 <= k < |id| ==> IsWordChar(id[k]) || id[k] == '.' || id[k] == '-'
    ensures upc != "" ==> |id| == |upc| && forall k :: 0 <= k < |id| ==> id[k] == SafeChar(upc[k])
    ensures upc == "" && number != "" ==> |id| == |number| && forall k :: 0 <= k < |id| ==> id[k] == SafeChar(number[k])
    ensures upc == "" && number == "" ==> id == "row" + NatText(i)
    ensures id != ""
  {
    if upc != "" then MapChars(upc, SafeChar)
    else if number != "" then MapChars(number, SafeChar)
    else
      var digits := NatText(i);
      var id := "row" + digits;
      assert forall k :: 0 <= k < |id| ==> IsWordChar(id[k]) by {
        forall k | 0 <= k < |id| ensures IsWordChar(id[k]) {
          if k >= 3 {
            assert id[k] == digits[k - 3];
            assert IsDigit(digits[k - 3]);
          }
        }
      }
      id
  }

  /** An id made only of `[\w.-]` is kept as it is. */
  lemma SafeIdKeepsCleanIds(upc: string, number: string, i: nat)
    requires upc != ""
    requires forall k :: 0 <= k < |upc| ==> IsWordChar(upc[k]) || upc[k] == '.' || upc[k] == '-'
    ensures SafeId(upc, number, i) == upc
  {
  }

  /** The page file of a row. */
  function FileName(row: Row, cfg: SiteConfig, i: nat): string
  {
    SafeId(DU.RowUpc(row, cfg), DU.RowNumber(row, cfg), i) + ".html"
  }

  const LockName: string := ".fetch_in_progress"
  const TestSample: string := "_test_sample.html"

  /** No page file is ever the lock file. */
  lemma FileNameIsNotLock(row: Row, cfg: SiteConfig, i: nat)
    ensures FileName(row, cfg, i) != LockName
  {
    var f := FileName(row, cfg, i);
    assert f[|f| - 1] == 'l';
    assert LockName[|LockName| - 1] == 's';
  }

  // ------------------------------------------------------------------
  // Whether a site is run

  /** `Path.suffix == ".html"`: a name that is only ".html" has no suffix. */
  predicate HtmlFile(name: string)
  {
    |name| > 5 && EndsWith(name, ".html")
  }

  /** The pages already on disk, the test sample not counted. */
  function HaveCount(dir: set<string>): nat
  {
    |set name | name in dir && HtmlFile(name) && name != TestSample|
  }

  /** The rows that have a URL. */
  function NeedCount(rows: seq<Row>, cfg: SiteConfig): (n: nat)
    ensures n <= |rows|
  {
    if rows == [] then 0
    else (if DU.GetRowUrl(rows[0], cfg).Some? then 1 else 0) + NeedCount(rows[1..], cfg)
  }

  datatype SiteAction = NoSheet | NoUrlSource | InProgress | Complete | Run

  /** How a run treats the site before any row is fetched. */
  datatype Options = Options(dryRun: bool, skipComplete: bool, overwrite: bool, retries: int)

  /**
   * The checks of `main` in order: a missing sheet, a site with neither
   * a URL column nor a pattern, an existing lock (outside a dry run),
   * and, when asked, a site whose pages are all present.
   */
  function SiteActionOf(sheetExists: bool, cfg: SiteConfig, dir: set<string>, rows: seq<Row>, opts: Options): (a: SiteAction)
    ensures a == Complete <==> (sheetExists && (cfg.productUrlColumn != "" || cfg.urlPattern != "")
                                && (opts.dryRun || LockName !in dir) && opts.skipComplete && !opts.dryRun
                                && NeedCount(rows, cfg) > 0 && HaveCount(dir) >= NeedCount(rows, cfg))
    ensures a == InProgress ==> !opts.dryRun && LockName in dir
    ensures a == Run ==> sheetExists && (opts.dryRun || LockName !in dir)
  {
    if !sheetExists then NoSheet
    else if cfg.productUrlColumn == "" && cfg.urlPattern == "" then NoUrlSource
    else if !opts.dryRun && LockName in dir then InProgress
    else if opts.skipComplete && !opts.dryRun && NeedCount(rows, cfg) > 0 && HaveCount(dir) >= NeedCount(rows, cfg) then Complete
    else Run
  }

  /** A site with no buildable URL is never skipped as complete, however many pages are on disk. */
  lemma NothingNeededIsNeverComplete(sheetExists: bool, cfg: SiteConfig, dir: set<string>, rows: seq<Row>, opts: Options)
    requires NeedCount(rows, cfg) == 0
    ensures SiteActionOf(sheetExists, cfg, dir, rows, opts) != Complete
  {
  }

  // ------------------------------------------------------------------
  // The row loop

  /** The counters of the row loop and the files of the site directory. */
  datatype Tally = Tally(count: nat, skipped: nat, files: set<string>)

  /**
   * One row: no URL is a skip; a dry run counts the row; an existing file
   * is counted unless overwritten; otherwise the page is fetched and, on
   * success, saved and counted.
   */
  function RowStep(t: Tally, row: Row, i: nat, cfg: SiteConfig, net: string -> nat -> Outcome, opts: Options): Tally
  {
    match DU.GetRowUrl(row, cfg)
    case None => t.(skipped := t.skipped + 1)
    case Some(url) =>
      var fname := FileName(row, cfg, i);
      if opts.dryRun then t.(count := t.count + 1)
      else if fname in t.files && !opts.overwrite then t.(count := t.count + 1)
      else
        match Fetch(net(url), opts.retries).text
        case None => t
        case Some(_) => t.(count := t.count + 1, files := t.files + {fname})
  }

  /** The loop over the rows from index `start` on. */
  function RunRows(rows: seq<Row>, start: nat, t: Tally, cfg: SiteConfig, net: string -> nat -> Outcome, opts: Options): Tally
    decreases |rows|
  {
    if rows == [] then t
    else RunRows(rows[1..], start + 1, RowStep(t, rows[0], start, cfg, net, opts), cfg, net, opts)
  }

  /** The rows without a URL. */
  function NoUrlCount(rows: seq<Row>, cfg: SiteConfig): (n: nat)
    ensures n + NeedCount(rows, cfg) == |rows|
  {
    if rows == [] then 0
    else (if DU.GetRowUrl(rows[0], cfg).None? then 1 else 0) + NoUrlCount(rows[1..], cfg)
  }

  /**
   * Every row without a URL is skipped and no other is; at most the rows
   * with a URL are counted; files are only ever added, and a dry run
   * counts every row with a URL and writes nothing.
   */
  lemma {:induction false} RunRowsCounts(rows: seq<Row>, start: nat, t: Tally, cfg: SiteConfig, net: string -> nat -> Outcome, opts: Options)
    ensures var r := RunRows(rows, start, t, cfg, net, opts);
            r.skipped == t.skipped + NoUrlCount(rows, cfg)
            && r.count <= t.count + NeedCount(rows, cfg)
            && t.files <= r.files
            && (opts.dryRun ==> r.count == t.count + NeedCount(rows, cfg) && r.files == t.files)
    decreases |rows|
  {
    if rows != [] {
      var t1 := RowStep(t, rows[0], start, cfg, net, opts);
      RowStepCounts(t, rows[0], start, cfg, net, opts);
      RunRowsCounts(rows[1..], start + 1, t1, cfg, net, opts);
      assert RunRows(rows, start, t, cfg, net, opts) == RunRows(rows[1..], start + 1, t1, cfg, net, opts);
      assert NoUrlCount(rows, cfg) == (if DU.GetRowUrl(rows[0], cfg).None? then 1 else 0) + NoUrlCount(rows[1..], cfg);
      assert NeedCount(rows, cfg) == (if DU.GetRowUrl(rows[0], cfg).Some? then 1 else 0) + NeedCount(rows[1..], cfg);
    }
  }

  /** One row: a skip exactly without a URL, at most one count, and only with a URL; files only grow. */
  lemma RowStepCounts(t: Tally, row: Row, i: nat, cfg: SiteConfig, net: string -> nat -> Outcome, opts: Options)
    ensures var r := RowStep(t, row, i, cfg, net, opts);
            var has := if DU.GetRowUrl(row, cfg).Some? then 1 else 0;
            r.skipped == t.skipped + 1 - has
            && r.count <= t.count + has
            && t.files <= r.files
            && (opts.dryRun ==> r.count == t.count + has && r.files == t.files)
  {
  }

  /** A row whose file exists, without overwrite, is counted without any request. */
  lemma ExistingNotRefetched(t: Tally, row: Row, i: nat, cfg: SiteConfig, net1: string -> nat -> Outcome,
                             net2: string -> nat -> Outcome, opts: Options)
    requires DU.GetRowUrl(row, cfg).Some? && FileName(row, cfg, i) in t.files && !opts.overwrite
    ensures RowStep(t, row, i, cfg, net1, opts) == RowStep(t, row, i, cfg, net2, opts)
    ensures RowStep(t, row, i, cfg, net1, opts) == t.(count := t.count + 1)
  {
  }

  /** One row adds at most its own page file, and only when it has a URL. */
  lemma RowStepFiles(t: Tally, row: Row, i: nat, cfg: SiteConfig, net: string -> nat -> Outcome, opts: Options)
    ensures t.files <= RowStep(t, row, i, cfg, net, opts).files
    ensures forall f :: f in RowStep(t, row, i, cfg, net, opts).files && f !in t.files ==>
                          DU.GetRowUrl(row, cfg).Some? && f == FileName(row, cfg, i)
  {
  }

  /** The values `pick` gives the items, item `k` counted as `start + k`. */
  ghost function Picked<T>(xs: seq<T>, start: nat, pick: (T, nat) -> Option<string>): set<string>
  {
    set k | 0 <= k < |xs| && pick(xs[k], start + k).Some? :: pick(xs[k], start + k).value
  }

  /** The items after the first, counted from `start + 1`, pick nothing the items do not. */
  lemma PickedTail<T>(xs: seq<T>, start: nat, pick: (T, nat) -> Option<string>)
    requires xs != []
    ensures Picked(xs[1..], start + 1, pick) <= Picked(xs, start, pick)
  {
    forall x | x in Picked(xs[1..], start + 1, pick) ensures x in Picked(xs, start, pick) {
      var k :| 0 <= k < |xs[1..]| && pick(xs[1..][k], start + 1 + k).Some? && x == pick(xs[1..][k], start + 1 + k).value;
      assert xs[1..][k] == xs[k + 1];
      assert pick(xs[k + 1], start + (k + 1)).Some? && x == pick(xs[k + 1], start + (k + 1)).value;
    }
  }

  /** A picked value comes from some item. */
  lemma PickedIndex<T>(xs: seq<T>, start: nat, pick: (T, nat) -> Option<string>, x: string) returns (k: nat)
    requires x in Picked(xs, start, pick)
    ensures k < |xs| && pick(xs[k], start + k).Some? && x == pick(xs[k], start + k).value
  {
    k :| 0 <= k < |xs| && pick(xs[k], start + k).Some? && x == pick(xs[k], start + k).value;
  }

  /** The page file of a row with a URL, row `i` of the sheet. */
  ghost function PageOf(cfg: SiteConfig): (Row, nat) -> Option<string>
  {
    (row: Row, i: nat) => if DU.GetRowUrl(row, cfg).Some? then Some(FileName(row, cfg, i)) else None
  }

  /** A row with a page file has a URL, and the file is its page file. */
  lemma PageOfSome(cfg: SiteConfig, row: Row, i: nat)
    requires PageOf(cfg)(row, i).Some?
    ensures DU.GetRowUrl(row, cfg).Some? && PageOf(cfg)(row, i).value == FileName(row, cfg, i)
  {
  }

  /** The page files of the rows with a URL, row `k` counted as `start + k`. */
  ghost function RowFiles(rows: seq<Row>, start: nat, cfg: SiteConfig): set<string>
  {
    Picked(rows, start, PageOf(cfg))
  }

  /** The loop adds nothing but page files of rows with a URL. */
  lemma {:induction false} RunRowsFiles(rows: seq<Row>, start: nat, t: Tally, cfg: SiteConfig, net: string -> nat -> Outcome, opts: Options)
    ensures RunRows(rows, start, t, cfg, net, opts).files <= t.files + RowFiles(rows, start, cfg)
    decreases |rows|
  {
    if rows != [] {
      var t1 := RowStep(t, rows[0], start, cfg, net, opts);
      RowStepFiles(t, rows[0], start, cfg, net, opts);
      RunRowsFiles(rows[1..], start + 1, t1, cfg, net, opts);
      PickedTail(rows, start, PageOf(cfg));
      assert DU.GetRowUrl(rows[0], cfg).Some? ==> PageOf(cfg)(rows[0], start + 0) == Some(FileName(rows[0], cfg, start));
      assert RunRows(rows, start, t, cfg, net, opts) == RunRows(rows[1..], start + 1, t1, cfg, net, opts);
    }
  }

  /** Every page file of the rows is that of some row with a URL. */
  lemma RowFilesIndex(rows: seq<Row>, start: nat, cfg: SiteConfig, f: string) returns (k: nat)
    requires f in RowFiles(rows, start, cfg)
    ensures k < |rows| && DU.GetRowUrl(rows[k], cfg).Some? && f == FileName(rows[k], cfg, start + k)
  {
    k := PickedIndex(rows, start, PageOf(cfg), f);
    PageOfSome(cfg, rows[k], start + k);
  }

  /** The per-row loop of `main`. */
  method FetchRows(rows: seq<Row>, cfg: SiteConfig, net: string -> nat -> Outcome, opts: Options, files: set<string>)
    returns (t: Tally)
    ensures t == RunRows(rows, 0, Tally(0, 0, files), cfg, net, opts)
  {
    t := Tally(0, 0, files);
    var i := 0;
    while i < |rows|
      invariant 0 <= i <= |rows|
      invariant RunRows(rows[i..], i, t, cfg, net, opts) == RunRows(rows, 0, Tally(0, 0, files), cfg, net, opts)
      decreases |rows| - i
    {
      assert rows[i..][1..] == rows[i + 1..];
      var row := rows[i];
      var url := DU.GetRowUrl(row, cfg);
      if url.None? {
        t := t.(skipped := t.skipped + 1);
      } else {
        var fname := FileName(row, cfg, i);
        if opts.dryRun || (fname in t.files && !opts.overwrite) {
          t := t.(count := t.count + 1);
        } else {
          var html := FetchHtml(net(url.value), opts.retries);
          if html.Some? {
            t := t.(count := t.count + 1, files := t.files + {fname});
          }
        }
      }
      i := i + 1;
    }
    assert rows[0..] == rows;
  }

  /**
   * One site: the skip checks, then, outside a dry run, the lock is
   * written, the rows are fetched and the lock is removed again.
   */
  method FetchSite(sheetExists: bool, cfg: SiteConfig, dir: set<string>, rows: seq<Row>,
                   net: string -> nat -> Outcome, opts: Options)
    returns (action: SiteAction, newDir: set<string>, count: nat, skipped: nat)
    ensures action == SiteActionOf(sheetExists, cfg, dir, rows, opts)
    ensures action != Run ==> newDir == dir && count == 0 && skipped == 0
    ensures action == Run && opts.dryRun ==> newDir == dir
    ensures action == Run && !opts.dryRun ==> LockName !in newDir
    ensures action == Run ==>
              var r := RunRows(rows, 0, Tally(0, 0, if opts.dryRun then dir else dir + {LockName}), cfg, net, opts);
              count == r.count && skipped == r.skipped && newDir == (if opts.dryRun then r.files else r.files - {LockName})
  {
    action := SiteActionOf(sheetExists, cfg, dir, rows, opts);
    if action != Run {
      return action, dir, 0, 0;
    }
    var files := dir;
    if !opts.dryRun {
      files := files + {LockName};
    }
    var t := FetchRows(rows, cfg, net, opts, files);
    RunRowsCounts(rows, 0, Tally(0, 0, files), cfg, net, opts);
    newDir := t.files;
    if !opts.dryRun {
      newDir := newDir - {LockName};
    }
    count, skipped := t.count, t.skipped;
  }
}
