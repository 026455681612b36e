/**
 * What the browser catalog scrapers (Steiff, Cazenove, Gigo, ThinkFun)
 * share: product links gathered from category pages, without their query
 * strings, deduplicated and visited in sorted order; a catalog item for
 * each visited page that yields an accepted title; and each sheet row with
 * a UPC given the first catalog item whose title its name matches.
 */
module BrowserCatalog {
  import opened Wrappers
  import opened Text
  import opened Matching
  import opened Sheet
  import Order
  import ScraperLib

  // ------------------------------------------------------------------
  // The sheet

  /** `rows[:n]` for `--limit n`, Python's slice for a negative `n`; all rows without the flag. */
  function Limited(rows: seq<Row>, limit: Option<int>): (r: seq<Row>)
    ensures |r| <= |rows| && r == rows[..|r|]
    ensures limit.None? ==> r == rows
    ensures limit.Some? && 0 <= limit.value ==> |r| == if limit.value < |rows| then limit.value else |rows|
    ensures limit.Some? && limit.value < 0 ==> |r| == if |rows| + limit.value > 0 then |rows| + limit.value else 0
  {
    match limit
    case None => rows
    case Some(n) =>
      if n >= 0 then (if n < |rows| then rows[..n] else rows)
      else if |rows| + n > 0 then rows[..|rows| + n]
      else []
  }

  // ------------------------------------------------------------------
  // Names

  /**
   * The word test of `name_match`: with at most two significant words all
   * must be found; with more, at least `num/den` of them.
   */
  predicate WordsEnough(sig: set<string>, other: set<string>, num: nat, den: nat)
  {
    if |sig| <= 2 then |sig * other| >= |sig| else den * |sig * other| >= num * |sig|
  }

  /** An overlap as large as the set is the whole set. */
  lemma OverlapAll(sig: set<string>, other: set<string>)
    ensures |sig * other| >= |sig| <==> sig <= other
  {
    var ov := sig * other;
    assert sig == ov + (sig - ov);
    if sig <= other {
      assert ov == sig;
    }
  }

  /**
   * With at most two significant words the test asks for all of them;
   * having all of them always passes (for a fraction up to 1); no words at
   * all always pass; otherwise passing needs a word in common.
   */
  lemma {:induction false} WordsEnoughSpec(sig: set<string>, other: set<string>, num: nat, den: nat)
    requires 0 < num <= den
    ensures |sig| <= 2 ==> (WordsEnough(sig, other, num, den) <==> sig <= other)
    ensures sig <= other ==> WordsEnough(sig, other, num, den)
    ensures sig == {} ==> WordsEnough(sig, other, num, den)
    ensures sig != {} && WordsEnough(sig, other, num, den) ==> sig * other != {}
  {
    OverlapAll(sig, other);
    if sig <= other {
      assert sig * other == sig;
      assert den * |sig| >= num * |sig| by {
        MulLe(num, den, |sig|);
      }
    }
  }

  lemma MulLe(a: nat, b: nat, c: nat)
    requires a <= b
    ensures a * c <= b * c
  {
  }

  /** The sheet name's words that count: filler dropped unless nothing else is left. */
  function SheetSig(name: string, filler: set<string>): set<string>
  {
    Significant(WordSet(NormalizeDel(name)), filler)
  }

  /** The title's words that count: always without the filler. */
  function TitleSig(title: string, filler: set<string>): set<string>
  {
    WordSet(NormalizeDel(title)) - filler
  }

  /** `name_match` of Steiff and Cazenove: equal normalised names, or enough significant words. */
  predicate EqualOrWords(name: string, title: string, filler: set<string>, num: nat, den: nat)
  {
    NormalizeDel(name) == NormalizeDel(title)
    || WordsEnough(SheetSig(name, filler), TitleSig(title, filler), num, den)
  }

  /** `name_match` of Gigo and ThinkFun: one normalised name inside the other, or enough significant words. */
  predicate ContainedOrWords(name: string, title: string, filler: set<string>, num: nat, den: nat)
  {
    Contains(NormalizeDel(title), NormalizeDel(name)) || Contains(NormalizeDel(name), NormalizeDel(title))
    || WordsEnough(SheetSig(name, filler), TitleSig(title, filler), num, den)
  }

  /**
   * Without the shortcut, a name with at most two significant words
   * matches exactly the titles holding all of them; a title holding all of
   * them always matches; a match by words shares a word.
   */
  lemma NameTestSpec(name: string, title: string, filler: set<string>, num: nat, den: nat)
    requires 0 < num <= den
    ensures var sig, tsig := SheetSig(name, filler), TitleSig(title, filler);
            && (NormalizeDel(name) != NormalizeDel(title) && |sig| <= 2 ==>
                  (EqualOrWords(name, title, filler, num, den) <==> sig <= tsig))
            && (!Contains(NormalizeDel(title), NormalizeDel(name)) && !Contains(NormalizeDel(name), NormalizeDel(title))
                && |sig| <= 2 ==>
                  (ContainedOrWords(name, title, filler, num, den) <==> sig <= tsig))
            && (sig <= tsig ==> EqualOrWords(name, title, filler, num, den) && ContainedOrWords(name, title, filler, num, den))
            && (sig != {} && WordsEnough(sig, tsig, num, den) ==> sig * tsig != {})
  {
    WordsEnoughSpec(SheetSig(name, filler), TitleSig(title, filler), num, den);
  }

  /** The empty name has no words. */
  lemma EmptyNameHasNoWords()
    ensures WordSet(NormalizeDel("")) == {}
  {
    assert Lower("") == "";
    assert Filter("", IsNormChar) == "";
    StripOfNoEdge("");
    assert Words("") == [];
  }

  /** A name without words, the empty name among them, matches every title under both tests. */
  lemma WordlessNameMatchesAll(name: string, title: string, filler: set<string>, num: nat, den: nat)
    requires WordSet(NormalizeDel(name)) == {}
    ensures EqualOrWords(name, title, filler, num, den)
    ensures ContainedOrWords(name, title, filler, num, den)
  {
    assert SheetSig(name, filler) == {};
  }

  /**
   * A name made only of filler words can match only through the shortcut:
   * the title's filler is always dropped, so no word is ever shared.
   */
  lemma FillerNameNeedsShortcut(name: string, title: string, filler: set<string>, num: nat, den: nat)
    requires 0 < num
    requires WordSet(NormalizeDel(name)) != {} && WordSet(NormalizeDel(name)) <= filler
    ensures EqualOrWords(name, title, filler, num, den) <==> NormalizeDel(name) == NormalizeDel(title)
    ensures ContainedOrWords(name, title, filler, num, den) <==>
              Contains(NormalizeDel(title), NormalizeDel(name)) || Contains(NormalizeDel(name), NormalizeDel(title))
  {
    var sig, tsig := SheetSig(name, filler), TitleSig(title, filler);
    assert sig * tsig == {};
    NoOverlapFails(sig, tsig, num, den);
  }

  /** Sharing no word fails the word test, unless there are no words. */
  lemma NoOverlapFails(sig: set<string>, other: set<string>, num: nat, den: nat)
    requires 0 < num && sig != {} && sig * other == {}
    ensures !WordsEnough(sig, other, num, den)
  {
    assert |sig| > 0;
  }

  // ------------------------------------------------------------------
  // Product links

  /** `sum(pages, [])`: the links of the category pages, page after page. */
  function Concat(pages: seq<seq<string>>): (r: seq<string>)
    ensures forall h :: h in r <==> exists i :: 0 <= i < |pages| && h in pages[i]
    decreases |pages|
  {
    if pages == [] then []
    else
      var n := |pages| - 1;
      var r := Concat(pages[..n]);
      assert forall i :: 0 <= i < n ==> pages[..n][i] == pages[i];
      r + pages[n]
  }

  /** The test that lets everything through. */
  predicate Anything(s: string)
  {
    true
  }

  /** A kept link without its query string, when that passes `post`. */
  function LinkUrl(keep: string -> bool, post: string -> bool): string -> Option<string>
  {
    (h: string) => if keep(h) && post(Before(h, '?')) then Some(Before(h, '?')) else None
  }

  /**
   * `sorted(product_urls)`: the kept links of every category page
   * (a page that failed gives none), without their query strings, those
   * passing `post`, deduplicated and in increasing order.
   */
  function ProductUrls(pages: seq<seq<string>>, keep: string -> bool, post: string -> bool): seq<string>
  {
    Order.SortedSet(Gather(Concat(pages), LinkUrl(keep, post)))
  }

  /**
   * The product URLs are increasing, so without repeats, and they are
   * exactly the query-less forms of the kept links that pass `post`.
   */
  lemma ProductUrlsSpec(pages: seq<seq<string>>, keep: string -> bool, post: string -> bool, u: string)
    ensures Order.Increasing(ProductUrls(pages, keep, post))
    ensures u in ProductUrls(pages, keep, post) <==>
              post(u) && exists i, h :: 0 <= i < |pages| && h in pages[i] && keep(h) && u == Before(h, '?')
  {
    var links := Concat(pages);
    var f := LinkUrl(keep, post);
    var g := Gather(links, f);
    Order.SortedSetSpec(g);
    var src := GatherSpec(links, f);
    if u in g {
      var k :| 0 <= k < |g| && g[k] == u;
      var h := links[src[k]];
      assert h in links;
      var i :| 0 <= i < |pages| && h in pages[i];
    }
    if post(u) && exists i, h :: 0 <= i < |pages| && h in pages[i] && keep(h) && u == Before(h, '?') {
      var i, h :| 0 <= i < |pages| && h in pages[i] && keep(h) && u == Before(h, '?');
      assert h in links;
      var r :| 0 <= r < |links| && links[r] == h;
      GatherHas(links, f, r);
    }
  }

  /** The two loops over the category pages and their links, then the sort. */
  method CollectUrls(pages: seq<seq<string>>, keep: string -> bool, post: string -> bool) returns (urls: seq<string>)
    ensures urls == ProductUrls(pages, keep, post)
  {
    var f := LinkUrl(keep, post);
    var found: seq<string> := [];
    var i := 0;
    while i < |pages|
      invariant 0 <= i <= |pages|
      invariant found == Gather(Concat(pages[..i]), f)
      decreases |pages| - i
    {
      assert pages[..i + 1][..i] == pages[..i];
      ghost var before := Concat(pages[..i]);
      var links := pages[i];
      assert before + links[..0] == before;
      var j := 0;
      while j < |links|
        invariant 0 <= j <= |links|
        invariant found == Gather(before + links[..j], f)
        decreases |links| - j
      {
        PrefixSnoc(links, j);
        assert before + links[..j + 1] == (before + links[..j]) + [links[j]];
        GatherStep(before + links[..j], links[j], f);
        var h := links[j];
        var u := Before(h, '?');
        if keep(h) && post(u) {
          found := found + [u];
        }
        j := j + 1;
      }
      assert links[..|links|] == links;
      i := i + 1;
    }
    assert pages[..|pages|] == pages;
    urls := Order.SortedSet(found);
  }

  // ------------------------------------------------------------------
  // The catalog

  /** A visited product page: unreachable, or loaded with its fields, the URL it ended on and its HTML. */
  datatype Visit = Unreachable | Loaded(page: ScraperLib.Page, finalUrl: string, html: string)

  /** A catalog item. */
  datatype Item = Item(title: string, description: string, imageUrl: string, url: string)

  /** The visit of a URL; a URL never answered is unreachable. */
  function VisitOf(visits: map<string, Visit>, url: string): Visit
  {
    if url in visits then visits[url] else Unreachable
  }

  /**
   * The item a loaded page gives when its fields can be read and its
   * title is not empty and passes `keepTitle`, with the URL `url`.
   */
  function ItemOf(v: Visit, url: string, keepTitle: string -> bool): (r: Option<Item>)
    ensures r.Some? ==> v.Loaded? && r.value.title != "" && keepTitle(r.value.title) && r.value.url == url
    ensures r.Some? ==> ScraperLib.PageFields(v.page) ==
                          Some(ScraperLib.PageData(r.value.title, r.value.description, r.value.imageUrl))
    ensures (v.Loaded? && ScraperLib.PageFields(v.page).Some? && ScraperLib.PageFields(v.page).value.title != ""
             && keepTitle(ScraperLib.PageFields(v.page).value.title)) ==> r.Some?
  {
    if v.Unreachable? then None
    else match ScraperLib.PageFields(v.page)
      case None => None
      case Some(d) => if d.title != "" && keepTitle(d.title) then Some(Item(d.title, d.description, d.imageUrl, url)) else None
  }

  /** The catalog loop over the product URLs. */
  method BuildCatalog(urls: seq<string>, item: string -> Option<Item>) returns (catalog: seq<Item>)
    ensures catalog == Gather(urls, item)
  {
    catalog := [];
    var i := 0;
    while i < |urls|
      invariant 0 <= i <= |urls|
      invariant catalog == Gather(urls[..i], item)
      decreases |urls| - i
    {
      PrefixSnoc(urls, i);
      GatherStep(urls[..i], urls[i], item);
      var it := item(urls[i]);
      if it.Some? {
        catalog := catalog + [it.value];
      }
      i := i + 1;
    }
    assert urls[..|urls|] == urls;
  }

  // ------------------------------------------------------------------
  // Matching the sheet

  /** A catalog item whose title the name matches. */
  function Hits(name: string, matches: (string, string) -> bool): Item -> bool
  {
    (it: Item) => matches(name, it.title)
  }

  /** A row with a UPC takes the first matching item; a row without one is skipped. */
  function RowResult(catalog: seq<Item>, matches: (string, string) -> bool): ((string, string)) -> Option<Entry>
  {
    (key: (string, string)) =>
      if key.0 == "" then None
      else match FirstIndex(catalog, Hits(key.1, matches))
        case None => None
        case Some(k) => Some(Entry(key.0, catalog[k].title, catalog[k].description, catalog[k].imageUrl, catalog[k].url))
  }

  /** One row: the search for its first matching item. */
  method MatchRow(upc: string, name: string, catalog: seq<Item>, matches: (string, string) -> bool)
    returns (entry: Option<Entry>)
    ensures entry == RowResult(catalog, matches)((upc, name))
  {
    if upc == "" {
      return None;
    }
    var k := FirstBy(catalog, Hits(name, matches));
    if k.None? {
      return None;
    }
    var it := catalog[k.value];
    entry := Some(Entry(upc, it.title, it.description, it.imageUrl, it.url));
  }

  /** The matching loop over the rows. */
  method MatchRows(rows: seq<Row>, catalog: seq<Item>, matches: (string, string) -> bool) returns (results: seq<Entry>)
    ensures results == Gather(ScraperLib.RowKeys(rows), RowResult(catalog, matches))
  {
    ghost var keys := ScraperLib.RowKeys(rows);
    results := [];
    var i := 0;
    while i < |rows|
      invariant 0 <= i <= |rows|
      invariant results == Gather(keys[..i], RowResult(catalog, matches))
      decreases |rows| - i
    {
      var key := ScraperLib.RowKey(rows[i]);
      PrefixSnoc(keys, i);
      GatherStep(keys[..i], key, RowResult(catalog, matches));
      var entry := MatchRow(key.0, key.1, catalog, matches);
      if entry.Some? {
        results := results + [entry.value];
      }
      i := i + 1;
    }
    assert keys[..|rows|] == keys;
  }

  /**
   * Every result row comes from a sheet row with a UPC and carries the
   * fields of the first catalog item its name matches; the same item may
   * serve several rows.
   */
  lemma MatchRowsSpec(rows: seq<Row>, catalog: seq<Item>, matches: (string, string) -> bool, i: nat)
    requires i < |Gather(ScraperLib.RowKeys(rows), RowResult(catalog, matches))|
    ensures var e := Gather(ScraperLib.RowKeys(rows), RowResult(catalog, matches))[i];
            exists r, k :: 0 <= r < |rows| && 0 <= k < |catalog|
              && ScraperLib.GetUpc(rows[r]) != "" && e.upc == ScraperLib.GetUpc(rows[r])
              && matches(ScraperLib.GetName(rows[r]), catalog[k].title)
              && (forall j :: 0 <= j < k ==> !matches(ScraperLib.GetName(rows[r]), catalog[j].title))
              && e == Entry(e.upc, catalog[k].title, catalog[k].description, catalog[k].imageUrl, catalog[k].url)
  {
    var keys := ScraperLib.RowKeys(rows);
    var f := RowResult(catalog, matches);
    var src := GatherSpec(keys, f);
    var r := src[i];
    var e := Gather(keys, f)[i];
    assert f(keys[r]) == Some(e);
    assert keys[r] == ScraperLib.RowKey(rows[r]);
    var upc, name := keys[r].0, keys[r].1;
    assert upc == ScraperLib.GetUpc(rows[r]) && name == ScraperLib.GetName(rows[r]);
    var hits := Hits(name, matches);
    var k := FirstIndex(catalog, hits).value;
    assert e == Entry(upc, catalog[k].title, catalog[k].description, catalog[k].imageUrl, catalog[k].url);
    assert hits(catalog[k]);
    assert forall j :: 0 <= j < k ==> !hits(catalog[j]);
    assert upc != "";
  }

  /** A row with a UPC has a result exactly when some catalog item matches its name. */
  lemma RowResultSpec(catalog: seq<Item>, matches: (string, string) -> bool, upc: string, name: string)
    ensures RowResult(catalog, matches)((upc, name)).Some? <==>
              upc != "" && exists k :: 0 <= k < |catalog| && matches(name, catalog[k].title)
  {
    var hits := Hits(name, matches);
    assert forall k :: 0 <= k < |catalog| ==> hits(catalog[k]) == matches(name, catalog[k].title);
  }
}
