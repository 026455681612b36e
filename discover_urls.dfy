/**
 * Discovering product page URLs: build the URL from the site's pattern,
 * fetch it, and when it is missing or a store index, search the site
 * with progressively shorter queries and keep the best-scoring product
 * link.
 */
module DiscoverUrls {
  import opened Wrappers
  import opened Text
  import opened Sheet
  import opened Sites
  import opened Url
  import AnalyzeSite
  import ScraperLib
  import ProbeSiteStructure

  // ------------------------------------------------------------------
  // Row values and the pattern URL

  const NumberColumns: seq<string> := ["Number"]

  /**
   * `_row_val`: a configured column is read alone, stripped, even when
   * it is empty; otherwise the first default column whose stripped cell
   * is non-empty.
   */
  function RowVal(row: Row, column: string, defaults: seq<string>): (r: string)
    ensures column != "" ==> r == Strip(Cell(row, column))
    ensures column == "" ==> r == FirstStripped(row, defaults, 1)
    ensures column == "" && r == "" ==> forall k :: 0 <= k < |defaults| ==> Strip(Cell(row, defaults[k])) == ""
  {
    if column != "" then Strip(Cell(row, column)) else FirstStripped(row, defaults, 1)
  }

  /**
   * Unlike the `or` chain of probe_site_structure, a blank first cell does
   * not hide a filled later one.
   */
  lemma RowValSkipsBlankCells()
    ensures var row := map["UPC Code" := " ", "Origin(UPC)" := "12345"];
            RowVal(row, "", ScraperLib.UpcColumns) == "12345"
            && ProbeSiteStructure.FirstCellStripped(row, ScraperLib.UpcColumns) == ""
  {
    var row := map["UPC Code" := " ", "Origin(UPC)" := "12345"];
    assert Strip(" ") == "";
    assert Strip("12345") == "12345";
    assert FirstFilled(row, ScraperLib.UpcColumns) == " " by {
      assert Cell(row, ScraperLib.UpcColumns[0]) == " ";
    }
    assert FirstStripped(row, ScraperLib.UpcColumns, 1) == "12345" by {
      assert ScraperLib.UpcColumns[1..] == ["Origin(UPC)", "Lookup Code"];
    }
  }

  /** The UPC, number and name of a row, honouring the site's column overrides. */
  function RowUpc(row: Row, cfg: SiteConfig): string { RowVal(row, cfg.upcColumn, ScraperLib.UpcColumns) }
  function RowNumber(row: Row, cfg: SiteConfig): string { RowVal(row, cfg.numberColumn, NumberColumns) }
  function RowName(row: Row, cfg: SiteConfig): string { RowVal(row, cfg.nameColumn, ScraperLib.NameColumns) }

  /** The row's product URL column applies when it is configured and its cell is non-empty. */
  predicate UsesUrlColumn(row: Row, cfg: SiteConfig)
  {
    cfg.productUrlColumn != "" && Cell(row, cfg.productUrlColumn) != ""
  }

  /** No pattern or base, or a placeholder the pattern uses would be empty. */
  predicate PlaceholderMissing(row: Row, cfg: SiteConfig)
  {
    cfg.urlPattern == "" || RStripCh(cfg.baseUrl, '/') == ""
    || (Contains(cfg.urlPattern, "{name_slug}") && AnalyzeSite.Slug(RowName(row, cfg)) == "")
    || (Contains(cfg.urlPattern, "{upc}") && RowUpc(row, cfg) == "")
  }

  /**
   * `get_row_url` of this script: the product URL column as in
   * probe_site_structure; otherwise the filled pattern, refused when
   * there is no pattern or base, when a placeholder in use would be
   * empty, and when the result is empty or the bare base.
   */
  function GetRowUrl(row: Row, cfg: SiteConfig): (r: Option<string>)
    ensures UsesUrlColumn(row, cfg) ==> r == ProbeSiteStructure.GetRowUrl(row, cfg)
    ensures r.Some? ==> r.value != ""
    ensures !UsesUrlColumn(row, cfg) && r.Some? ==> r.value != RStripCh(cfg.baseUrl, '/')
    ensures !UsesUrlColumn(row, cfg) && PlaceholderMissing(row, cfg) ==> r.None?
  {
    var col := cfg.productUrlColumn;
    if col != "" && Cell(row, col) != "" then
      (if Strip(Cell(row, col)) == "" then None else Some(Strip(Cell(row, col))))
    else
      var base := RStripCh(cfg.baseUrl, '/');
      var pattern := cfg.urlPattern;
      if pattern == "" || base == "" then None
      else
        var upc := RowUpc(row, cfg);
        var number := RowNumber(row, cfg);
        var name := RowName(row, cfg);
        var nameSlug := if name != "" then AnalyzeSite.Slug(name) else "";
        if Contains(pattern, "{name_slug}") && nameSlug == "" then None
        else if Contains(pattern, "{upc}") && upc == "" then None
        else
          var url := ProbeSiteStructure.Substitute(pattern, base, upc, number, nameSlug);
          if url != "" && url != base then Some(url) else None
  }

  /** The pattern `{base_url}` alone gives no URL here, where probe_site_structure returns the base. */
  lemma BareBaseRefused(row: Row, cfg: SiteConfig)
    requires cfg.productUrlColumn == "" && cfg.urlPattern == "{base_url}"
    requires forall i :: 0 <= i < |cfg.baseUrl| ==> cfg.baseUrl[i] != '{'
    ensures GetRowUrl(row, cfg).None?
  {
    var base := RStripCh(cfg.baseUrl, '/');
    RStripChPrefix(cfg.baseUrl, '/');
    assert forall i :: 0 <= i < |base| ==> base[i] == cfg.baseUrl[i];
    var name := RowName(row, cfg);
    ProbeSiteStructure.BasePatternIsBase(base, RowUpc(row, cfg), RowNumber(row, cfg),
                                         if name != "" then AnalyzeSite.Slug(name) else "");
    ProbeSiteStructure.PatternHasNoUpc();
    FilledRowUrl(row, cfg);
  }

  /** Without a URL column and with every placeholder in use filled, the URL is the filled pattern unless empty or the base. */
  lemma FilledRowUrl(row: Row, cfg: SiteConfig)
    requires cfg.productUrlColumn == "" && cfg.urlPattern != ""
    requires !Contains(cfg.urlPattern, "{name_slug}") && !Contains(cfg.urlPattern, "{upc}")
    ensures var name := RowName(row, cfg);
            var url := ProbeSiteStructure.Substitute(cfg.urlPattern, RStripCh(cfg.baseUrl, '/'), RowUpc(row, cfg), RowNumber(row, cfg),
                                                     if name != "" then AnalyzeSite.Slug(name) else "");
            GetRowUrl(row, cfg) == if RStripCh(cfg.baseUrl, '/') != "" && url != "" && url != RStripCh(cfg.baseUrl, '/') then Some(url) else None
  {
  }

  // ------------------------------------------------------------------
  // Product links of a page

  /** `_is_product_path` */
  predicate IsProductPath(path: string)
  {
    Contains(path, "/product/") || Contains(path, "/products/") || Contains(path, "~p")
  }

  /**
   * An `<a href>` of a parsed page: its raw href, the href stripped and
   * resolved against the base URL, and its text.
   */
  datatype Anchor = Anchor(href: string, joined: string, text: string)

  datatype Link = Link(url: string, text: string)

  /** The URL with query and fragment removed only when it has one of them. */
  function CleanUrl(full: string): (u: string)
    ensures u == StripQueryFragment(full)
  {
    if (exists i :: 0 <= i < |full| && (full[i] == '?' || full[i] == '#')) then StripQueryFragment(full)
    else
      NoQueryFragmentKept(full);
      full
  }

  lemma {:induction false} NoQueryFragmentKept(s: string)
    requires forall i :: 0 <= i < |s| ==> s[i] != '?' && s[i] != '#'
    ensures StripQueryFragment(s) == s
  {
    ScraperLib.BeforeAbsent(s, "", '?');
    ScraperLib.BeforeAbsent(s, "", '#');
  }

  /** The deduplication key: the clean URL without trailing slashes. */
  function PathKey(url: string): string
  {
    RStripCh(url, '/')
  }

  /** An anchor that is neither empty nor a fragment and leads to a product path. */
  predicate Kept(a: Anchor)
  {
    Strip(a.href) != "" && !StartsWith(Strip(a.href), "#") && IsProductPath(PathKey(CleanUrl(a.joined)))
  }

  /** The link an anchor contributes: its clean URL and its stripped text, cut at 200. */
  function LinkOf(a: Anchor): (l: Link)
    ensures |l.text| <= 200
  {
    Link(CleanUrl(a.joined), Take(Strip(a.text), 200))
  }

  /** `all_product_links_from_html` from path set `seen` on: the first anchor of each new product path. */
  function ProductLinks(anchors: seq<Anchor>, seen: set<string>): seq<Link>
    decreases |anchors|
  {
    if anchors == [] then []
    else
      var a := anchors[0];
      if Kept(a) && PathKey(CleanUrl(a.joined)) !in seen then
        [LinkOf(a)] + ProductLinks(anchors[1..], seen + {PathKey(CleanUrl(a.joined))})
      else ProductLinks(anchors[1..], seen)
  }

  /** The link loop, with its set of seen paths. */
  method AllProductLinks(anchors: seq<Anchor>) returns (links: seq<Link>)
    ensures links == ProductLinks(anchors, {})
  {
    links := [];
    var seenPaths: set<string> := {};
    var i := 0;
    while i < |anchors|
      invariant 0 <= i <= |anchors|
      invariant ProductLinks(anchors, {}) == links + ProductLinks(anchors[i..], seenPaths)
      decreases |anchors| - i
    {
      assert anchors[i..][1..] == anchors[i + 1..];
      var a := anchors[i];
      var href := Strip(a.href);
      if href != "" && !StartsWith(href, "#") {
        var path := PathKey(CleanUrl(a.joined));
        if IsProductPath(path) && path !in seenPaths {
          seenPaths := seenPaths + {path};
          links := links + [LinkOf(a)];
        }
      }
      i := i + 1;
    }
    assert links + [] == links;
  }

  /**
   * Every link leads to a product path outside `seen`, carries at most
   * 200 characters of text, and no two links share a path.
   */
  lemma {:induction false} ProductLinksDistinct(anchors: seq<Anchor>, seen: set<string>)
    ensures forall l :: l in ProductLinks(anchors, seen) ==>
              IsProductPath(PathKey(l.url)) && PathKey(l.url) !in seen && |l.text| <= 200
    ensures forall i, j :: 0 <= i < j < |ProductLinks(anchors, seen)| ==>
              PathKey(ProductLinks(anchors, seen)[i].url) != PathKey(ProductLinks(anchors, seen)[j].url)
    decreases |anchors|
  {
    if anchors != [] {
      var a := anchors[0];
      if Kept(a) && PathKey(CleanUrl(a.joined)) !in seen {
        var p := PathKey(CleanUrl(a.joined));
        ProductLinksDistinct(anchors[1..], seen + {p});
        var rest := ProductLinks(anchors[1..], seen + {p});
        var all := [LinkOf(a)] + rest;
        forall i, j | 0 <= i < j < |all| ensures PathKey(all[i].url) != PathKey(all[j].url) {
          assert all[j] == rest[j - 1];
          if i > 0 { assert all[i] == rest[i - 1]; }
        }
      } else {
        ProductLinksDistinct(anchors[1..], seen);
      }
    }
  }

  /** No product path is lost: every kept anchor's path was seen before or has a link. */
  lemma {:induction false} ProductLinksCover(anchors: seq<Anchor>, seen: set<string>)
    ensures forall k :: 0 <= k < |anchors| && Kept(anchors[k]) ==>
              PathKey(CleanUrl(anchors[k].joined)) in seen
              || exists l :: l in ProductLinks(anchors, seen) && PathKey(l.url) == PathKey(CleanUrl(anchors[k].joined))
    decreases |anchors|
  {
    if anchors != [] {
      var a := anchors[0];
      var p := PathKey(CleanUrl(a.joined));
      var s1 := if Kept(a) && p !in seen then seen + {p} else seen;
      ProductLinksCover(anchors[1..], s1);
      forall k | 0 <= k < |anchors| && Kept(anchors[k])
        ensures PathKey(CleanUrl(anchors[k].joined)) in seen
                || exists l :: l in ProductLinks(anchors, seen) && PathKey(l.url) == PathKey(CleanUrl(anchors[k].joined))
      {
        var q := PathKey(CleanUrl(anchors[k].joined));
        if q !in seen {
          if k == 0 || (Kept(a) && p !in seen && q == p) {
            assert LinkOf(a) in ProductLinks(anchors, seen);
          } else {
            assert anchors[k] == anchors[1..][k - 1];
            assert q !in s1;
            var l :| l in ProductLinks(anchors[1..], s1) && PathKey(l.url) == q;
            assert l in ProductLinks(anchors, seen);
          }
        }
      }
    }
  }

  // ------------------------------------------------------------------
  // Link score

  /** `re.split(r"[^\w]+", s)` without the empty pieces: the maximal runs of word characters. */
  function WordRuns(s: string): (rs: seq<string>)
    ensures forall k :: 0 <= k < |rs| ==> |rs[k]| > 0
    decreases |s|
  {
    if |s| == 0 then []
    else if !IsWordChar(s[0]) then WordRuns(s[1..])
    else
      var w := RunOf(s);
      [w] + WordRuns(s[|w|..])
  }

  /** The longest prefix of word characters. */
  function RunOf(s: string): (w: string)
    ensures |w| <= |s| && w == s[..|w|]
    ensures |s| > 0 && IsWordChar(s[0]) ==> |w| > 0
    decreases |s|
  {
    if |s| == 0 || !IsWordChar(s[0]) then [] else [s[0]] + RunOf(s[1..])
  }

  /** The query words that count: longer than one character. */
  function ScoreWords(ws: seq<string>): (r: seq<string>)
    ensures forall k :: 0 <= k < |r| ==> |r[k]| > 1
    ensures |r| <= |ws|
  {
    if ws == [] then [] else (if |ws[0]| > 1 then [ws[0]] else []) + ScoreWords(ws[1..])
  }

  /** How many of `ws` occur in `u` or in `t`. */
  function CountHits(ws: seq<string>, u: string, t: string): (n: nat)
    ensures n <= |ws|
    ensures n == 0 <==> forall k :: 0 <= k < |ws| ==> !Contains(u, ws[k]) && !Contains(t, ws[k])
    decreases |ws|
  {
    if ws == [] then 0
    else
      var r := CountHits(ws[1..], u, t);
      assert forall k :: 1 <= k < |ws| ==> ws[k] == ws[1..][k - 1];
      (if Contains(u, ws[0]) || Contains(t, ws[0]) then 1 else 0) + r
  }

  /** The lower-cased, stripped query the score compares. */
  function ScoreQuery(query: string): string
  {
    Strip(Lower(query))
  }

  /**
   * `_slug_match_score`: 0 for a blank query; otherwise 10 when the
   * lower-cased query is in the URL, 5 when it is in the link text, and
   * one for each query word of two or more characters found in either.
   */
  function SlugMatchScore(url: string, text: string, query: string): (sc: int)
    ensures sc >= 0
    ensures Strip(query) == "" ==> sc == 0
  {
    if Strip(query) == "" then 0
    else
      var q := ScoreQuery(query);
      (if Contains(Lower(url), q) then 10 else 0) + (if Contains(Lower(text), q) then 5 else 0)
      + CountHits(ScoreWords(WordRuns(q)), Lower(url), Lower(text))
  }

  /**
   * What a score means: at most 15 plus the number of query words; at
   * least 10 when the URL holds the whole query; and at least 1,
   * the acceptance threshold, exactly when the URL or the text holds the
   * query or one of its words.
   */
  lemma SlugMatchScoreMeaning(url: string, text: string, query: string)
    requires Strip(query) != ""
    ensures SlugMatchScore(url, text, query) <= 15 + |ScoreWords(WordRuns(ScoreQuery(query)))|
    ensures Contains(Lower(url), ScoreQuery(query)) ==> SlugMatchScore(url, text, query) >= 10
    ensures SlugMatchScore(url, text, query) >= 1 <==>
              Contains(Lower(url), ScoreQuery(query)) || Contains(Lower(text), ScoreQuery(query))
              || exists k :: 0 <= k < |ScoreWords(WordRuns(ScoreQuery(query)))|
                               && (Contains(Lower(url), ScoreWords(WordRuns(ScoreQuery(query)))[k])
                                   || Contains(Lower(text), ScoreWords(WordRuns(ScoreQuery(query)))[k]))
  {
    var ws := ScoreWords(WordRuns(ScoreQuery(query)));
    var hits := CountHits(ws, Lower(url), Lower(text));
    assert hits <= |ws|;
    assert hits == 0 <==> forall k :: 0 <= k < |ws| ==> !Contains(Lower(url), ws[k]) && !Contains(Lower(text), ws[k]);
  }

  /** The scores of links against one query. */
  function Scores(links: seq<Link>, query: string): (s: seq<int>)
    ensures |s| == |links|
    ensures forall k :: 0 <= k < |links| ==> s[k] == SlugMatchScore(links[k].url, links[k].text, query)
  {
    seq(|links|, k requires 0 <= k < |links| => SlugMatchScore(links[k].url, links[k].text, query))
  }

  /** Python's `max`: the first position of the largest value. */
  function ArgMax(xs: seq<int>): (k: nat)
    requires |xs| > 0
    ensures k < |xs|
    ensures forall j :: 0 <= j < |xs| ==> xs[j] <= xs[k]
    ensures forall j :: 0 <= j < k ==> xs[j] < xs[k]
    decreases |xs|
  {
    if |xs| == 1 then 0
    else
      var k := ArgMax(xs[..|xs| - 1]);
      assert forall j :: 0 <= j < |xs| - 1 ==> xs[..|xs| - 1][j] == xs[j];
      if xs[|xs| - 1] > xs[k] then |xs| - 1 else k
  }

  /**
   * The best link of a non-empty list, scored against `query`, if it
   * scores at least 1: the first link of highest score.
   */
  function Accept(links: seq<Link>, query: string): (r: Option<string>)
    ensures links == [] ==> r.None?
  {
    if links == [] then None
    else
      var s := Scores(links, query);
      var k := ArgMax(s);
      if s[k] >= 1 then Some(links[k].url) else None
  }

  /** An accepted link is the first of highest score, and a list is refused only when every link scores 0. */
  lemma AcceptIsBest(links: seq<Link>, query: string)
    ensures Accept(links, query).Some? ==>
              exists k :: 0 <= k < |links| && Accept(links, query).value == links[k].url
                          && SlugMatchScore(links[k].url, links[k].text, query) >= 1
                          && (forall j :: 0 <= j < |links| ==> Scores(links, query)[j] <= Scores(links, query)[k])
                          && (forall j :: 0 <= j < k ==> Scores(links, query)[j] < Scores(links, query)[k])
    ensures links != [] && Accept(links, query).None? ==> forall j :: 0 <= j < |links| ==> Scores(links, query)[j] < 1
  {
    if links != [] {
      var k := ArgMax(Scores(links, query));
      assert Scores(links, query)[k] == SlugMatchScore(links[k].url, links[k].text, query);
    }
  }

  // ------------------------------------------------------------------
  // Site search

  /**
   * The queries tried, in order: the stripped query, then its first three
   * words if it has more than three, its first two if more than two, and
   * its first word if more than one.
   */
  function SearchQueries(query: string): (qs: seq<string>)
    ensures |qs| >= 1 && qs[0] == Strip(query)
  {
    [Strip(query)] + Shortened(Words(Strip(query)))
  }

  /** The shortened queries: the first three, two and one words, when there are more words than that. */
  function Shortened(ws: seq<string>): seq<string>
  {
    (if |ws| > 3 then [Join(" ", ws[..3])] else [])
    + (if |ws| > 2 then [Join(" ", ws[..2])] else [])
    + (if |ws| > 1 then [ws[0]] else [])
  }

  /** Each shortened query is a strictly shorter prefix of the ones before it and of all the words joined. */
  lemma ShortenedNested(ws: seq<string>)
    requires forall k :: 0 <= k < |ws| ==> |ws[k]| > 0
    ensures var t := Shortened(ws);
            |t| == (if |ws| > 3 then 1 else 0) + (if |ws| > 2 then 1 else 0) + (if |ws| > 1 then 1 else 0)
    ensures var t := Shortened(ws);
            forall i, j :: 0 <= i < j < |t| ==> StartsWith(t[i], t[j]) && |t[j]| < |t[i]|
    ensures var t := Shortened(ws);
            forall j :: 0 <= j < |t| ==> StartsWith(Join(" ", ws), t[j]) && |t[j]| < |Join(" ", ws)|
  {
    ShortenedPairwise(ws);
    ShortenedBelowJoin(ws);
  }

  /** The shortened queries as a list: three, two, one or no strings. */
  lemma ShortenedCases(ws: seq<string>)
    ensures |ws| > 3 ==> Shortened(ws) == [Join(" ", ws[..3]), Join(" ", ws[..2]), ws[0]]
    ensures |ws| == 3 ==> Shortened(ws) == [Join(" ", ws[..2]), ws[0]]
    ensures |ws| == 2 ==> Shortened(ws) == [ws[0]]
    ensures |ws| < 2 ==> Shortened(ws) == []
  {
  }

  lemma ShortenedPairwise(ws: seq<string>)
    requires forall k :: 0 <= k < |ws| ==> |ws[k]| > 0
    ensures var t := Shortened(ws);
            forall i, j :: 0 <= i < j < |t| ==> StartsWith(t[i], t[j]) && |t[j]| < |t[i]|
  {
    ShortenedCases(ws);
    if |ws| > 3 {
      PrefixesOfThree(ws);
      Chain3(Join(" ", ws), Join(" ", ws[..3]), Join(" ", ws[..2]), ws[0]);
    } else if |ws| == 3 {
      assert Join(" ", ws[..1]) == ws[0];
      JoinPrefix(ws, 2);
      JoinPrefix(ws[..2], 1);
      assert ws[..2][..1] == ws[..1];
      Chain2(Join(" ", ws), Join(" ", ws[..2]), ws[0]);
    }
  }

  lemma ShortenedBelowJoin(ws: seq<string>)
    requires forall k :: 0 <= k < |ws| ==> |ws[k]| > 0
    ensures var t := Shortened(ws);
            forall j :: 0 <= j < |t| ==> StartsWith(Join(" ", ws), t[j]) && |t[j]| < |Join(" ", ws)|
  {
    ShortenedCases(ws);
    if |ws| > 1 {
      assert Join(" ", ws[..1]) == ws[0];
      JoinPrefix(ws, 1);
      if |ws| > 3 {
        PrefixesOfThree(ws);
        Chain3(Join(" ", ws), Join(" ", ws[..3]), Join(" ", ws[..2]), ws[0]);
      } else if |ws| == 3 {
        JoinPrefix(ws, 2);
        JoinPrefix(ws[..2], 1);
        assert ws[..2][..1] == ws[..1];
        Chain2(Join(" ", ws), Join(" ", ws[..2]), ws[0]);
      }
    }
  }

  /** A strictly shorter prefix of a string: `b` of `a`. */
  predicate Below(a: string, b: string)
  {
    StartsWith(a, b) && |b| < |a|
  }

  lemma Chain2(full: string, a: string, b: string)
    requires Below(full, a) && Below(full, b) && Below(a, b)
    ensures var t := [a, b];
            (forall i, j :: 0 <= i < j < |t| ==> StartsWith(t[i], t[j]) && |t[j]| < |t[i]|)
            && forall j :: 0 <= j < |t| ==> StartsWith(full, t[j]) && |t[j]| < |full|
  {
  }

  lemma Chain3(full: string, a: string, b: string, c: string)
    requires Below(full, a) && Below(full, b) && Below(full, c) && Below(a, b) && Below(a, c) && Below(b, c)
    ensures var t := [a, b, c];
            (forall i, j :: 0 <= i < j < |t| ==> StartsWith(t[i], t[j]) && |t[j]| < |t[i]|)
            && forall j :: 0 <= j < |t| ==> StartsWith(full, t[j]) && |t[j]| < |full|
  {
  }

  /** With four words or more: the first three, two and one words, each a shorter prefix of the one before. */
  lemma PrefixesOfThree(ws: seq<string>)
    requires |ws| > 3 && forall k :: 0 <= k < |ws| ==> |ws[k]| > 0
    ensures StartsWith(Join(" ", ws), Join(" ", ws[..3])) && |Join(" ", ws[..3])| < |Join(" ", ws)|
    ensures StartsWith(Join(" ", ws), Join(" ", ws[..2])) && |Join(" ", ws[..2])| < |Join(" ", ws)|
    ensures StartsWith(Join(" ", ws[..3]), Join(" ", ws[..2])) && |Join(" ", ws[..2])| < |Join(" ", ws[..3])|
    ensures StartsWith(Join(" ", ws[..3]), ws[0]) && |ws[0]| < |Join(" ", ws[..3])|
    ensures StartsWith(Join(" ", ws[..2]), ws[0]) && |ws[0]| < |Join(" ", ws[..2])|
  {
    assert Join(" ", ws[..1]) == ws[0];
    JoinPrefix(ws, 3);
    JoinPrefix(ws, 2);
    var w3 := ws[..3];
    JoinPrefix(w3, 2);
    JoinPrefix(w3, 1);
    assert w3[..2] == ws[..2] && w3[..1] == ws[..1];
    JoinPrefix(ws[..2], 1);
    assert ws[..2][..1] == ws[..1];
  }

  /**
   * Each shortened query is a strictly shorter prefix of every query
   * before it (of the full query too when its words are single-spaced;
   * with a double space inside, the shortened queries are not prefixes of
   * it).
   */
  lemma SearchQueriesShrink(query: string)
    ensures var qs := SearchQueries(query);
            |qs| == 1 + (if |Words(Strip(query))| > 3 then 1 else 0) + (if |Words(Strip(query))| > 2 then 1 else 0)
                      + (if |Words(Strip(query))| > 1 then 1 else 0)
    ensures var qs := SearchQueries(query);
            forall i, j :: 1 <= i < j < |qs| ==> StartsWith(qs[i], qs[j]) && |qs[j]| < |qs[i]|
    ensures var qs := SearchQueries(query);
            SingleSpaced(Strip(query)) ==> forall j :: 1 <= j < |qs| ==> StartsWith(qs[0], qs[j]) && |qs[j]| < |qs[0]|
  {
    var ws := Words(Strip(query));
    WordsAreWords(Strip(query));
    ShortenedNested(ws);
    var qs := SearchQueries(query);
    var t := Shortened(ws);
    assert forall i :: 1 <= i < |qs| ==> qs[i] == t[i - 1];
    if SingleSpaced(Strip(query)) {
      JoinOfWords(Strip(query));
    }
  }

  /** The five search URLs tried for one query. */
  function SearchTries(base: string, q: string): (urls: seq<string>)
    ensures |urls| == 5
    ensures forall u :: u in urls ==> StartsWith(u, base + "/")
  {
    [Under(base, "search?q=" + q), Under(base, "search?q=" + q + "&type=product"), Under(base, "products?q=" + q),
     Under(base, "?s=" + q), Under(base, "shop/?s=" + q)]
  }

  /** `f"{base}/{rest}"` */
  function Under(base: string, rest: string): (u: string)
    ensures StartsWith(u, base + "/")
  {
    var u := base + "/" + rest;
    assert u[..|base + "/"|] == base + "/";
    u
  }

  /** The URLs of all non-empty queries, query by query. */
  function AllTries(base: string, qs: seq<string>): seq<string>
    decreases |qs|
  {
    if qs == [] then []
    else (if qs[0] == "" then [] else SearchTries(base, QuotePlus(qs[0]))) + AllTries(base, qs[1..])
  }

  /** A fetched URL: its status code, its text (`None` when the request failed) and the anchors of its HTML. */
  datatype Response = Response(code: int, text: Option<string>, anchors: seq<Anchor>)

  /** The site as far as the script sees it; a URL without a response is a failed request. */
  type Web = map<string, Response>

  function Fetch(web: Web, u: string): Response
  {
    if u in web then web[u] else Response(-1, None, [])
  }

  /** One search URL: a 200 with text and product links, whose best link scores at least 1. */
  function TryUrl(web: Web, u: string, query: string): Option<string>
  {
    var r := Fetch(web, u);
    if r.code != 200 || r.text.None? || r.text.value == "" then None
    else Accept(ProductLinks(r.anchors, {}), query)
  }

  /** The result of the first URL that gives an accepted link. */
  function FirstAccepted(web: Web, urls: seq<string>, query: string): Option<string>
    decreases |urls|
  {
    if urls == [] then None
    else
      var r := TryUrl(web, urls[0], query);
      if r.Some? then r else FirstAccepted(web, urls[1..], query)
  }

  /**
   * The search takes the first URL with an accepted link: `k` is that
   * URL's position, or `|urls|` when there is none. A URL whose links all
   * score 0 does not stop it.
   */
  lemma {:induction false} FirstAcceptedIsFirst(web: Web, urls: seq<string>, query: string) returns (k: nat)
    ensures k <= |urls|
    ensures forall j :: 0 <= j < k ==> TryUrl(web, urls[j], query).None?
    ensures k < |urls| ==> FirstAccepted(web, urls, query) == TryUrl(web, urls[k], query) && FirstAccepted(web, urls, query).Some?
    ensures k == |urls| ==> FirstAccepted(web, urls, query).None?
    decreases |urls|
  {
    if urls == [] {
      k := 0;
    } else if TryUrl(web, urls[0], query).Some? {
      k := 0;
    } else {
      var k1 := FirstAcceptedIsFirst(web, urls[1..], query);
      k := k1 + 1;
      forall j | 0 <= j < k ensures TryUrl(web, urls[j], query).None? {
        if j > 0 {
          assert urls[j] == urls[1..][j - 1];
          assert TryUrl(web, urls[1..][j - 1], query).None?;
        }
      }
      if k < |urls| { assert urls[k] == urls[1..][k1]; }
    }
  }

  /** Searching `a + b` is searching `a`, then `b` when `a` gives nothing. */
  lemma {:induction false} FirstAcceptedConcat(web: Web, a: seq<string>, b: seq<string>, query: string)
    ensures FirstAccepted(web, a + b, query)
         == if FirstAccepted(web, a, query).Some? then FirstAccepted(web, a, query) else FirstAccepted(web, b, query)
    decreases |a|
  {
    if a != [] {
      assert (a + b)[0] == a[0];
      assert (a + b)[1..] == a[1..] + b;
      FirstAcceptedConcat(web, a[1..], b, query);
    } else {
      assert a + b == b;
    }
  }

  /** One search URL as the inner loop tries it: fetch, collect the product links, score them. */
  method TrySearchUrl(web: Web, u: string, query: string) returns (accepted: Option<string>)
    ensures accepted == TryUrl(web, u, query)
  {
    var r := Fetch(web, u);
    if r.code != 200 || r.text.None? || r.text.value == "" {
      return None;
    }
    var links := AllProductLinks(r.anchors);
    if links == [] {
      return None;
    }
    accepted := Accept(links, query);
  }

  /** The inner loop over the search URLs of one query. */
  method TrySearchUrls(web: Web, tries: seq<string>, query: string) returns (found: Option<string>)
    ensures found == FirstAccepted(web, tries, query)
  {
    var ti := 0;
    while ti < |tries|
      invariant 0 <= ti <= |tries|
      invariant FirstAccepted(web, tries, query) == FirstAccepted(web, tries[ti..], query)
      decreases |tries| - ti
    {
      assert tries[ti..][1..] == tries[ti + 1..];
      var accepted := TrySearchUrl(web, tries[ti], query);
      if accepted.Some? {
        return accepted;
      }
      ti := ti + 1;
    }
    found := None;
  }

  /**
   * `search_site_for_product`: the queries from longest to shortest; for
   * each, the five search URLs; every candidate link is scored against
   * the original query.
   */
  /** Searching the tries of queries `i..` is searching query `i`'s tries, then the rest's. */
  lemma AllTriesAt(web: Web, base: string, qs: seq<string>, i: nat, query: string)
    requires i < |qs|
    ensures var rest := FirstAccepted(web, AllTries(base, qs[i + 1..]), query);
            var here := if qs[i] == "" then None else FirstAccepted(web, SearchTries(base, QuotePlus(qs[i])), query);
            FirstAccepted(web, AllTries(base, qs[i..]), query) == if here.Some? then here else rest
  {
    assert qs[i..][1..] == qs[i + 1..];
    var rest := AllTries(base, qs[i + 1..]);
    if qs[i] == "" {
      assert AllTries(base, qs[i..]) == [] + rest;
      assert [] + rest == rest;
    } else {
      var tries := SearchTries(base, QuotePlus(qs[i]));
      assert AllTries(base, qs[i..]) == tries + rest;
      FirstAcceptedConcat(web, tries, rest, query);
    }
  }

  method SearchSiteForProduct(baseUrl: string, query: string, web: Web) returns (found: Option<string>)
    ensures found == FirstAccepted(web, AllTries(RStripCh(baseUrl, '/'), SearchQueries(query)), query)
  {
    var base := RStripCh(baseUrl, '/');
    var qs := SearchQueries(query);
    ghost var spec := FirstAccepted(web, AllTries(base, qs), query);
    var qi := 0;
    while qi < |qs|
      invariant 0 <= qi <= |qs|
      invariant spec == FirstAccepted(web, AllTries(base, qs[qi..]), query)
      decreases |qs| - qi
    {
      AllTriesAt(web, base, qs, qi, query);
      if qs[qi] != "" {
        var tries := SearchTries(base, QuotePlus(qs[qi]));
        var accepted := TrySearchUrls(web, tries, query);
        if accepted.Some? {
          return accepted;
        }
      }
      qi := qi + 1;
    }
    found := None;
  }

  // ------------------------------------------------------------------
  // Row status

  /** The Shopify index test: a 200 with text mentioning `pageType` and a quoted `index`. */
  predicate IsIndexPage(r: Response)
  {
    r.code == 200 && r.text.Some? && r.text.value != ""
    && ((Contains(r.text.value, "pageType") && Contains(r.text.value, "\"index\""))
        || (Contains(r.text.value, "pageType") && Contains(r.text.value, "'index'")))
  }

  datatype Discovered = Discovered(upc: string, name: string, built: string, resolved: string, status: string)

  /** The status of a row the built URL did not resolve: index page, 404 or error. */
  function FailStatus(r: Response): string
  {
    if IsIndexPage(r) then "index_page" else if r.code == 404 then "404" else "error"
  }

  /**
   * One row of `main`: no built URL gives "no_url"; a 200 that is not an
   * index page resolves to the built URL ("ok"); otherwise, unless search
   * is off or the row has neither UPC nor name, the site search may
   * resolve it ("search"). Only those two statuses carry a resolved URL.
   */
  function DecideRow(row: Row, cfg: SiteConfig, web: Web, noSearch: bool): (d: Discovered)
    ensures d.upc == RowUpc(row, cfg) && d.name == RowName(row, cfg)
    ensures d.status == "no_url" <==> GetRowUrl(row, cfg).None?
    ensures d.status == "no_url" ==> d.built == "" && d.resolved == ""
    ensures d.resolved != "" <==> d.status == "ok" || d.status == "search"
    ensures d.status == "ok" ==> d.resolved == d.built && Fetch(web, d.built).code == 200
    ensures d.status == "ok" <==>
              GetRowUrl(row, cfg).Some? && Fetch(web, GetRowUrl(row, cfg).value).code == 200
              && !IsIndexPage(Fetch(web, GetRowUrl(row, cfg).value))
    ensures d.status == "search" ==> !noSearch && (d.upc != "" || d.name != "")
    ensures d.status == "search" ==>
              Some(d.resolved) == FirstAccepted(web, AllTries(RStripCh(cfg.baseUrl, '/'), SearchQueries(OrElse(d.upc, d.name))), OrElse(d.upc, d.name))
    ensures GetRowUrl(row, cfg).Some? && d.status != "ok" && d.status != "search" ==>
              d.built == GetRowUrl(row, cfg).value && d.status == FailStatus(Fetch(web, d.built))
    ensures d.status in {"no_url", "ok", "search", "index_page", "404", "error"}
  {
    var upc := RowUpc(row, cfg);
    var name := RowName(row, cfg);
    match GetRowUrl(row, cfg)
    case None => Discovered(upc, name, "", "", "no_url")
    case Some(built) => DecideBuilt(upc, name, built, cfg, web, noSearch)
  }

  /** A row with a built URL: the URL itself, else the site search, else the failure status. */
  function DecideBuilt(upc: string, name: string, built: string, cfg: SiteConfig, web: Web, noSearch: bool): (d: Discovered)
    ensures d.upc == upc && d.name == name && d.built == built
    ensures d.status == "ok" <==> Fetch(web, built).code == 200 && !IsIndexPage(Fetch(web, built))
    ensures d.status == "ok" ==> d.resolved == built
    ensures d.status == "search" ==> !noSearch && (upc != "" || name != "") && d.resolved != ""
    ensures d.status == "search" ==>
              Some(d.resolved) == FirstAccepted(web, AllTries(RStripCh(cfg.baseUrl, '/'), SearchQueries(OrElse(upc, name))), OrElse(upc, name))
    ensures d.status != "ok" && d.status != "search" ==> d.resolved == "" && d.status == FailStatus(Fetch(web, built))
  {
    var r := Fetch(web, built);
    if r.code == 200 && !IsIndexPage(r) then Discovered(upc, name, built, built, "ok")
    else if !noSearch && (upc != "" || name != "") then
      var found := FirstAccepted(web, AllTries(RStripCh(cfg.baseUrl, '/'), SearchQueries(OrElse(upc, name))), OrElse(upc, name));
      if found.Some? && found.value != "" then Discovered(upc, name, built, found.value, "search")
      else Discovered(upc, name, built, "", FailStatus(r))
    else Discovered(upc, name, built, "", FailStatus(r))
  }

  /** How many rows `--limit` lets through when it is checked before each row: all for 0, none when negative. */
  function RowsAllowed(n: nat, limit: int): (m: nat)
    ensures m <= n
    ensures limit > 0 ==> m <= limit
  {
    if limit == 0 then n else if limit < 0 then 0 else if n < limit then n else limit
  }

  /** The body of the row loop for one row. */
  method DiscoverRow(row: Row, cfg: SiteConfig, web: Web, noSearch: bool) returns (d: Discovered)
    ensures d == DecideRow(row, cfg, web, noSearch)
  {
    var upc := RowUpc(row, cfg);
    var name := RowName(row, cfg);
    var built := GetRowUrl(row, cfg);
    if built.None? {
      return Discovered(upc, name, "", "", "no_url");
    }
    var r := Fetch(web, built.value);
    if r.code == 200 && !IsIndexPage(r) {
      return Discovered(upc, name, built.value, built.value, "ok");
    }
    if !noSearch && (upc != "" || name != "") {
      var found := SearchSiteForProduct(cfg.baseUrl, OrElse(upc, name), web);
      if found.Some? && found.value != "" {
        return Discovered(upc, name, built.value, found.value, "search");
      }
    }
    d := Discovered(upc, name, built.value, "", FailStatus(r));
  }

  lemma AppendDiscovered(results: seq<Discovered>, rows: seq<Row>, cfg: SiteConfig, web: Web, noSearch: bool, d: Discovered)
    requires |results| < |rows| && d == DecideRow(rows[|results|], cfg, web, noSearch)
    requires forall k :: 0 <= k < |results| ==> results[k] == DecideRow(rows[k], cfg, web, noSearch)
    ensures forall k :: 0 <= k < |results| + 1 ==> (results + [d])[k] == DecideRow(rows[k], cfg, web, noSearch)
  {
  }

  /** The row loop of `main`: one result per row until the limit, each decided on its own. */
  method Discover(rows: seq<Row>, cfg: SiteConfig, web: Web, limit: int, noSearch: bool) returns (results: seq<Discovered>)
    ensures |results| == RowsAllowed(|rows|, limit)
    ensures forall k :: 0 <= k < |results| ==> results[k] == DecideRow(rows[k], cfg, web, noSearch)
  {
    results := [];
    var rowsDone := 0;
    var i := 0;
    while i < |rows|
      invariant 0 <= i <= |rows| && rowsDone == i == |results|
      invariant limit != 0 ==> (limit < 0 ==> i == 0) && (limit > 0 ==> i <= limit)
      invariant forall k :: 0 <= k < i ==> results[k] == DecideRow(rows[k], cfg, web, noSearch)
      decreases |rows| - i
    {
      if limit != 0 && rowsDone >= limit {
        break;
      }
      var d := DiscoverRow(rows[i], cfg, web, noSearch);
      AppendDiscovered(results, rows, cfg, web, noSearch, d);
      results := results + [d];
      rowsDone := rowsDone + 1;
      i := i + 1;
    }
  }
}
