/**
 * What the retry scripts share: the keywords taken from a product name,
 * the short query lists built from them, the sheet rows still without a
 * result, the page extraction with its selector fallbacks, the
 * "redirected to a product, else the first product link" search, and the
 * loop over the missing rows that stops at the first query that finds
 * the product.
 */
module Retry {
  import opened Wrappers
  import opened Text
  import opened Matching
  import opened Sheet
  import ScraperLib

  // ------------------------------------------------------------------
  // Subsequences

  lemma {:induction false} PrefixSubseq<T>(a: seq<T>, b: seq<T>, n: nat)
    requires IsSubseq(a, b) && n <= |a|
    ensures IsSubseq(a[..n], b)
    decreases |b|
  {
    if n > 0 {
      if a[0] == b[0] && IsSubseq(a[1..], b[1..]) {
        PrefixSubseq(a[1..], b[1..], n - 1);
        assert a[..n][1..] == a[1..][..n - 1];
      } else {
        PrefixSubseq(a, b[1..], n);
      }
    }
  }

  // ------------------------------------------------------------------
  // Keywords and queries

  /** A word that says something: not filler and longer than two letters. */
  function IsSig(filler: set<string>): string -> bool
  {
    (w: string) => w !in filler && |w| > 2
  }

  /** The significant words, in order. */
  function SigWords(words: seq<string>, filler: set<string>): (r: seq<string>)
    ensures IsSubseq(r, words)
    ensures forall w :: w in r <==> w in words && w !in filler && |w| > 2
  {
    SelectSubseq(words, IsSig(filler));
    Select(words, IsSig(filler))
  }

  /**
   * The first `max` significant words, or the first `max` of `fallback`
   * when there is none: a prefix of one or the other, and always a
   * subsequence of the words.
   */
  function TakeSig(words: seq<string>, filler: set<string>, max: nat, fallback: seq<string>): (r: seq<string>)
    requires IsSubseq(fallback, words)
    ensures |r| <= max
    ensures IsSubseq(r, words)
    ensures var sig := SigWords(words, filler);
            sig != [] ==> |r| == (if max < |sig| then max else |sig|) && r == sig[..|r|]
    ensures SigWords(words, filler) == [] ==>
              |r| == (if max < |fallback| then max else |fallback|) && r == fallback[..|r|]
  {
    var sig := SigWords(words, filler);
    var from := if sig != [] then sig else fallback;
    var n := if max < |from| then max else |from|;
    PrefixSubseq(from, words, n);
    assert Take(from, max) == from[..n];
    Take(from, max)
  }

  /**
   * `sig[:max] if sig else words[:max]`: the first `max` significant
   * words, or the first `max` words when none is significant.
   */
  function KeywordsOrWords(words: seq<string>, filler: set<string>, max: nat): (r: seq<string>)
    ensures |r| <= max
    ensures IsSubseq(r, words)
    ensures SigWords(words, filler) != [] ==> r != [] || max == 0
    ensures SigWords(words, filler) != [] ==> forall w :: w in r ==> w !in filler && |w| > 2
    ensures SigWords(words, filler) == [] ==> |r| == (if max < |words| then max else |words|) && r == words[..|r|]
    ensures var sig := SigWords(words, filler);
            sig != [] ==> r == sig[..if max < |sig| then max else |sig|]
  {
    SubseqSelf(words);
    var r := TakeSig(words, filler, max, words);
    assert forall w :: w in r ==> w in SigWords(words, filler) || SigWords(words, filler) == [];
    r
  }

  /**
   * The query list of most sites: the name, then the first two keywords
   * when there are two, then the first keyword when there is one.
   */
  function ShortQueries(name: string, kw: seq<string>): (r: seq<string>)
    ensures |r| == 1 + (if |kw| >= 2 then 2 else |kw|)
    ensures r[0] == name
    ensures |kw| >= 2 ==> r[1] == kw[0] + " " + kw[1]
    ensures |kw| >= 1 ==> r[|r| - 1] == kw[0]
  {
    var two := if |kw| >= 2 then [Join(" ", kw[..2])] else [];
    assert |kw| >= 2 ==> Join(" ", kw[..2]) == kw[0] + " " + kw[1] by {
      if |kw| >= 2 {
        assert kw[..2][1..] == [kw[1]];
        assert Join(" ", [kw[1]]) == kw[1];
      }
    }
    [name] + two + (if |kw| >= 1 then [kw[0]] else [])
  }

  // ------------------------------------------------------------------
  // The rows to retry

  /** The UPCs of the rows already in the site's results. */
  function Done(existing: seq<Entry>): set<string>
  {
    set e | e in existing :: e.upc
  }

  function MissingKey(done: set<string>): ((string, string)) -> Option<(string, string)>
  {
    (key: (string, string)) => if key.0 != "" && key.0 !in done then Some(key) else None
  }

  /** `missing`: the (UPC, name) of each sheet row with a UPC that has no result yet, in sheet order. */
  function Missing(rows: seq<Row>, existing: seq<Entry>): seq<(string, string)>
  {
    Gather(ScraperLib.RowKeys(rows), MissingKey(Done(existing)))
  }

  /** A pair is retried exactly when it is a sheet row's, its UPC is not empty and has no result. */
  lemma MissingSpec(rows: seq<Row>, existing: seq<Entry>, key: (string, string))
    ensures key in Missing(rows, existing) <==>
              (key.0 != "" && key.0 !in Done(existing)
               && exists r :: 0 <= r < |rows| && ScraperLib.RowKey(rows[r]) == key)
  {
    MissingOfKeys(ScraperLib.RowKeys(rows), Done(existing), key);
    KeyOfRows(rows, key);
  }

  /** A key is kept exactly when it is one of the keys, with a UPC that has no result. */
  lemma MissingOfKeys(keys: seq<(string, string)>, done: set<string>, key: (string, string))
    ensures key in Gather(keys, MissingKey(done)) <==> key.0 != "" && key.0 !in done && key in keys
  {
    var f := MissingKey(done);
    var g := Gather(keys, f);
    var src := GatherSpec(keys, f);
    if key in g {
      var i :| 0 <= i < |g| && g[i] == key;
      assert f(keys[src[i]]) == Some(key);
    }
    if key.0 != "" && key.0 !in done && key in keys {
      var r :| 0 <= r < |keys| && keys[r] == key;
      GatherHas(keys, f, r);
    }
  }

  /** The keys of the rows are exactly the rows' keys. */
  lemma KeyOfRows(rows: seq<Row>, key: (string, string))
    ensures key in ScraperLib.RowKeys(rows) <==> exists r :: 0 <= r < |rows| && ScraperLib.RowKey(rows[r]) == key
  {
    var keys := ScraperLib.RowKeys(rows);
    if key in keys {
      var r :| 0 <= r < |keys| && keys[r] == key;
      assert ScraperLib.RowKey(rows[r]) == key;
    }
    if exists r :: 0 <= r < |rows| && ScraperLib.RowKey(rows[r]) == key {
      var r :| 0 <= r < |rows| && ScraperLib.RowKey(rows[r]) == key;
      assert keys[r] == key;
    }
  }

  // ------------------------------------------------------------------
  // Page extraction

  /** The `src` and `data-src` of an image element, "" where absent. */
  datatype Img = Img(src: string, dataSrc: string)

  /**
   * A loaded page: what the shared helpers read from its HTML, and the
   * first element each CSS selector finds (an image, or an element's
   * inner text).
   */
  datatype View = View(page: ScraperLib.Page, images: map<string, Img>, texts: map<string, string>)

  /** What extracting a page gives: an exception, a page without a title, or a result row. */
  datatype Extracted = Raised | NoTitle | Got(entry: Entry)

  function SrcOf(el: Img): string
  {
    OrElse(el.src, el.dataSrc)
  }

  /** The selector finds an image with a source that is not inline data. */
  predicate UsableImage(view: View, sel: string)
  {
    sel in view.images && SrcOf(view.images[sel]) != "" && !StartsWith(SrcOf(view.images[sel]), "data:")
  }

  /** An absolute URL as is, anything else after the site's address. */
  function Absolute(base: string, src: string): (r: string)
    ensures StartsWith(src, "http") ==> r == src
    ensures !StartsWith(src, "http") ==> r == base + src
  {
    if StartsWith(src, "http") then src else base + src
  }

  /** The first selector, in order, that finds a usable image, made absolute. */
  function FallbackImage(view: View, sels: seq<string>, base: string): (r: Option<string>)
    ensures r.None? <==> forall j :: 0 <= j < |sels| ==> !UsableImage(view, sels[j])
    ensures r.Some? ==> exists j :: 0 <= j < |sels| && UsableImage(view, sels[j])
                          && r.value == Absolute(base, SrcOf(view.images[sels[j]]))
                          && forall j' :: 0 <= j' < j ==> !UsableImage(view, sels[j'])
    decreases |sels|
  {
    if sels == [] then None
    else if UsableImage(view, sels[0]) then Some(Absolute(base, SrcOf(view.images[sels[0]])))
    else
      var r := FallbackImage(view, sels[1..], base);
      assert forall j :: 1 <= j < |sels| ==> sels[j] == sels[1..][j - 1];
      r
  }

  /** The selector finds an element whose text is not blank. */
  predicate UsableText(view: View, sel: string)
  {
    sel in view.texts && Strip(view.texts[sel]) != ""
  }

  /** The first selector, in order, that finds a non-blank text: that text stripped, cut to 500 characters. */
  function FallbackText(view: View, sels: seq<string>): (r: Option<string>)
    ensures r.None? <==> forall j :: 0 <= j < |sels| ==> !UsableText(view, sels[j])
    ensures r.Some? ==> r.value != "" && |r.value| <= 500
    ensures r.Some? ==> exists j :: 0 <= j < |sels| && UsableText(view, sels[j])
                          && r.value == Take(Strip(view.texts[sels[j]]), 500)
                          && forall j' :: 0 <= j' < j ==> !UsableText(view, sels[j'])
    decreases |sels|
  {
    if sels == [] then None
    else if UsableText(view, sels[0]) then Some(Take(Strip(view.texts[sels[0]]), 500))
    else
      var r := FallbackText(view, sels[1..]);
      assert forall j :: 1 <= j < |sels| ==> sels[j] == sels[1..][j - 1];
      r
  }

  /**
   * `_extract_page`: the page's fields (JSON-LD first, then og and title
   * tag); nothing without a title; else the row with the UPC and the URL.
   */
  function ExtractPage(page: ScraperLib.Page, url: string, upc: string): (r: Extracted)
    ensures r.Raised? <==> ScraperLib.PageFields(page).None?
    ensures r.NoTitle? <==> ScraperLib.PageFields(page).Some? && ScraperLib.PageFields(page).value.title == ""
    ensures r.Got? ==> var d := ScraperLib.PageFields(page).value;
                       r.entry == Entry(upc, d.title, d.description, d.imageUrl, url) && d.title != ""
  {
    match ScraperLib.PageFields(page)
    case None => Raised
    case Some(d) => if d.title == "" then NoTitle else Got(Entry(upc, d.title, d.description, d.imageUrl, url))
  }

  /**
   * `_extract_woo`: the page's fields, then a missing image taken from the
   * first image selector that finds one and a missing description from the
   * first text selector that finds one; nothing without a title.
   */
  function ExtractWoo(view: View, url: string, base: string, upc: string,
                      imageSels: seq<string>, textSels: seq<string>): (r: Extracted)
    ensures r.Raised? <==> ScraperLib.PageFields(view.page).None?
    ensures r.NoTitle? <==> ScraperLib.PageFields(view.page).Some? && ScraperLib.PageFields(view.page).value.title == ""
    ensures r.Got? ==>
              var d := ScraperLib.PageFields(view.page).value;
              && r.entry.upc == upc && r.entry.productUrl == url
              && r.entry.title == d.title && d.title != ""
              && (d.imageUrl != "" ==> r.entry.imageUrl == d.imageUrl)
              && (d.description != "" ==> r.entry.description == d.description)
    ensures r.Got? && ScraperLib.PageFields(view.page).value.imageUrl == "" ==>
              var f := FallbackImage(view, imageSels, base);
              (f.Some? ==> r.entry.imageUrl == f.value) && (f.None? ==> r.entry.imageUrl == "")
    ensures r.Got? && ScraperLib.PageFields(view.page).value.description == "" ==>
              var f := FallbackText(view, textSels);
              (f.Some? ==> r.entry.description == f.value) && (f.None? ==> r.entry.description == "")
  {
    match ScraperLib.PageFields(view.page)
    case None => Raised
    case Some(d) =>
      var image := if d.imageUrl != "" then d.imageUrl
                   else match FallbackImage(view, imageSels, base) case Some(s) => s case None => "";
      var description := if d.description != "" then d.description
                         else match FallbackText(view, textSels) case Some(s) => s case None => "";
      if d.title == "" then NoTitle else Got(Entry(upc, d.title, description, image, url))
  }

  /** Behind an address starting with "http", any source that is not inline data becomes a web URL. */
  lemma AbsoluteIsWeb(base: string, src: string)
    requires StartsWith(base, "http") && !StartsWith(src, "data:")
    ensures StartsWith(Absolute(base, src), "http") && !StartsWith(Absolute(base, src), "data:")
  {
    if !StartsWith(src, "http") {
      assert (base + src)[..4] == base[..4];
      assert (base + src)[0] == 'h';
    }
  }

  /** A site address starting with "http" makes every fallback image a web URL, never inline data. */
  lemma FallbackImageIsWeb(view: View, url: string, base: string, upc: string,
                           imageSels: seq<string>, textSels: seq<string>)
    requires StartsWith(base, "http")
    ensures var r := ExtractWoo(view, url, base, upc, imageSels, textSels);
            r.Got? && ScraperLib.PageFields(view.page).value.imageUrl == "" && r.entry.imageUrl != "" ==>
              StartsWith(r.entry.imageUrl, "http") && !StartsWith(r.entry.imageUrl, "data:")
  {
    var r := ExtractWoo(view, url, base, upc, imageSels, textSels);
    if r.Got? && ScraperLib.PageFields(view.page).value.imageUrl == "" && r.entry.imageUrl != "" {
      var j :| 0 <= j < |imageSels| && UsableImage(view, imageSels[j])
               && r.entry.imageUrl == Absolute(base, SrcOf(view.images[imageSels[j]]));
      AbsoluteIsWeb(base, SrcOf(view.images[imageSels[j]]));
    }
  }

  // ------------------------------------------------------------------
  // The browser

  /** A page the browser ended on, at its final URL. */
  datatype Loaded = Loaded(finalUrl: string, view: View)

  /** Where a site search ends: the page, and the resolved links of its anchors in document order. */
  datatype Landing = Landing(at: Loaded, anchors: seq<string>)

  /**
   * The sites as the browser sees them: the landing of each search query,
   * the page each link leads to, and the `producturl` of each
   * autocomplete item of a query ("" for an item without one). A query or
   * link the map lacks is one whose navigation raised, an autocomplete
   * query it lacks one that did not give a JSON list.
   */
  datatype Web = Web(search: map<string, Landing>, pages: map<string, Loaded>, complete: map<string, seq<string>>)

  /**
   * One search query: a landing on a product page is extracted first; a
   * landing that raises ends the query; else the first anchor that is a
   * product link is followed and extracted.
   */
  function SearchAttempt(web: Web, upc: string, query: string, isProduct: string -> bool,
                         isLink: string -> bool, extract: (Loaded, string) -> Extracted): (r: Option<Entry>)
    ensures r.Some? ==> query in web.search
    ensures r.Some? ==>
              var l := web.search[query];
              (isProduct(l.at.finalUrl) && extract(l.at, upc) == Got(r.value))
              || exists k :: 0 <= k < |l.anchors| && isLink(l.anchors[k]) && l.anchors[k] in web.pages
                   && extract(web.pages[l.anchors[k]], upc) == Got(r.value)
  {
    if query !in web.search then None
    else
      var l := web.search[query];
      var first := if isProduct(l.at.finalUrl) then extract(l.at, upc) else NoTitle;
      match first
      case Raised => None
      case Got(e) => Some(e)
      case NoTitle =>
        match FirstIndex(l.anchors, isLink)
        case None => None
        case Some(k) =>
          var h := l.anchors[k];
          if h !in web.pages then None
          else match extract(web.pages[h], upc)
            case Got(e) => Some(e)
            case _ => None
  }

  /** A landing on a product page whose extraction raises ends the query without following a link. */
  lemma RaisedLandingEndsQuery(web: Web, upc: string, query: string, isProduct: string -> bool,
                               isLink: string -> bool, extract: (Loaded, string) -> Extracted)
    requires query in web.search
    requires isProduct(web.search[query].at.finalUrl) && extract(web.search[query].at, upc).Raised?
    ensures SearchAttempt(web, upc, query, isProduct, isLink, extract).None?
  {
  }

  /**
   * The autocomplete items in order: an item with a product URL is
   * loaded (made absolute) and extracted; the first with a title is the
   * result; a page that raises ends the query.
   */
  function ScanItems(web: Web, base: string, upc: string, items: seq<string>): (r: Option<Entry>)
    ensures r.Some? ==> exists j :: 0 <= j < |items| && items[j] != "" && Absolute(base, items[j]) in web.pages
                          && var l := web.pages[Absolute(base, items[j])];
                             ExtractPage(l.view.page, l.finalUrl, upc) == Got(r.value)
    decreases |items|
  {
    if items == [] then None
    else if items[0] == "" then
      var r := ScanItems(web, base, upc, items[1..]);
      assert forall j :: 1 <= j < |items| ==> items[j] == items[1..][j - 1];
      r
    else
      var url := Absolute(base, items[0]);
      if url !in web.pages then None
      else
        var l := web.pages[url];
        match ExtractPage(l.view.page, l.finalUrl, upc)
        case Raised => None
        case Got(e) => Some(e)
        case NoTitle =>
          var r := ScanItems(web, base, upc, items[1..]);
          assert forall j :: 1 <= j < |items| ==> items[j] == items[1..][j - 1];
          r
  }

  /** One autocomplete query: nothing unless it gave a list, else the scan of its items. */
  function AutocompleteAttempt(web: Web, base: string, upc: string, query: string): (r: Option<Entry>)
    ensures r.Some? ==> query in web.complete
  {
    if query in web.complete then ScanItems(web, base, upc, web.complete[query]) else None
  }

  /** The product-page test of the WooCommerce and razor searches: the URL has "/product/". */
  predicate ProductPath(url: string)
  {
    Contains(url, "/product/")
  }

  /** Every row an extraction gives carries the UPC it was given. */
  ghost predicate ExtractKeepsUpc(extract: (Loaded, string) -> Extracted)
  {
    forall l, upc :: extract(l, upc).Got? ==> extract(l, upc).entry.upc == upc
  }

  /** `_extract_woo` on the page the browser is at, with the site's address and selectors. */
  function WooExtractor(base: string, imageSels: seq<string>, textSels: seq<string>): (Loaded, string) -> Extracted
  {
    (l: Loaded, upc: string) => ExtractWoo(l.view, l.finalUrl, base, upc, imageSels, textSels)
  }

  /** `_extract_page` on the page the browser is at. */
  function PageExtractor(): (Loaded, string) -> Extracted
  {
    (l: Loaded, upc: string) => ExtractPage(l.view.page, l.finalUrl, upc)
  }

  /** A site's search attempt, by UPC and query. */
  function Searcher(web: Web, isProduct: string -> bool, isLink: string -> bool,
                    extract: (Loaded, string) -> Extracted): (string, string) -> Option<Entry>
  {
    (upc: string, query: string) => SearchAttempt(web, upc, query, isProduct, isLink, extract)
  }

  /** A site's autocomplete attempt, by UPC and query. */
  function Completer(web: Web, base: string): (string, string) -> Option<Entry>
  {
    (upc: string, query: string) => AutocompleteAttempt(web, base, upc, query)
  }

  lemma WooExtractorKeepsUpc(base: string, imageSels: seq<string>, textSels: seq<string>)
    ensures ExtractKeepsUpc(WooExtractor(base, imageSels, textSels))
  {
  }

  lemma PageExtractorKeepsUpc()
    ensures ExtractKeepsUpc(PageExtractor())
  {
  }

  /** The search keeps the UPC when its extraction does. */
  lemma SearcherKeepsUpc(web: Web, isProduct: string -> bool, isLink: string -> bool,
                         extract: (Loaded, string) -> Extracted)
    requires ExtractKeepsUpc(extract)
    ensures KeepsUpc(Searcher(web, isProduct, isLink, extract))
  {
    forall upc, query | SearchAttempt(web, upc, query, isProduct, isLink, extract).Some?
      ensures SearchAttempt(web, upc, query, isProduct, isLink, extract).value.upc == upc
    {
    }
  }

  /** The autocomplete keeps the UPC. */
  lemma CompleterKeepsUpc(web: Web, base: string)
    ensures KeepsUpc(Completer(web, base))
  {
    forall upc, query | AutocompleteAttempt(web, base, upc, query).Some?
      ensures AutocompleteAttempt(web, base, upc, query).value.upc == upc
    {
    }
  }

  // ------------------------------------------------------------------
  // The retry loop

  /** The first query, in order, that finds the product, and its row. */
  function FirstFound(queries: seq<string>, attempt: string -> Option<Entry>): (r: Option<Entry>)
    ensures r.None? <==> forall j :: 0 <= j < |queries| ==> attempt(queries[j]).None?
    ensures r.Some? ==> exists j :: 0 <= j < |queries| && r == attempt(queries[j])
                          && forall j' :: 0 <= j' < j ==> attempt(queries[j']).None?
    decreases |queries|
  {
    if queries == [] then None
    else if attempt(queries[0]).Some? then attempt(queries[0])
    else
      var r := FirstFound(queries[1..], attempt);
      assert forall j :: 1 <= j < |queries| ==> queries[j] == queries[1..][j - 1];
      r
  }

  function AttemptFor(attempt: (string, string) -> Option<Entry>, upc: string): string -> Option<Entry>
  {
    (query: string) => attempt(upc, query)
  }

  /** The result of a missing row: the first of its name's queries that finds the product. */
  function Retried(queries: string -> seq<string>, attempt: (string, string) -> Option<Entry>)
    : ((string, string)) -> Option<Entry>
  {
    (key: (string, string)) => FirstFound(queries(key.1), AttemptFor(attempt, key.0))
  }

  /** The query loop of one row, which stops at the first query that finds the product. */
  method RetryRow(upc: string, name: string, queries: string -> seq<string>,
                  attempt: (string, string) -> Option<Entry>) returns (found: Option<Entry>)
    ensures found == Retried(queries, attempt)((upc, name))
  {
    var qs := queries(name);
    ghost var g := AttemptFor(attempt, upc);
    found := None;
    var j := 0;
    while j < |qs| && found.None?
      invariant 0 <= j <= |qs|
      invariant FirstFound(qs, g) == if found.Some? then found else FirstFound(qs[j..], g)
      decreases |qs| - j
    {
      assert qs[j..][1..] == qs[j + 1..];
      found := attempt(upc, qs[j]);
      j := j + 1;
    }
  }

  /** The loop over the missing rows: the row each finds, in order. */
  method RetryKeys(missing: seq<(string, string)>, queries: string -> seq<string>,
                   attempt: (string, string) -> Option<Entry>) returns (found: seq<Entry>)
    ensures found == Gather(missing, Retried(queries, attempt))
  {
    ghost var f := Retried(queries, attempt);
    found := [];
    var i := 0;
    while i < |missing|
      invariant 0 <= i <= |missing|
      invariant found == Gather(missing[..i], f)
      decreases |missing| - i
    {
      PrefixSnoc(missing, i);
      GatherStep(missing[..i], missing[i], f);
      var key := missing[i];
      var hit := RetryRow(key.0, key.1, queries, attempt);
      if hit.Some? {
        found := found + [hit.value];
      }
      i := i + 1;
    }
    assert missing[..|missing|] == missing;
  }

  /**
   * A retry of one site: nothing is written when no row is missing;
   * otherwise the old results followed by one row per missing row that
   * some query found, in sheet order, and the number of those.
   */
  method RetrySite(existing: seq<Entry>, rows: seq<Row>, queries: string -> seq<string>,
                   attempt: (string, string) -> Option<Entry>) returns (written: Option<seq<Entry>>, newMatches: nat)
    ensures Missing(rows, existing) == [] ==> written.None? && newMatches == 0
    ensures Missing(rows, existing) != [] ==>
              written == Some(existing + Gather(Missing(rows, existing), Retried(queries, attempt)))
    ensures newMatches == |Gather(Missing(rows, existing), Retried(queries, attempt))|
  {
    var missing := Missing(rows, existing);
    if missing == [] {
      assert Gather(missing, Retried(queries, attempt)) == [];
      return None, 0;
    }
    var found := RetryKeys(missing, queries, attempt);
    written, newMatches := Some(existing + found), |found|;
  }

  /** Every attempt's row carries the UPC it was made for. */
  ghost predicate KeepsUpc(attempt: (string, string) -> Option<Entry>)
  {
    forall upc, query :: attempt(upc, query).Some? ==> attempt(upc, query).value.upc == upc
  }

  /** One new row: it comes from a missing row, whose UPC it carries. */
  lemma NewRowIsMissing(rows: seq<Row>, existing: seq<Entry>, queries: string -> seq<string>,
                        attempt: (string, string) -> Option<Entry>, i: nat)
    requires KeepsUpc(attempt)
    requires i < |Gather(Missing(rows, existing), Retried(queries, attempt))|
    ensures var e := Gather(Missing(rows, existing), Retried(queries, attempt))[i];
            exists k :: k in Missing(rows, existing) && k.0 == e.upc
  {
    NewRowOfKeys(Missing(rows, existing), queries, attempt, i);
  }

  /** Each row a retry finds carries the UPC of the key it was found for. */
  lemma NewRowOfKeys(missing: seq<(string, string)>, queries: string -> seq<string>,
                     attempt: (string, string) -> Option<Entry>, i: nat)
    requires KeepsUpc(attempt)
    requires i < |Gather(missing, Retried(queries, attempt))|
    ensures var e := Gather(missing, Retried(queries, attempt))[i];
            exists k :: k in missing && k.0 == e.upc
  {
    var f := Retried(queries, attempt);
    var g := Gather(missing, f);
    var src := GatherSpec(missing, f);
    var key := missing[src[i]];
    assert f(key) == Some(g[i]);
    var j :| 0 <= j < |queries(key.1)| && Some(g[i]) == AttemptFor(attempt, key.0)(queries(key.1)[j]);
    assert attempt(key.0, queries(key.1)[j]) == Some(g[i]);
  }

  /**
   * With attempts that keep the UPC, the new rows are for missing rows
   * only, one at most per missing row: each carries a non-empty UPC of a
   * sheet row that had no result.
   */
  lemma NewRowsAreMissing(rows: seq<Row>, existing: seq<Entry>, queries: string -> seq<string>,
                          attempt: (string, string) -> Option<Entry>)
    requires KeepsUpc(attempt)
    ensures |Gather(Missing(rows, existing), Retried(queries, attempt))| <= |Missing(rows, existing)|
    ensures forall e :: e in Gather(Missing(rows, existing), Retried(queries, attempt)) ==>
              e.upc != "" && e.upc !in Done(existing)
              && exists r :: 0 <= r < |rows| && ScraperLib.GetUpc(rows[r]) == e.upc
  {
    forall e | e in Gather(Missing(rows, existing), Retried(queries, attempt))
      ensures e.upc != "" && e.upc !in Done(existing)
              && exists r :: 0 <= r < |rows| && ScraperLib.GetUpc(rows[r]) == e.upc
    {
      NewRowMissing(rows, existing, queries, attempt, e);
    }
  }

  /** One new row carries a non-empty UPC of a sheet row that had no result. */
  lemma NewRowMissing(rows: seq<Row>, existing: seq<Entry>, queries: string -> seq<string>,
                      attempt: (string, string) -> Option<Entry>, e: Entry)
    requires KeepsUpc(attempt)
    requires e in Gather(Missing(rows, existing), Retried(queries, attempt))
    ensures e.upc != "" && e.upc !in Done(existing)
            && exists r :: 0 <= r < |rows| && ScraperLib.GetUpc(rows[r]) == e.upc
  {
    var g := Gather(Missing(rows, existing), Retried(queries, attempt));
    var i :| 0 <= i < |g| && g[i] == e;
    NewRowIsMissing(rows, existing, queries, attempt, i);
    var k :| k in Missing(rows, existing) && k.0 == e.upc;
    MissingSpec(rows, existing, k);
    var r :| 0 <= r < |rows| && ScraperLib.RowKey(rows[r]) == k;
  }

  /** What one site's retry reads: its earlier results, its sheet and the site as the browser sees it. */
  datatype Site = Site(existing: seq<Entry>, rows: seq<Row>, web: Web)

  /** The new rows of a site's retry. */
  function NewRows(site: Site, queries: string -> seq<string>, attempt: (string, string) -> Option<Entry>): seq<Entry>
  {
    Gather(Missing(site.rows, site.existing), Retried(queries, attempt))
  }
}
