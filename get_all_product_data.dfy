/**
 * The one-pass scraper for a whole sheet: for each row it finds the
 * product page (the row's own URL, else the first site search that lists
 * product links), extracts title, description, image URL and
 * dimensions, refuses generic store pages and repeated titles, and
 * writes exactly one output row per processed sheet row.
 */
module GetAllProductData {
  import opened Wrappers
  import opened Text
  import opened Json
  import opened Sheet
  import opened Sites
  import opened Url
  import AnalyzeSite
  import ScraperLib
  import ProbeSiteStructure
  import EP = ExtractProductData

  // ------------------------------------------------------------------
  // Search URLs

  /** `f"{base}/{path}{q}{tail}"` */
  function SearchUnder(base: string, path: string, q: string, tail: string): (u: string)
    ensures StartsWith(u, base + "/")
  {
    var u := base + "/" + path + q + tail;
    assert u[..|base + "/"|] == base + "/";
    u
  }

  /** With no tail, the URL is the base, the slash and path, and the query. */
  lemma SearchUnderNoTail(base: string, path: string, q: string)
    ensures SearchUnder(base, path, q, "") == base + ("/" + path) + q
  {
    assert base + "/" + path + q + "" == base + "/" + path + q;
    assert base + "/" + path == base + ("/" + path);
  }

  /**
   * `get_search_urls`: nothing for an empty base or a blank query; the
   * site's template alone when it has one; otherwise three default
   * search URLs under the base. The first URL is always the one
   * probe_site_structure builds for the same site and query.
   */
  function GetSearchUrls(cfg: SiteConfig, query: string): (urls: seq<string>)
    ensures urls == [] <==> ProbeSiteStructure.GetSearchUrl(cfg, query).None?
    ensures urls != [] ==> urls[0] == ProbeSiteStructure.GetSearchUrl(cfg, query).value
    ensures urls != [] ==> |urls| == (if cfg.searchUrl != "" then 1 else 3)
    ensures cfg.searchUrl == "" ==> forall u :: u in urls ==> StartsWith(u, RStripCh(cfg.baseUrl, '/') + "/")
  {
    var base := RStripCh(cfg.baseUrl, '/');
    if base == "" || Strip(query) == "" then []
    else
      var q := QuotePlus(Strip(query));
      if cfg.searchUrl != "" then [ProbeSiteStructure.SubstituteSearch(cfg.searchUrl, base, q)]
      else
        assert SearchUnder(base, "search?q=", q, "") == base + "/search?q=" + q by {
          SearchUnderNoTail(base, "search?q=", q);
          assert "/" + "search?q=" == "/search?q=";
        }
        [SearchUnder(base, "search?q=", q, ""), SearchUnder(base, "search?q=", q, "&type=product"),
         SearchUnder(base, "products?q=", q, "")]
  }

  // ------------------------------------------------------------------
  // Generic pages

  const GenericSuffixes: seq<string> := [" toy shop", " store", " distribution", " productions", " games, inc.", " - official"]

  predicate GenericSuffix(lower: string)
  {
    exists i :: 0 <= i < |GenericSuffixes| && EndsWith(lower, GenericSuffixes[i])
  }

  predicate IsSchemeChar(c: char) { IsAlnum(c) || c == '+' || c == '-' || c == '.' }

  /** What `urlparse` leaves once a valid `scheme:` prefix is removed; the whole URL when it has none. */
  function AfterScheme(url: string): (r: string)
    ensures |r| <= |url|
  {
    var s := Before(url, ':');
    BeforeDrops(url, ':');
    if |s| < |url| && |s| > 0 && (IsLowerAlpha(s[0]) || IsUpperAlpha(s[0])) && All(s, IsSchemeChar)
    then url[|s| + 1..] else url
  }

  /** Everything before the first `/`, `?` or `#`. */
  function UntilPath(s: string): string
    decreases |s|
  {
    if |s| == 0 || s[0] == '/' || s[0] == '?' || s[0] == '#' then "" else [s[0]] + UntilPath(s[1..])
  }

  /** `urlparse(url).netloc`: the authority after `//`, or "" when the URL has none. */
  function Netloc(url: string): string
  {
    var rest := AfterScheme(url);
    if StartsWith(rest, "//") then UntilPath(rest[2..]) else ""
  }

  /** `netloc.lower().replace("www.", "").split(".")[0]` */
  function HostLabel(baseUrl: string): string
  {
    Before(ReplaceAll(Lower(Netloc(baseUrl)), "www.", ""), '.')
  }

  /**
   * `is_generic_page` as written: a blank title is never generic; a title
   * already saved for another product is; a title under 50 characters is
   * when it ends with a store-like suffix or contains (or starts with)
   * the site's host label. An empty host label is contained in every
   * title.
   */
  function IsGenericPageAsWritten(title: string, baseUrl: string, seen: set<string>): (g: bool)
    ensures Strip(title) == "" ==> !g
    ensures Strip(title) != "" && Strip(title) in seen ==> g
  {
    var t := Strip(title);
    if t == "" then false
    else if t in seen then true
    else if |t| < 50 then
      var lower := Lower(t);
      GenericSuffix(lower) || Contains(lower, HostLabel(baseUrl)) || StartsWith(Lower(t), HostLabel(baseUrl))
    else false
  }

  /** With no host label, every short title that was not seen before counts as a store page. */
  lemma EmptyHostMakesShortTitlesGeneric(title: string, baseUrl: string, seen: set<string>)
    requires HostLabel(baseUrl) == ""
    requires Strip(title) != "" && |Strip(title)| < 50
    ensures IsGenericPageAsWritten(title, baseUrl, seen)
  {
    assert StartsWith(Lower(Strip(title)), HostLabel(baseUrl));
  }

  /** A suffix match fixes the last character. */
  lemma EndsWithLast(s: string, p: string)
    requires |p| > 0 && EndsWith(s, p)
    ensures s[|s| - 1] == p[|p| - 1]
  {
    assert s[|s| - |p|..][|p| - 1] == s[|s| - 1];
  }

  /** No store-like suffix ends in 't'. */
  lemma NoSuffixEndsInT(lower: string)
    requires |lower| > 0 && lower[|lower| - 1] == 't'
    ensures !GenericSuffix(lower)
  {
    forall i | 0 <= i < |GenericSuffixes| ensures !EndsWith(lower, GenericSuffixes[i]) {
      if EndsWith(lower, GenericSuffixes[i]) {
        EndsWithLast(lower, GenericSuffixes[i]);
      }
    }
  }

  /** With an empty base URL, an ordinary product title such as "Robot" is refused as written, but not as intended. */
  lemma EmptyBaseRefusesProducts()
    ensures HostLabel("") == ""
    ensures IsGenericPageAsWritten("Robot", "", {})
    ensures !IsGenericPage("Robot", "", {})
  {
    assert Strip("Robot") == "Robot";
    assert Lower("Robot") == "robot";
    EmptyHostMakesShortTitlesGeneric("Robot", "", {});
    NoSuffixEndsInT("robot");
  }

  /**
   * `is_generic_page` as evidently intended: the host test applies only
   * when the base URL has a host label. Wherever it has one, this agrees
   * with the code as written.
   */
  function IsGenericPage(title: string, baseUrl: string, seen: set<string>): (g: bool)
    ensures Strip(title) == "" ==> !g
    ensures Strip(title) != "" && Strip(title) in seen ==> g
    ensures |Strip(title)| >= 50 && Strip(title) !in seen ==> !g
    ensures g && Strip(title) !in seen ==>
              GenericSuffix(Lower(Strip(title))) || (HostLabel(baseUrl) != "" && Contains(Lower(Strip(title)), HostLabel(baseUrl)))
    ensures g ==> IsGenericPageAsWritten(title, baseUrl, seen)
    ensures HostLabel(baseUrl) != "" ==> g == IsGenericPageAsWritten(title, baseUrl, seen)
  {
    var t := Strip(title);
    var host := HostLabel(baseUrl);
    if t == "" then false
    else if t in seen then true
    else if |t| < 50 then
      var lower := Lower(t);
      GenericSuffix(lower) || (host != "" && Contains(lower, host))
    else false
  }

  // ------------------------------------------------------------------
  // Extraction

  datatype Fields = Fields(title: string, description: string, imageUrl: string, dimensions: string)

  const NoFields: Fields := Fields("", "", "", "")

  /** A non-empty string image, or a list whose first element is a string, stripped; otherwise "". */
  function LdImage(img: Option<Json>): string
  {
    match img
    case Some(JStr(s)) => Strip(s)
    case Some(JArr(xs)) => if xs != [] && xs[0].JStr? then Strip(xs[0].s) else ""
    case _ => ""
  }

  /**
   * The fields a JSON-LD Product fills: stripped name (500) and
   * description (5000), the image rule and the weight. `None` where the
   * script would fail on a non-string name or description, and where the
   * weight's value or unit is a list or dict, which Python prints but
   * whose printed form is not modelled.
   */
  function FromProduct(ld: Json): (r: Option<Fields>)
    ensures r.Some? <==> StrOrEmpty(ld, "name").Some? && StrOrEmpty(ld, "description").Some? && EP.Dimensions(ld).Some?
    ensures r.Some? ==> |r.value.title| <= 500 && |r.value.description| <= 5000
    ensures r.Some? ==> var name := Strip(StrOrEmpty(ld, "name").value);
              |r.value.title| == (if |name| < 500 then |name| else 500) && r.value.title == name[..|r.value.title|]
    ensures r.Some? ==> var desc := Strip(StrOrEmpty(ld, "description").value);
              |r.value.description| == (if |desc| < 5000 then |desc| else 5000)
              && r.value.description == desc[..|r.value.description|]
    ensures r.Some? ==> r.value.imageUrl == LdImage(Get(ld, "image"))
    ensures r.Some? ==> r.value.dimensions == EP.Dimensions(ld).value
  {
    var name := StrOrEmpty(ld, "name");
    var desc := StrOrEmpty(ld, "description");
    var dims := EP.Dimensions(ld);
    if name.None? || desc.None? || dims.None? then None
    else Some(Fields(Take(Strip(name.value), 500), Take(Strip(desc.value), 5000), LdImage(Get(ld, "image")), dims.value))
  }

  /**
   * The JSON-LD scan: the first block that is a Product dict or a list
   * ends it; a list gives its first Product, if any. The scan finds a
   * Product exactly when analyze_site's JSON-LD flag is set for the
   * same blocks.
   */
  function SelectLd(blocks: seq<Option<Json>>): (r: Option<Json>)
    ensures r.Some? ==> IsProduct(r.value)
    ensures r.Some? == AnalyzeSite.LdProductFlag(blocks)
    decreases |blocks|
  {
    if |blocks| == 0 then None
    else if AnalyzeSite.Decides(blocks[0]) then
      (if IsProduct(blocks[0].value) then blocks[0] else FirstProduct(blocks[0].value.items))
    else SelectLd(blocks[1..])
  }

  /** The scan loop of `extract_from_html`, with its breaks. */
  method ScanLd(blocks: seq<Option<Json>>) returns (ld: Option<Json>)
    ensures ld == SelectLd(blocks)
  {
    ld := None;
    var i := 0;
    while i < |blocks|
      invariant 0 <= i <= |blocks|
      invariant ld.None?
      invariant SelectLd(blocks) == SelectLd(blocks[i..])
      decreases |blocks| - i
    {
      assert blocks[i..][1..] == blocks[i + 1..];
      var b := blocks[i];
      if b.Some? && IsProduct(b.value) {
        ld := b;
        break;
      }
      if b.Some? && b.value.JArr? {
        ld := FirstProduct(b.value.items);
        break;
      }
      i := i + 1;
    }
  }

  /** An og property fills a field only while that field is still empty. */
  function OgFill(cur: string, og: map<string, string>, prop: string, n: nat): (r: string)
    ensures cur != "" ==> r == cur
    ensures |cur| <= n ==> |r| <= n
  {
    if cur == "" && prop in og && og[prop] != "" then Take(Strip(og[prop]), n) else cur
  }

  /** The og fallback: title, description, then og:image and og:image:secure_url for the image. */
  function OgFallback(f: Fields, og: map<string, string>): Fields
  {
    var image := OgFill(OgFill(f.imageUrl, og, "og:image", 500), og, "og:image:secure_url", 500);
    f.(title := OgFill(f.title, og, "og:title", 500), description := OgFill(f.description, og, "og:description", 5000),
       imageUrl := image)
  }

  /** The first `<meta name="description">`, when the description is still empty and the tag has content. */
  function MetaFallback(f: Fields, p: EP.Page): Fields
  {
    if f.description == "" && |p.metaDescriptions| > 0 && p.metaDescriptions[0].Some? && p.metaDescriptions[0].value != ""
    then f.(description := Take(Strip(p.metaDescriptions[0].value), 5000)) else f
  }

  /** The fields the JSON-LD Product gives, or none at all. */
  function LdFields(p: EP.Page): Option<Fields>
  {
    var ld := SelectLd(p.ldBlocks);
    if ld.None? then Some(NoFields) else FromProduct(ld.value)
  }

  /**
   * `extract_from_html`: the JSON-LD Product first; og tags only when it
   * gave no title, each filling only an empty field (so
   * og:image:secure_url never replaces og:image); then the meta
   * description for an empty description. Dimensions come from JSON-LD
   * alone.
   */
  function ExtractFromHtml(p: EP.Page): (r: Option<Fields>)
    ensures r.Some? <==> LdFields(p).Some?
    ensures r.Some? ==> |r.value.title| <= 500 && |r.value.description| <= 5000
    ensures r.Some? ==> r.value.dimensions == LdFields(p).value.dimensions
    ensures r.Some? && LdFields(p).value.title != "" ==>
              r.value.title == LdFields(p).value.title && r.value.imageUrl == LdFields(p).value.imageUrl
    ensures r.Some? && LdFields(p).value.title == "" && LdFields(p).value.imageUrl == ""
            && "og:image" in p.ogFirst && Strip(p.ogFirst["og:image"]) != "" ==>
              r.value.imageUrl == Take(Strip(p.ogFirst["og:image"]), 500)
    ensures r.Some? && LdFields(p).value.description != "" ==> r.value.description == LdFields(p).value.description
  {
    match LdFields(p)
    case None => None
    case Some(f) =>
      var g := if f.title == "" then OgFallback(f, p.ogFirst) else f;
      Some(MetaFallback(g, p))
  }

  /** A page that says it refused the request: "403", "Forbidden" or "sgcaptcha" near its start. */
  predicate Refused(html: string)
  {
    Contains(Take(html, 1000), "403") || Contains(Take(html, 2000), "Forbidden") || Contains(Take(html, 2000), "sgcaptcha")
  }

  /** A refusal page with no title, description or image keeps no dimensions either. */
  function Unrefused(f: Fields, html: string): (r: Fields)
    ensures f.title == "" && f.description == "" && f.imageUrl == "" && Refused(html) ==> r == NoFields
    ensures !(f.title == "" && f.description == "" && f.imageUrl == "") || !Refused(html) ==> r == f
  {
    if f.title == "" && f.description == "" && f.imageUrl == "" && Refused(html) then NoFields else f
  }

  // ------------------------------------------------------------------
  // Choosing a search result

  /** `len(w) > 2` for the words of the lower-cased query. */
  function LongWords(ws: seq<string>): (r: seq<string>)
    ensures forall i :: 0 <= i < |r| ==> |r[i]| > 2 && r[i] in ws
    ensures forall w :: w in ws && |w| > 2 ==> w in r
  {
    if ws == [] then [] else (if |ws[0]| > 2 then [ws[0]] else []) + LongWords(ws[1..])
  }

  /** The index of the first link whose lower-cased form contains `q`; `|links|` when none does. */
  function FirstContaining(links: seq<string>, q: string): (k: nat)
    ensures k <= |links|
    ensures k < |links| ==> Contains(Lower(links[k]), q)
    ensures forall j :: 0 <= j < k ==> !Contains(Lower(links[j]), q)
    decreases |links|
  {
    if |links| == 0 then 0
    else if Contains(Lower(links[0]), q) then 0
    else 1 + FirstContaining(links[1..], q)
  }

  /** The index of the first link containing one of `ws`; `|links|` when none does. */
  function FirstContainingAny(links: seq<string>, ws: seq<string>): (k: nat)
    ensures k <= |links|
    ensures k < |links| ==> ContainsAny(Lower(links[k]), ws)
    ensures forall j :: 0 <= j < k ==> !ContainsAny(Lower(links[j]), ws)
    decreases |links|
  {
    if |links| == 0 then 0
    else if ContainsAny(Lower(links[0]), ws) then 0
    else 1 + FirstContainingAny(links[1..], ws)
  }

  /**
   * `best_product_link`: no link gives `None`; an empty query the first
   * link; otherwise the first link containing the whole lower-cased
   * query, else the first containing one of its words longer than two
   * characters, else the first link.
   */
  function BestProductLink(links: seq<string>, query: string): (r: Option<string>)
    ensures r.None? <==> links == []
    ensures r.Some? ==> r.value in links
    ensures links != [] && query == "" ==> r == Some(links[0])
    ensures links != [] && query != "" && FirstContaining(links, Lower(query)) < |links| ==>
              Contains(Lower(r.value), Lower(query)) && r.value == links[FirstContaining(links, Lower(query))]
    ensures links != [] && query != "" && FirstContaining(links, Lower(query)) == |links|
            && FirstContainingAny(links, LongWords(Words(Lower(query)))) < |links| ==>
              ContainsAny(Lower(r.value), LongWords(Words(Lower(query))))
              && r.value == links[FirstContainingAny(links, LongWords(Words(Lower(query))))]
    ensures links != [] && query != "" && FirstContaining(links, Lower(query)) == |links|
            && FirstContainingAny(links, LongWords(Words(Lower(query)))) == |links| ==>
              r == Some(links[0])
  {
    if links == [] then None
    else if query == "" then Some(links[0])
    else
      var q := Lower(query);
      var k := FirstContaining(links, q);
      if k < |links| then Some(links[k])
      else
        var w := FirstContainingAny(links, LongWords(Words(q)));
        if w < |links| then Some(links[w]) else Some(links[0])
  }

  // ------------------------------------------------------------------
  // Sheet rows to process

  /** The characters `sanitize_id` replaces by an underscore. */
  predicate Unsafe(c: char)
  {
    c == '<' || c == '>' || c == ':' || c == '"' || c == '/' || c == '\\' || c == '|' || c == '?' || c == '*'
  }

  /** `sanitize_id`: strip, turn every unsafe character into "_", keep at most 200 characters. */
  function SanitizeId(pid: string): (r: string)
    ensures |r| == if |Strip(pid)| < 200 then |Strip(pid)| else 200
    ensures forall k :: 0 <= k < |r| ==> !Unsafe(r[k])
    ensures forall k :: 0 <= k < |r| ==> r[k] == (if Unsafe(Strip(pid)[k]) then '_' else Strip(pid)[k])
  {
    Take(MapChars(Strip(pid), (c: char) => if Unsafe(c) then '_' else c), 200)
  }

  /** An id that is already clean, stripped and short is kept as it is. */
  lemma SanitizeIdKeepsCleanIds(pid: string)
    requires NoEdgeSpace(pid) && |pid| <= 200
    requires forall k :: 0 <= k < |pid| ==> !Unsafe(pid[k])
    ensures SanitizeId(pid) == pid
  {
    StripOfNoEdge(pid);
  }

  datatype Item = Item(productId: string, upc: string, name: string, row: Row)

  /** The id, UPC and name of sheet row `i`: UPC, else the "Number" cell, else `row{i}`, sanitised. */
  function MakeItem(row: Row, i: nat): (it: Item)
    ensures |it.productId| <= 200
    ensures it.upc != "" ==> it.productId == SanitizeId(it.upc)
  {
    var upc := ProbeSiteStructure.FirstCellStripped(row, ScraperLib.UpcColumns);
    var name := ProbeSiteStructure.FirstCellStripped(row, ScraperLib.NameColumns);
    var id := if upc != "" then upc else if Cell(row, "Number") != "" then Cell(row, "Number") else "row" + NatText(i);
    Item(SanitizeId(id), upc, name, row)
  }

  /** How many rows the limit lets through: all for 0, one for a negative limit, at most `limit` otherwise. */
  function ItemCount(n: nat, limit: int): nat
  {
    if limit == 0 then n
    else if limit < 1 then (if n < 1 then n else 1)
    else if n < limit then n else limit
  }

  /** Appending the item of the next row keeps the items those of the rows. */
  lemma AppendItem(items: seq<Item>, rows: seq<Row>, it: Item)
    requires |items| < |rows| && it == MakeItem(rows[|items|], |items|)
    requires forall k :: 0 <= k < |items| ==> items[k] == MakeItem(rows[k], k)
    ensures forall k :: 0 <= k < |items| + 1 ==> (items + [it])[k] == MakeItem(rows[k], k)
  {
  }

  /** The `to_process` loop: one item per sheet row, stopping once the limit is reached. */
  method BuildItems(rows: seq<Row>, limit: int) returns (items: seq<Item>)
    ensures |items| == ItemCount(|rows|, limit) && |items| <= |rows|
    ensures forall k :: 0 <= k < |items| ==> items[k] == MakeItem(rows[k], k)
  {
    items := [];
    var i := 0;
    while i < |rows|
      invariant 0 <= i <= |rows| && |items| == i
      invariant limit != 0 ==> (limit < 1 ==> i == 0) && (limit >= 1 ==> i < limit)
      invariant forall k :: 0 <= k < i ==> items[k] == MakeItem(rows[k], k)
      decreases |rows| - i
    {
      var it := MakeItem(rows[i], i);
      AppendItem(items, rows, it);
      items := items + [it];
      i := i + 1;
      if limit != 0 && |items| >= limit {
        break;
      }
    }
  }

  // ------------------------------------------------------------------
  // One row

  datatype OutRow = OutRow(productId: string, title: string, description: string, imageUrl: string, dimensions: string)

  function EmptyRow(pid: string): OutRow
  {
    OutRow(pid, "", "", "", "")
  }

  /**
   * The browser's view of the site: the product links each search URL
   * lists (absent when navigation fails), and the page behind each
   * product URL (absent when it cannot be loaded).
   */
  datatype Web = Web(searchLinks: map<string, seq<string>>, pages: map<string, EP.Page>)

  predicate HasLinks(web: Web, u: string)
  {
    u in web.searchLinks && web.searchLinks[u] != []
  }

  /** The first search URL that lists links decides: its best link. */
  function SearchResult(urls: seq<string>, web: Web, query: string): (r: Option<string>)
    ensures r.Some? <==> exists k :: 0 <= k < |urls| && HasLinks(web, urls[k])
    ensures r.Some? ==> exists k :: 0 <= k < |urls| && HasLinks(web, urls[k]) && r.value in web.searchLinks[urls[k]]
                          && forall j :: 0 <= j < k ==> !HasLinks(web, urls[j])
    decreases |urls|
  {
    if |urls| == 0 then None
    else if HasLinks(web, urls[0]) then BestProductLink(web.searchLinks[urls[0]], query)
    else
      var r := SearchResult(urls[1..], web, query);
      assert forall k :: 1 <= k < |urls| ==> urls[k] == urls[1..][k - 1];
      assert r.Some? ==> exists k :: 1 <= k < |urls| && HasLinks(web, urls[k]) && r.value in web.searchLinks[urls[k]]
                           && forall j :: 0 <= j < k ==> !HasLinks(web, urls[j]) by {
        if r.Some? {
          var k :| 0 <= k < |urls[1..]| && HasLinks(web, urls[1..][k]) && r.value in web.searchLinks[urls[1..][k]]
                   && forall j :: 0 <= j < k ==> !HasLinks(web, urls[1..][j]);
          assert forall j :: 1 <= j < k + 1 ==> !HasLinks(web, urls[j]);
        }
      }
      r
  }

  /** The search loop of `main`, breaking at the first search that lists links. */
  method SearchProductUrl(urls: seq<string>, web: Web, query: string) returns (r: Option<string>)
    ensures r == SearchResult(urls, web, query)
  {
    r := None;
    var i := 0;
    while i < |urls|
      invariant 0 <= i <= |urls|
      invariant SearchResult(urls, web, query) == SearchResult(urls[i..], web, query)
      decreases |urls| - i
    {
      assert urls[i..][1..] == urls[i + 1..];
      if HasLinks(web, urls[i]) {
        r := BestProductLink(web.searchLinks[urls[i]], query);
        break;
      }
      i := i + 1;
    }
  }

  /** The row's own URL when it has a non-empty one, otherwise the search result. */
  function ProductUrl(it: Item, cfg: SiteConfig, web: Web, query: string): Option<string>
  {
    var direct := ProbeSiteStructure.GetRowUrl(it.row, cfg);
    if direct.Some? && direct.value != "" then direct
    else SearchResult(GetSearchUrls(cfg, query), web, query)
  }

  /**
   * Saving extracted data: a generic page gives an empty row and leaves
   * the seen titles alone; any other page is written and its stripped,
   * non-empty title joins the seen titles.
   */
  function SaveRow(pid: string, data: Fields, base: string, seen: set<string>): (r: (OutRow, set<string>))
    ensures r.0.productId == pid
    ensures IsGenericPage(data.title, base, seen) ==> r.0 == EmptyRow(pid) && r.1 == seen
    ensures !IsGenericPage(data.title, base, seen) ==>
              r.0 == OutRow(pid, Take(data.title, 500), Take(data.description, 5000), Strip(data.imageUrl), Strip(data.dimensions))
              && r.1 == seen + (if Strip(data.title) != "" then {Strip(data.title)} else {})
  {
    if IsGenericPage(data.title, base, seen) then (EmptyRow(pid), seen)
    else
      var t := Strip(data.title);
      (OutRow(pid, Take(data.title, 500), Take(data.description, 5000), Strip(data.imageUrl), Strip(data.dimensions)),
       seen + (if t != "" then {t} else {}))
  }

  /**
   * One iteration of the main loop: no query, no product URL or a page
   * that cannot be loaded give an empty row; otherwise the extracted
   * data, emptied on a refusal page, is saved unless generic. `None`
   * where extraction would fail.
   */
  function ProcessRow(it: Item, cfg: SiteConfig, web: Web, seen: set<string>): (r: Option<(OutRow, set<string>)>)
    ensures r.Some? ==> r.value.0.productId == it.productId
    ensures Strip(OrElse(it.name, it.upc)) == "" ==> r == Some((EmptyRow(it.productId), seen))
  {
    var query := Strip(OrElse(it.name, it.upc));
    if query == "" then Some((EmptyRow(it.productId), seen))
    else
      var url := ProductUrl(it, cfg, web, query);
      if url.None? || url.value == "" || url.value !in web.pages then Some((EmptyRow(it.productId), seen))
      else
        var page := web.pages[url.value];
        match ExtractFromHtml(page)
        case None => None
        case Some(f) => Some(SaveRow(it.productId, Unrefused(f, page.html), RStripCh(cfg.baseUrl, '/'), seen))
  }

  /** Every stripped, non-empty title of `rows` is in `now` and was not in `before`, and no two rows share one. */
  predicate TitlesRecorded(rows: seq<OutRow>, before: set<string>, now: set<string>)
  {
    before <= now
    && (forall k :: 0 <= k < |rows| && Strip(rows[k].title) != "" ==>
                      Strip(rows[k].title) in now && Strip(rows[k].title) !in before)
    && (forall i, j :: 0 <= i < j < |rows| && Strip(rows[i].title) != "" ==> Strip(rows[i].title) != Strip(rows[j].title))
  }

  /** One processed row records its title in the seen titles, and only that one. */
  lemma ProcessRowRecords(it: Item, cfg: SiteConfig, web: Web, seen: set<string>)
    requires ProcessRow(it, cfg, web, seen).Some?
    ensures var (row, now) := ProcessRow(it, cfg, web, seen).value;
            TitlesRecorded([row], seen, now)
            && now - seen <= (if Strip(row.title) != "" then {Strip(row.title)} else {})
  {
    var query := Strip(OrElse(it.name, it.upc));
    if query != "" {
      var url := ProductUrl(it, cfg, web, query);
      if !(url.None? || url.value == "" || url.value !in web.pages) {
        var page := web.pages[url.value];
        var f := ExtractFromHtml(page).value;
        var data := Unrefused(f, page.html);
        assert |data.title| <= 500;
        assert Take(data.title, 500) == data.title;
      }
    }
  }

  /** The rows of all items, threading the seen titles from one to the next. */
  function ProcessAll(items: seq<Item>, cfg: SiteConfig, web: Web, seen: set<string>): Option<(seq<OutRow>, set<string>)>
    decreases |items|
  {
    if items == [] then Some(([], seen))
    else
      match ProcessRow(items[0], cfg, web, seen)
      case None => None
      case Some((row, s1)) => Prepend([row], ProcessAll(items[1..], cfg, web, s1))
  }

  function Prepend(rows: seq<OutRow>, rest: Option<(seq<OutRow>, set<string>)>): Option<(seq<OutRow>, set<string>)>
  {
    match rest
    case None => None
    case Some((more, s)) => Some((rows + more, s))
  }

  lemma PrependTwice(a: seq<OutRow>, b: seq<OutRow>, rest: Option<(seq<OutRow>, set<string>)>)
    ensures Prepend(a, Prepend(b, rest)) == Prepend(a + b, rest)
  {
    if rest.Some? {
      assert a + (b + rest.value.0) == (a + b) + rest.value.0;
    }
  }

  /** Exactly one output row per item, in order, under the item's id. */
  lemma {:induction false} ProcessAllShape(items: seq<Item>, cfg: SiteConfig, web: Web, seen: set<string>)
    requires ProcessAll(items, cfg, web, seen).Some?
    ensures |ProcessAll(items, cfg, web, seen).value.0| == |items|
    ensures forall k :: 0 <= k < |items| ==> ProcessAll(items, cfg, web, seen).value.0[k].productId == items[k].productId
    decreases |items|
  {
    if items != [] {
      var (row, s1) := ProcessRow(items[0], cfg, web, seen).value;
      var rest := ProcessAll(items[1..], cfg, web, s1);
      assert ProcessAll(items, cfg, web, seen) == Prepend([row], rest);
      ProcessAllShape(items[1..], cfg, web, s1);
      var out := ProcessAll(items, cfg, web, seen).value.0;
      assert out == [row] + rest.value.0;
      forall k | 1 <= k < |items|
        ensures out[k].productId == items[k].productId
      {
        assert out[k] == rest.value.0[k - 1] && items[k] == items[1..][k - 1];
      }
    }
  }

  /**
   * The seen titles keep saved rows apart: no two output rows carry the
   * same stripped, non-empty title, and none of them was seen before.
   */
  lemma {:induction false} SavedTitlesDistinct(items: seq<Item>, cfg: SiteConfig, web: Web, seen: set<string>)
    requires ProcessAll(items, cfg, web, seen).Some?
    ensures TitlesRecorded(ProcessAll(items, cfg, web, seen).value.0, seen, ProcessAll(items, cfg, web, seen).value.1)
    decreases |items|
  {
    if items != [] {
      var (row, s1) := ProcessRow(items[0], cfg, web, seen).value;
      ProcessRowRecords(items[0], cfg, web, seen);
      SavedTitlesDistinct(items[1..], cfg, web, s1);
      var (more, s2) := ProcessAll(items[1..], cfg, web, s1).value;
      TitlesRecordedCons(row, more, seen, s1, s2);
    }
  }

  /** Recording one row and then a list of rows records all of them. */
  lemma TitlesRecordedCons(row: OutRow, more: seq<OutRow>, seen: set<string>, s1: set<string>, s2: set<string>)
    requires TitlesRecorded([row], seen, s1)
    requires s1 - seen <= (if Strip(row.title) != "" then {Strip(row.title)} else {})
    requires TitlesRecorded(more, s1, s2)
    ensures TitlesRecorded([row] + more, seen, s2)
  {
    var rows := [row] + more;
    forall k | 0 <= k < |rows| && Strip(rows[k].title) != ""
      ensures Strip(rows[k].title) in s2 && Strip(rows[k].title) !in seen
    {
      if k > 0 {
        assert rows[k] == more[k - 1];
        assert Strip(rows[k].title) !in s1;
      } else {
        assert rows[0] == [row][0];
      }
    }
    forall i, j | 0 <= i < j < |rows| && Strip(rows[i].title) != ""
      ensures Strip(rows[i].title) != Strip(rows[j].title)
    {
      assert rows[j] == more[j - 1];
      if i > 0 {
        assert rows[i] == more[i - 1];
      } else {
        assert rows[0] == [row][0];
        assert Strip(row.title) in s1;
      }
    }
  }

  /** One pass of the main loop: the next item's row, or the failure that ends the run. */
  method ProcessNext(items: seq<Item>, i: nat, cfg: SiteConfig, web: Web, rows: seq<OutRow>, seen: set<string>)
    returns (failed: bool, rows': seq<OutRow>, seen': set<string>)
    requires i < |items|
    ensures failed ==> ProcessAll(items[i..], cfg, web, seen).None?
    ensures !failed ==> Prepend(rows, ProcessAll(items[i..], cfg, web, seen)) == Prepend(rows', ProcessAll(items[i + 1..], cfg, web, seen'))
  {
    assert items[i..][1..] == items[i + 1..];
    var step := ProcessRow(items[i], cfg, web, seen);
    failed, rows', seen' := step.None?, rows, seen;
    if !failed {
      var (row, s1) := step.value;
      assert ProcessAll(items[i..], cfg, web, seen) == Prepend([row], ProcessAll(items[i + 1..], cfg, web, s1));
      PrependTwice(rows, [row], ProcessAll(items[i + 1..], cfg, web, s1));
      rows', seen' := rows + [row], s1;
    }
  }

  /** The main loop: one row per item, the seen titles carried along; `None` where the script would fail. */
  method ProcessRows(items: seq<Item>, cfg: SiteConfig, web: Web) returns (results: Option<seq<OutRow>>)
    ensures results.None? <==> ProcessAll(items, cfg, web, {}).None?
    ensures results.Some? ==> results.value == ProcessAll(items, cfg, web, {}).value.0
  {
    var rows: seq<OutRow> := [];
    var seen: set<string> := {};
    var i := 0;
    assert items[0..] == items;
    assert ProcessAll(items, cfg, web, {}).Some? ==> [] + ProcessAll(items, cfg, web, {}).value.0 == ProcessAll(items, cfg, web, {}).value.0;
    while i < |items|
      invariant 0 <= i <= |items|
      invariant ProcessAll(items, cfg, web, {}) == Prepend(rows, ProcessAll(items[i..], cfg, web, seen))
      decreases |items| - i
    {
      var failed;
      failed, rows, seen := ProcessNext(items, i, cfg, web, rows, seen);
      if failed {
        return None;
      }
      i := i + 1;
    }
    assert rows + [] == rows;
    results := Some(rows);
  }

  // ------------------------------------------------------------------
  // Images and the summary

  /** The saved image's extension: ".png" or ".webp" when the lower-cased URL mentions one, else ".jpg". */
  function ImageExt(url: string): (ext: string)
    ensures ext in {".png", ".webp", ".jpg"}
    ensures ext == ".png" <==> Contains(Lower(url), ".png")
  {
    if Contains(Lower(url), ".png") then ".png" else if Contains(Lower(url), ".webp") then ".webp" else ".jpg"
  }

  /** Without a query string or a ".gif", the extension is the one of scraper_lib's image helper. */
  lemma ImageExtAgreesWithShared(url: string)
    requires forall i :: 0 <= i < |url| ==> url[i] != '?'
    requires !Contains(Lower(url), ".gif")
    ensures ImageExt(url) == ScraperLib.ImgExt(url)
  {
    assert forall i :: 0 <= i < |Lower(url)| ==> Lower(url)[i] != '?';
    ScraperLib.BeforeAbsent(Lower(url), "", '?');
  }

  /** `download_image` only tries URLs starting with "http". */
  predicate WantsDownload(url: string)
  {
    url != "" && StartsWith(url, "http")
  }

  /** The image file of a row: its id with the extension of its image URL. */
  function ImageFile(row: OutRow): (name: string)
    ensures StartsWith(name, row.productId)
  {
    var name := row.productId + ImageExt(row.imageUrl);
    assert name[..|row.productId|] == row.productId;
    name
  }

  predicate HasData(r: OutRow)
  {
    r.title != "" || r.description != "" || r.imageUrl != ""
  }

  /** The "with data" count of the summary line. */
  function CountWithData(rows: seq<OutRow>): (n: nat)
    ensures n <= |rows|
    ensures n == 0 <==> forall k :: 0 <= k < |rows| ==> !HasData(rows[k])
    decreases |rows|
  {
    if rows == [] then 0
    else
      var r := CountWithData(rows[1..]);
      assert forall k :: 1 <= k < |rows| ==> rows[k] == rows[1..][k - 1];
      (if HasData(rows[0]) then 1 else 0) + r
  }
}
