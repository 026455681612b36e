/**
 * The helpers shared by the per-site scrapers: sheet column lookup,
 * JSON-LD Product selection, page field extraction, image extension and
 * the CSV projection of result rows.
 */
module ScraperLib {
  import opened Wrappers
  import opened Text
  import opened Json
  import opened Sheet

  const UpcColumns: seq<string> := ["UPC Code", "Origin(UPC)", "Lookup Code"]
  const NameColumns: seq<string> := ["Name(En)", "Item Name"]

  /** The first of the UPC columns whose stripped text has at least 5 characters, else "". */
  function GetUpc(row: Row): (r: string)
    ensures r == "" || |r| >= 5
    ensures r == "" <==> forall k :: 0 <= k < |UpcColumns| ==> |Strip(Cell(row, UpcColumns[k]))| < 5
    ensures r != "" ==> exists k :: 0 <= k < |UpcColumns| && r == Strip(Cell(row, UpcColumns[k]))
                          && forall j :: 0 <= j < k ==> |Strip(Cell(row, UpcColumns[j]))| < 5
  {
    FirstStripped(row, UpcColumns, 5)
  }

  /** The first non-empty stripped name column, else "". */
  function GetName(row: Row): (r: string)
    ensures r == "" <==> forall k :: 0 <= k < |NameColumns| ==> Strip(Cell(row, NameColumns[k])) == ""
    ensures r != "" ==> exists k :: 0 <= k < |NameColumns| && r == Strip(Cell(row, NameColumns[k]))
                          && forall j :: 0 <= j < k ==> Strip(Cell(row, NameColumns[j])) == ""
  {
    FirstStripped(row, NameColumns, 1)
  }

  /** `(get_upc(row), get_name(row))`, the pair the matching loops test first. */
  function RowKey(row: Row): (string, string)
  {
    (GetUpc(row), GetName(row))
  }

  /** A row's UPC and name are already stripped: stripping either again changes nothing. */
  lemma RowKeyStripped(row: Row)
    ensures Strip(RowKey(row).0) == RowKey(row).0 && Strip(RowKey(row).1) == RowKey(row).1
  {
    var upc := GetUpc(row);
    if upc == "" {
      StripIdempotent("");
    } else {
      var k :| 0 <= k < |UpcColumns| && upc == Strip(Cell(row, UpcColumns[k]));
      StripIdempotent(Cell(row, UpcColumns[k]));
    }
    var name := GetName(row);
    if name == "" {
      StripIdempotent("");
    } else {
      var k :| 0 <= k < |NameColumns| && name == Strip(Cell(row, NameColumns[k]));
      StripIdempotent(Cell(row, NameColumns[k]));
    }
  }

  /** The keys of the sheet rows, in order. */
  function RowKeys(rows: seq<Row>): (keys: seq<(string, string)>)
    ensures |keys| == |rows|
    ensures forall i :: 0 <= i < |rows| ==> keys[i] == RowKey(rows[i])
  {
    seq(|rows|, i requires 0 <= i < |rows| => RowKey(rows[i]))
  }

  // ------------------------------------------------------------------
  // JSON-LD

  /**
   * What one parsed ld+json block yields: the block itself when it is a
   * Product, else the first Product of a list, else the first Product of
   * a dict's `@graph` list.
   */
  function BlockProduct(b: Json): (r: Option<Json>)
    ensures r.Some? ==> IsProduct(r.value)
  {
    if IsProduct(b) then Some(b)
    else if b.JArr? then FirstProduct(b.items)
    else if b.JObj? && "@graph" in b.fields && b.fields["@graph"].JArr? then FirstProduct(b.fields["@graph"].items)
    else None
  }

  /** Whether block `k` parsed and yields a Product. */
  predicate Yields(blocks: seq<Option<Json>>, k: int)
    requires 0 <= k < |blocks|
  {
    blocks[k].Some? && BlockProduct(blocks[k].value).Some?
  }

  /**
   * The Product of the first block, in document order, that yields one;
   * blocks that did not parse (`None`) are skipped.
   */
  function ExtractJsonLdProduct(blocks: seq<Option<Json>>): (r: Option<Json>)
    ensures r.Some? ==> IsProduct(r.value)
    ensures r.None? <==> forall k :: 0 <= k < |blocks| ==> !Yields(blocks, k)
    ensures r.Some? ==> exists k :: 0 <= k < |blocks| && Yields(blocks, k)
                          && r == BlockProduct(blocks[k].value)
                          && forall j :: 0 <= j < k ==> !Yields(blocks, j)
    decreases |blocks|
  {
    if |blocks| == 0 then None
    else if Yields(blocks, 0) then BlockProduct(blocks[0].value)
    else
      var r := ExtractJsonLdProduct(blocks[1..]);
      assert forall k :: 1 <= k < |blocks| ==> (Yields(blocks, k) <==> Yields(blocks[1..], k - 1));
      assert r.Some? ==> exists k :: 1 <= k < |blocks| && Yields(blocks, k)
                           && r == BlockProduct(blocks[k].value)
                           && forall j :: 0 <= j < k ==> !Yields(blocks, j) by {
        if r.Some? {
          var k :| 0 <= k < |blocks[1..]| && Yields(blocks[1..], k)
                   && r == BlockProduct(blocks[1..][k].value)
                   && forall j :: 0 <= j < k ==> !Yields(blocks[1..], j);
          assert blocks[1..][k] == blocks[k + 1];
        }
      }
      r
  }

  /** The three fields every scraper takes from a product page. */
  datatype PageData = PageData(title: string, description: string, imageUrl: string)

  /**
   * `obj.get(key, "")` when the value is a string. A present value that is
   * not a string gives `None`: the script would fail on it.
   */
  function StrField(j: Json, key: string): Option<string>
  {
    match Get(j, key)
    case None => Some("")
    case Some(JStr(s)) => Some(s)
    case Some(_) => None
  }

  /**
   * The image rule: a string as is; a non-empty list by its first element
   * (a string, or a dict's "url"); a dict by its "url"; anything else "".
   * `None` where the script would fail or produce a non-string.
   */
  function ImageOf(img: Option<Json>): Option<string>
  {
    match img
    case Some(JStr(s)) => Some(s)
    case Some(JArr(xs)) =>
      if xs == [] then Some("")
      else (match xs[0]
            case JStr(s) => Some(s)
            case JObj(_) => StrField(xs[0], "url")
            case _ => None)
    case Some(JObj(_)) => StrField(img.value, "url")
    case _ => Some("")
  }

  /** Title, description and image of a JSON-LD Product. */
  function ProductFromJsonLd(jld: Json): (r: Option<PageData>)
    ensures r.Some? <==> StrField(jld, "name").Some? && StrField(jld, "description").Some? && ImageOf(Get(jld, "image")).Some?
    ensures r.Some? ==> r.value.title == StrField(jld, "name").value
                        && r.value.description == StrField(jld, "description").value
                        && r.value.imageUrl == ImageOf(Get(jld, "image")).value
  {
    var t := StrField(jld, "name");
    var d := StrField(jld, "description");
    var i := ImageOf(Get(jld, "image"));
    if t.Some? && d.Some? && i.Some? then Some(PageData(t.value, d.value, i.value)) else None
  }

  /** A list image depends only on its first element, read as if it stood alone. */
  lemma ImageOfListHead(x: Json, rest: seq<Json>)
    requires x.JStr? || x.JObj?
    ensures ImageOf(Some(JArr([x] + rest))) == ImageOf(Some(x))
  {
    assert ([x] + rest)[0] == x;
  }

  /** An empty list, a missing image and a non-container value all give "". */
  lemma ImageOfEmpty(img: Option<Json>)
    requires img.None? || img == Some(JArr([])) || img == Some(JNull) || (img.Some? && (img.value.JNum? || img.value.JBool?))
    ensures ImageOf(img) == Some("")
  {
  }

  // ------------------------------------------------------------------
  // Regex-extracted page fields

  /** `og:title`, `og:description`, `og:image` as captured, before stripping. */
  datatype Og = Og(title: Option<string>, description: Option<string>, image: Option<string>)

  /** A fetched page as the shared helpers see it. */
  datatype Page = Page(
    ldBlocks: seq<Option<Json>>,   // each ld+json script, parsed or not
    og: Og,
    titleTag: Option<string>,      // the inner text of the first <title>
    metaDescription: Option<string>)

  /** `extract_og(html).get(key, "")`: the stripped captured value, or "". */
  function OgValue(v: Option<string>): string
  {
    match v
    case None => ""
    case Some(s) => Strip(s)
  }

  /** `extract_title`: whitespace runs collapsed to one space, then trimmed; "" without a title tag. */
  function ExtractTitle(tag: Option<string>): (r: string)
    ensures SingleSpaced(r)
    ensures tag.None? ==> r == ""
    ensures tag.Some? ==> Words(r) == Words(tag.value)
  {
    match tag
    case None => ""
    case Some(t) =>
      SquashSpacesShape(t);
      SquashSpacesWords(t);
      SquashSpaces(t)
  }

  /** A title that is already clean is its own extracted title. */
  lemma ExtractTitleIdempotent(tag: string)
    ensures ExtractTitle(Some(ExtractTitle(Some(tag)))) == ExtractTitle(Some(tag))
  {
    SquashSpacesIdle(ExtractTitle(Some(tag)));
  }

  /** `extract_meta_desc`: the stripped meta description, or "". */
  function ExtractMetaDesc(meta: Option<string>): string
  {
    OgValue(meta)
  }

  /**
   * The three fields of a page: a JSON-LD Product when there is one,
   * otherwise og:title or the title tag, og:description or the meta
   * description, and og:image. `None` where `product_from_jsonld` fails.
   */
  function PageFields(p: Page): (r: Option<PageData>)
    ensures ExtractJsonLdProduct(p.ldBlocks).Some? ==> r == ProductFromJsonLd(ExtractJsonLdProduct(p.ldBlocks).value)
    ensures ExtractJsonLdProduct(p.ldBlocks).None? ==>
              r.Some? && r.value.imageUrl == OgValue(p.og.image)
              && (r.value.title == "" <==> OgValue(p.og.title) == "" && ExtractTitle(p.titleTag) == "")
              && (OgValue(p.og.title) != "" ==> r.value.title == OgValue(p.og.title))
              && (OgValue(p.og.title) == "" ==> r.value.title == ExtractTitle(p.titleTag))
              && (OgValue(p.og.description) != "" ==> r.value.description == OgValue(p.og.description))
              && (OgValue(p.og.description) == "" ==> r.value.description == ExtractMetaDesc(p.metaDescription))
  {
    var jld := ExtractJsonLdProduct(p.ldBlocks);
    if jld.Some? then ProductFromJsonLd(jld.value)
    else Some(PageData(OrElse(OgValue(p.og.title), ExtractTitle(p.titleTag)),
                       OrElse(OgValue(p.og.description), ExtractMetaDesc(p.metaDescription)),
                       OgValue(p.og.image)))
  }

  // ------------------------------------------------------------------
  // Image extension

  /**
   * `img_ext`: by the lower-cased URL before its first "?", ".png" wins
   * over ".webp", which wins over ".gif"; ".jpg" when none is there.
   */
  function ImgExt(url: string): (r: string)
    ensures r in {".png", ".webp", ".gif", ".jpg"}
    ensures var low := Before(Lower(url), '?');
            (r == ".png" <==> Contains(low, ".png"))
            && (r == ".webp" <==> !Contains(low, ".png") && Contains(low, ".webp"))
            && (r == ".gif" <==> !Contains(low, ".png") && !Contains(low, ".webp") && Contains(low, ".gif"))
  {
    var low := Before(Lower(url), '?');
    if Contains(low, ".png") then ".png"
    else if Contains(low, ".webp") then ".webp"
    else if Contains(low, ".gif") then ".gif"
    else ".jpg"
  }

  lemma {:induction false} BeforeAbsent(a: string, b: string, c: char)
    requires forall i :: 0 <= i < |a| ==> a[i] != c
    ensures Before(a, c) == a
    ensures Before(a + [c] + b, c) == a
    decreases |a|
  {
    if |a| == 0 {
      assert (a + [c] + b)[0] == c;
    } else {
      BeforeAbsent(a[1..], b, c);
      assert (a + [c] + b)[1..] == a[1..] + [c] + b;
      assert (a + [c] + b)[0] == a[0];
    }
  }

  /** The query string never changes the extension. */
  lemma ImgExtIgnoresQuery(url: string, query: string)
    requires forall i :: 0 <= i < |url| ==> url[i] != '?'
    ensures ImgExt(url + "?" + query) == ImgExt(url)
  {
    var lu := Lower(url);
    assert Lower(url + "?" + query) == lu + ['?'] + Lower(query);
    assert forall i :: 0 <= i < |lu| ==> lu[i] != '?';
    BeforeAbsent(lu, Lower(query), '?');
  }

  // ------------------------------------------------------------------
  // CSV output

  const CsvFields: seq<string> := ["upc", "title", "description", "image_url", "product_url"]

  /** One written row: exactly the five fields, a missing one as "". */
  function ProjectRow(r: Row): (p: Row)
    ensures p.Keys == set k | k in CsvFields
  {
    map k | k in CsvFields :: Cell(r, k)
  }

  /**
   * `write_csv`: nothing is written for an empty list (`None`); otherwise
   * the projected rows in the same order.
   */
  function WriteCsv(rows: seq<Row>): (out: Option<seq<Row>>)
    ensures out.None? <==> rows == []
    ensures out.Some? ==> |out.value| == |rows|
                          && forall i :: 0 <= i < |rows| ==> out.value[i] == ProjectRow(rows[i])
    ensures out.Some? ==> forall i, k :: 0 <= i < |rows| && k in CsvFields ==>
                            k in out.value[i] && out.value[i][k] == Cell(rows[i], k)
  {
    if rows == [] then None else Some(seq(|rows|, i requires 0 <= i < |rows| => ProjectRow(rows[i])))
  }

  /** Rereading a written CSV and writing it again changes nothing. */
  lemma ProjectRowIdempotent(r: Row)
    ensures ProjectRow(ProjectRow(r)) == ProjectRow(r)
  {
  }

  /** A row that already holds exactly the five fields is written unchanged, and extra keys are dropped. */
  lemma ProjectRowKeeps(r: Row)
    ensures forall k :: k in CsvFields && k in r ==> ProjectRow(r)[k] == r[k]
    ensures forall k :: k in CsvFields && k !in r ==> ProjectRow(r)[k] == ""
    ensures r.Keys == (set k | k in CsvFields) ==> ProjectRow(r) == r
  {
  }
}
