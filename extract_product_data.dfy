/**
 * Extracting title, description, images and dimensions from a saved
 * product page, and shaping the output row of each file.
 */
module ExtractProductData {
  import opened Wrappers
  import opened Text
  import opened Json
  import opened Sheet
  import ScraperLib
  import AnalyzeSite

  // ------------------------------------------------------------------
  // Normalising text

  /** `" ".join(s.split()).strip()` */
  function NormText(s: string): (r: string)
    ensures SingleSpaced(r)
  {
    NormWsProperties(s);
    StripIsIdentity(Join(" ", Words(s)));
    Strip(Join(" ", Words(s)))
  }

  /** `_norm`: `None` gives "", otherwise the whitespace-normalised text. */
  function Norm(s: Option<string>): (r: string)
    ensures SingleSpaced(r)
    ensures s.None? ==> r == ""
  {
    match s
    case None => ""
    case Some(t) => NormText(t)
  }

  /** Normalising twice is normalising once. */
  lemma NormIdempotent(s: Option<string>)
    ensures Norm(Some(Norm(s))) == Norm(s)
  {
    if s.Some? {
      var j := Join(" ", Words(s.value));
      NormWsProperties(s.value);
      StripIsIdentity(j);
      assert Words(j) == Words(s.value);
    }
  }

  /** `str(d.get(key))` when the value is truthy, else "". */
  function ValueText(d: map<string, Json>, key: string): Option<string>
  {
    if key in d && Truthy(d[key]) then PyStr(d[key]) else Some("")
  }

  /** A key whose value prints as blank text. */
  predicate BlankAt(d: map<string, Json>, key: string)
  {
    ValueText(d, key).Some? && Strip(ValueText(d, key).value) == ""
  }

  /** The position of the first key that is not blank, `|keys|` when there is none. */
  function FirstNonBlank(d: map<string, Json>, keys: seq<string>): (k: nat)
    ensures k <= |keys|
    ensures forall j :: 0 <= j < k ==> BlankAt(d, keys[j])
    ensures k < |keys| ==> !BlankAt(d, keys[k])
    decreases |keys|
  {
    if |keys| == 0 || !BlankAt(d, keys[0]) then 0 else 1 + FirstNonBlank(d, keys[1..])
  }

  /**
   * `_first`: the normalised text of the first key whose value is not
   * blank, else the default. `None` where that value is a list or dict.
   */
  function First(d: map<string, Json>, keys: seq<string>, default: string): (r: Option<string>)
    ensures FirstNonBlank(d, keys) == |keys| ==> r == Some(default)
    ensures FirstNonBlank(d, keys) < |keys| ==>
              var v := ValueText(d, keys[FirstNonBlank(d, keys)]);
              (r.None? <==> v.None?) && (r.Some? ==> r.value == NormText(v.value))
    decreases |keys|
  {
    if |keys| == 0 then Some(default)
    else
      match ValueText(d, keys[0])
      case None => None
      case Some(t) =>
        if Strip(t) != "" then Some(NormText(t))
        else
          assert keys[1..][FirstNonBlank(d, keys[1..])..] == keys[FirstNonBlank(d, keys)..];
          First(d, keys[1..], default)
  }

  // ------------------------------------------------------------------
  // JSON-LD

  /** What one parsed block gives this scan: a Product dict, or the first Product of a list; `@graph` is not searched. */
  function BlockProduct(b: Json): (r: Option<Json>)
    ensures r.Some? ==> IsProduct(r.value)
  {
    if IsProduct(b) then Some(b) else if b.JArr? then FirstProduct(b.items) else None
  }

  predicate Yields(blocks: seq<Option<Json>>, k: int)
    requires 0 <= k < |blocks|
  {
    blocks[k].Some? && BlockProduct(blocks[k].value).Some?
  }

  /**
   * `extract_json_ld_product` of this script: empty and unparsable blocks
   * are skipped (both are `None`), and a list without a Product does not
   * stop the scan.
   */
  function ExtractJsonLdProduct(blocks: seq<Option<Json>>): (r: Option<Json>)
    ensures r.Some? ==> IsProduct(r.value)
    ensures r.None? <==> forall k :: 0 <= k < |blocks| ==> !Yields(blocks, k)
    ensures r.Some? ==> exists k :: 0 <= k < |blocks| && Yields(blocks, k) && r == BlockProduct(blocks[k].value)
                          && forall j :: 0 <= j < k ==> !Yields(blocks, j)
    decreases |blocks|
  {
    if |blocks| == 0 then None
    else if Yields(blocks, 0) then BlockProduct(blocks[0].value)
    else
      var r := ExtractJsonLdProduct(blocks[1..]);
      assert forall k :: 1 <= k < |blocks| ==> (Yields(blocks, k) <==> Yields(blocks[1..], k - 1));
      assert r.Some? ==> exists k :: 1 <= k < |blocks| && Yields(blocks, k) && r == BlockProduct(blocks[k].value)
                           && forall j :: 0 <= j < k ==> !Yields(blocks, j) by {
        if r.Some? {
          var k :| 0 <= k < |blocks[1..]| && Yields(blocks[1..], k) && r == BlockProduct(blocks[1..][k].value)
                   && forall j :: 0 <= j < k ==> !Yields(blocks[1..], j);
          assert blocks[1..][k] == blocks[k + 1];
        }
      }
      r
  }

  /** A block that is neither a Product nor a list but carries a `@graph` key. */
  predicate HasGraph(b: Option<Json>)
  {
    b.Some? && b.value.JObj? && !IsProduct(b.value) && "@graph" in b.value.fields
  }

  /** Without `@graph` blocks this scan and the shared one pick the same Product. */
  lemma {:induction false} AgreesWithoutGraph(blocks: seq<Option<Json>>)
    requires forall k :: 0 <= k < |blocks| ==> !HasGraph(blocks[k])
    ensures ExtractJsonLdProduct(blocks) == ScraperLib.ExtractJsonLdProduct(blocks)
    decreases |blocks|
  {
    if |blocks| > 0 {
      assert blocks[0].Some? ==> BlockProduct(blocks[0].value) == ScraperLib.BlockProduct(blocks[0].value);
      assert Yields(blocks, 0) == ScraperLib.Yields(blocks, 0);
      assert forall k :: 0 <= k < |blocks[1..]| ==> blocks[1..][k] == blocks[k + 1];
      AgreesWithoutGraph(blocks[1..]);
    }
  }

  /** A Product inside `@graph` is found by the shared scan and missed by this one. */
  lemma GraphProductMissed(product: Json)
    requires IsProduct(product)
    ensures ExtractJsonLdProduct([Some(JObj(map["@graph" := JArr([product])]))]).None?
    ensures ScraperLib.ExtractJsonLdProduct([Some(JObj(map["@graph" := JArr([product])]))]) == Some(product)
  {
    var g := JObj(map["@graph" := JArr([product])]);
    assert !IsProduct(g);
    assert !Yields([Some(g)], 0);
    assert ScraperLib.Yields([Some(g)], 0);
  }

  /** A list without a Product does not end this scan, unlike the flag scan of analyze_site. */
  lemma ListDoesNotStop(product: Json)
    requires IsProduct(product)
    ensures ExtractJsonLdProduct([Some(JArr([])), Some(product)]) == Some(product)
    ensures !AnalyzeSite.LdProductFlag([Some(JArr([])), Some(product)])
  {
    var blocks := [Some(JArr([])), Some(product)];
    assert !Yields(blocks, 0) && Yields(blocks, 1);
    assert AnalyzeSite.Decides(blocks[0]) && !AnalyzeSite.DecidesProduct(blocks[0]);
  }

  /** Fields taken from a JSON-LD Product. */
  datatype LdFields = LdFields(title: string, description: string, imageUrl: string, imageUrls: seq<string>, dimensions: string)

  /** The non-empty string entries of a list, in order. */
  function StringEntries(xs: seq<Json>): (urls: seq<string>)
    ensures forall i :: 0 <= i < |urls| ==> urls[i] != "" && JStr(urls[i]) in xs
    ensures |urls| <= |xs|
    decreases |xs|
  {
    if |xs| == 0 then []
    else (if xs[0].JStr? && xs[0].s != "" then [xs[0].s] else []) + StringEntries(xs[1..])
  }

  /** The image rule: a non-empty string is the image and the whole list; a list keeps its non-empty strings, the first being the image. */
  function LdImages(img: Option<Json>): (r: (string, seq<string>))
    ensures r.0 == "" <==> r.1 == []
    ensures r.1 != [] ==> r.0 == r.1[0]
    ensures img.Some? && img.value.JStr? && img.value.s != "" ==> r == (img.value.s, [img.value.s])
    ensures img.Some? && img.value.JArr? ==> r.1 == StringEntries(img.value.items)
  {
    match img
    case Some(JStr(s)) => if s != "" then (s, [s]) else ("", [])
    case Some(JArr(xs)) =>
      var urls := StringEntries(xs);
      if urls != [] then (urls[0], urls) else ("", [])
    case _ => ("", [])
  }

  /**
   * The dimensions text: a dict `weight` whose `value` is present and not
   * null gives "Weight: {value} {unitCode}", the unit defaulting to "g".
   * `None` where a value is a list or dict.
   */
  function Dimensions(ld: Json): (r: Option<string>)
    ensures (match Get(ld, "weight") case Some(JObj(w)) => "value" !in w || w["value"] == JNull case _ => true) ==> r == Some("")
    ensures r.Some? && r.value != "" ==> StartsWith(r.value, "Weight: ")
    ensures match Get(ld, "weight")
            case Some(JObj(w)) =>
              var unit := if "unitCode" in w then PyStr(w["unitCode"]) else Some("g");
              "value" in w && w["value"] != JNull ==>
                (r.None? <==> PyStr(w["value"]).None? || unit.None?)
                && (r.Some? ==> r.value == "Weight: " + PyStr(w["value"]).value + " " + unit.value)
            case _ => true
  {
    match Get(ld, "weight")
    case Some(JObj(w)) =>
      if "value" !in w || w["value"] == JNull then Some("")
      else
        var unit := if "unitCode" in w then PyStr(w["unitCode"]) else Some("g");
        var value := PyStr(w["value"]);
        if value.None? || unit.None? then None
        else
          var t := "Weight: " + value.value + " " + unit.value;
          assert t[..8] == "Weight: ";
          Some(t)
    case _ => Some("")
  }

  /** `extract_from_json_ld` */
  function ExtractFromJsonLd(ld: Json): (r: Option<LdFields>)
    ensures r.Some? ==> SingleSpaced(r.value.title) && SingleSpaced(r.value.description)
    ensures r.Some? ==> (r.value.imageUrl, r.value.imageUrls) == LdImages(Get(ld, "image"))
    ensures r.Some? <==> GetText(ld, "name").Some? && GetText(ld, "description").Some? && Dimensions(ld).Some?
  {
    var name := GetText(ld, "name");
    var desc := GetText(ld, "description");
    var dims := Dimensions(ld);
    if name.None? || desc.None? || dims.None? then None
    else
      var (img, imgs) := LdImages(Get(ld, "image"));
      Some(LdFields(Norm(name), Norm(desc), img, imgs, dims.value))
  }

  // ------------------------------------------------------------------
  // The parsed page

  /** Images and first heading of a container element. */
  datatype Container = Container(imgSrcs: seq<Option<string>>, h1: Option<string>)

  /** What the parser finds in a saved page. */
  datatype Page = Page(
    html: string,
    ldBlocks: seq<Option<Json>>,
    ogFirst: map<string, string>,         // property -> content of the first meta tag with it, when it has one
    metaDescriptions: seq<Option<string>>, // content of each `<meta name="description">`, in order
    wpcContainer: Option<Container>,      // the element with id wpc_container
    contentContainer: Option<Container>,  // the element with id content
    document: Container)

  /** Key `key` of `og` holds the normalised content of `prop` exactly when that content is non-empty. */
  predicate OgEntry(og: map<string, string>, p: Page, prop: string, key: string)
  {
    (key in og <==> prop in p.ogFirst && p.ogFirst[prop] != "")
    && (key in og ==> og[key] == NormText(p.ogFirst[prop]))
  }

  /** `extract_meta_og`: each og property with non-empty content, normalised, under its key with ':' turned into '_'. */
  function ExtractMetaOg(p: Page): (og: map<string, string>)
    ensures og.Keys <= {"og_title", "og_description", "og_image", "og_image_secure_url"}
    ensures OgEntry(og, p, "og:title", "og_title") && OgEntry(og, p, "og:description", "og_description")
    ensures OgEntry(og, p, "og:image", "og_image") && OgEntry(og, p, "og:image:secure_url", "og_image_secure_url")
  {
    var m1 := AddOg(map[], p, "og:title", "og_title");
    var m2 := AddOg(m1, p, "og:description", "og_description");
    var m3 := AddOg(m2, p, "og:image", "og_image");
    AddOg(m3, p, "og:image:secure_url", "og_image_secure_url")
  }

  /** Adds one property, leaving every other key as it was. */
  function AddOg(m: map<string, string>, p: Page, prop: string, key: string): (r: map<string, string>)
    requires key !in m
    ensures r.Keys <= m.Keys + {key}
    ensures forall k :: k in m ==> k in r && r[k] == m[k]
    ensures OgEntry(r, p, prop, key)
  {
    if prop in p.ogFirst && p.ogFirst[prop] != "" then m[key := NormText(p.ogFirst[prop])] else m
  }

  /** `extract_meta_description`: the first description tag's content, normalised, or "". */
  function ExtractMetaDescription(p: Page): (r: string)
    ensures SingleSpaced(r)
  {
    if |p.metaDescriptions| > 0 && p.metaDescriptions[0].Some? && p.metaDescriptions[0].value != ""
    then NormText(p.metaDescriptions[0].value) else ""
  }

  /** The content search of the 404 test: "cannot be found", "not found" or "404", ignoring case. */
  predicate NotFoundText(c: string)
  {
    Contains(Lower(c), "cannot be found") || Contains(Lower(c), "not found") || Contains(Lower(c), "404")
  }

  /** Some description tag reads as a not-found page. */
  predicate NotFoundMeta(p: Page)
  {
    exists i :: 0 <= i < |p.metaDescriptions| && p.metaDescriptions[i].Some? && NotFoundText(p.metaDescriptions[i].value)
  }

  /** A quote of either kind. */
  predicate IsQuote(c: char) { c == '"' || c == '\'' }

  /** `pageType\s*:\s*["']index["']` matches at the start of `t`. */
  predicate BareIndexMarker(t: string)
  {
    StartsWith(t, "pageType") && IndexValue(t[8..], true)
  }

  /** `"pageType"\s*:\s*"index"` matches at the start of `t`. */
  predicate QuotedIndexMarker(t: string)
  {
    StartsWith(t, "\"pageType\"") && IndexValue(t[10..], false)
  }

  /** `\s*:\s*` then `index` in quotes; single quotes allowed when `either` holds. */
  predicate IndexValue(t: string, either: bool)
  {
    var a := DropWhile(t, IsSpace);
    |a| > 0 && a[0] == ':' &&
    var b := DropWhile(a[1..], IsSpace);
    |b| >= 7 && b[1..6] == "index"
    && (if either then IsQuote(b[0]) && IsQuote(b[6]) else b[0] == '"' && b[6] == '"')
  }

  /** A Shopify index marker occurs within the first 12000 characters. */
  predicate IndexMarker(html: string)
  {
    var raw := Take(html, 12000);
    exists i :: 0 <= i <= |raw| && (BareIndexMarker(raw[i..]) || QuotedIndexMarker(raw[i..]))
  }

  datatype PageType = Index | NotFound | ProductPage | Unknown

  /** `detect_page_type`: index marker, then a not-found description, then JSON-LD, then og, then unknown. */
  function DetectPageType(p: Page): (t: PageType)
    ensures t == Index <==> IndexMarker(p.html)
    ensures t == NotFound <==> !IndexMarker(p.html) && NotFoundMeta(p)
    ensures t == ProductPage <==> !IndexMarker(p.html) && !NotFoundMeta(p)
                                  && (ExtractJsonLdProduct(p.ldBlocks).Some?
                                      || Cell(ExtractMetaOg(p), "og_title") != "" || Cell(ExtractMetaOg(p), "og_description") != "")
  {
    if IndexMarker(p.html) then Index
    else if NotFoundMeta(p) then NotFound
    else if ExtractJsonLdProduct(p.ldBlocks).Some? then ProductPage
    else
      var og := ExtractMetaOg(p);
      if Cell(og, "og_title") != "" || Cell(og, "og_description") != "" then ProductPage
      else Unknown
  }

  // ------------------------------------------------------------------
  // Generic extraction

  datatype Extracted = Extracted(
    title: string,
    description: string,
    imageUrl: string,
    imageUrls: seq<string>,
    dimensions: string,
    pageType: PageType)

  /** The JSON-LD fields, or all-empty ones when there is no Product; `None` where they are not modelled. */
  function LdPart(p: Page): Option<LdFields>
  {
    match ExtractJsonLdProduct(p.ldBlocks)
    case None => Some(LdFields("", "", "", [], ""))
    case Some(ld) => ExtractFromJsonLd(ld)
  }

  /** The og image: `og:image:secure_url` before `og:image`. */
  function OgImage(og: map<string, string>): string
  {
    OrElse(Cell(og, "og_image_secure_url"), Cell(og, "og_image"))
  }

  /**
   * `extract_generic`: JSON-LD values first; og values only fill blank
   * fields, the secure image URL preferred and prepended to the list when
   * not already in it; the meta description only as a last resort.
   */
  function ExtractGeneric(p: Page): (r: Option<Extracted>)
    ensures r.Some? <==> LdPart(p).Some?
    ensures r.Some? ==> r.value.pageType == DetectPageType(p)
    ensures r.Some? ==> var ld := LdPart(p).value; var og := ExtractMetaOg(p);
              (ld.title != "" ==> r.value.title == ld.title)
              && (ld.description != "" ==> r.value.description == ld.description)
              && (ld.imageUrl != "" ==> r.value.imageUrl == ld.imageUrl && r.value.imageUrls == ld.imageUrls)
              && r.value.dimensions == ld.dimensions
              && (ld.title == "" ==> r.value.title == Cell(og, "og_title"))
              && (ld.description == "" && Cell(og, "og_description") != "" ==> r.value.description == Cell(og, "og_description"))
              && (ld.description == "" && Cell(og, "og_description") == "" ==> r.value.description == ExtractMetaDescription(p))
              && (ld.imageUrl == "" ==> r.value.imageUrl == OgImage(og))
              && (ld.imageUrl == "" && OgImage(og) != "" ==>
                    r.value.imageUrls == (if OgImage(og) in ld.imageUrls then ld.imageUrls else [OgImage(og)] + ld.imageUrls))
  {
    match LdPart(p)
    case None => None
    case Some(ld) =>
      var og := ExtractMetaOg(p);
      var title := if ld.title == "" then Cell(og, "og_title") else ld.title;
      var desc := if ld.description == "" then Cell(og, "og_description") else ld.description;
      var img := if ld.imageUrl == "" then OgImage(og) else ld.imageUrl;
      var imgs := if ld.imageUrl == "" && img != "" && img !in ld.imageUrls then [img] + ld.imageUrls else ld.imageUrls;
      var desc2 := if desc == "" then ExtractMetaDescription(p) else desc;
      Some(Extracted(title, desc2, img, imgs, ld.dimensions, DetectPageType(p)))
  }

  // ------------------------------------------------------------------
  // Winning Moves

  /** The container searched: `wpc_container`, else `content`, else the whole document. */
  function ContainerOf(p: Page): Container
  {
    if p.wpcContainer.Some? then p.wpcContainer.value
    else if p.contentContainer.Some? then p.contentContainer.value
    else p.document
  }

  /** An image whose src contains "images/" (any case) and neither "logo" nor "gfx". */
  predicate ProductImage(src: Option<string>)
  {
    src.Some? && Contains(Lower(src.value), "images/") && !Contains(src.value, "logo") && !Contains(src.value, "gfx")
  }

  /** The product images of a container, in order. */
  function ProductImages(srcs: seq<Option<string>>): (out: seq<string>)
    ensures forall i :: 0 <= i < |out| ==> ProductImage(Some(out[i])) && Some(out[i]) in srcs
    ensures |out| <= |srcs|
    decreases |srcs|
  {
    if |srcs| == 0 then []
    else (if ProductImage(srcs[0]) then [srcs[0].value] else []) + ProductImages(srcs[1..])
  }

  /** An absolute src as is; a relative one under the base. */
  function Absolute(src: string, base: string): string
  {
    if StartsWith(src, "http") then src else RStripCh(base, '/') + "/" + LStripCh(src, '/')
  }

  /** The extra images: each non-blank stripped src, made absolute. */
  function RestImages(srcs: seq<string>, base: string): (rest: seq<string>)
    ensures |rest| <= |srcs|
    decreases |srcs|
  {
    if |srcs| == 0 then []
    else (if Strip(srcs[0]) != "" then [Absolute(Strip(srcs[0]), base)] else []) + RestImages(srcs[1..], base)
  }

  lemma {:induction false} RestImagesAppend(srcs: seq<string>, i: nat, base: string)
    requires i < |srcs|
    ensures RestImages(srcs[..i + 1], base) ==
              RestImages(srcs[..i], base) + (if Strip(srcs[i]) != "" then [Absolute(Strip(srcs[i]), base)] else [])
    decreases i
  {
    if i > 0 {
      assert srcs[..i + 1][1..] == srcs[1..][..i];
      assert srcs[..i][1..] == srcs[1..][..i - 1];
      RestImagesAppend(srcs[1..], i - 1, base);
    } else {
      assert srcs[..1][1..] == [];
    }
  }

  /** The loop that builds `rest`. */
  method BuildRest(srcs: seq<string>, base: string) returns (rest: seq<string>)
    ensures rest == RestImages(srcs, base)
  {
    rest := [];
    var i := 0;
    while i < |srcs|
      invariant 0 <= i <= |srcs|
      invariant rest == RestImages(srcs[..i], base)
      decreases |srcs| - i
    {
      RestImagesAppend(srcs, i, base);
      var s := Strip(srcs[i]);
      if s != "" {
        rest := rest + [Absolute(s, base)];
      }
      i := i + 1;
    }
    assert srcs[..i] == srcs;
  }

  /** `product_imgs[1:11]` */
  function Window(imgs: seq<string>): seq<string>
  {
    if |imgs| <= 1 then [] else Take(imgs[1..], 10)
  }

  /**
   * The Winning Moves overrides of a generic result: the image is replaced
   * only when it had none and the container holds a product image; the
   * title falls back to the container's first heading.
   */
  function WinningMovesOver(g: Extracted, c: Container, base: string): (r: Extracted)
    ensures var imgs := ProductImages(c.imgSrcs);
              (g.imageUrl != "" || imgs == [] ==> r.imageUrl == g.imageUrl && r.imageUrls == g.imageUrls)
              && (g.imageUrl == "" && imgs != [] ==>
                    r.imageUrl == Absolute(imgs[0], base) && |r.imageUrls| <= 11
                    && r.imageUrls == [Absolute(imgs[0], base)] + RestImages(Window(imgs), base))
    ensures g.title != "" ==> r.title == g.title
    ensures g.title == "" && c.h1.Some? ==> r.title == Norm(c.h1)
    ensures r.description == g.description && r.dimensions == g.dimensions && r.pageType == g.pageType
  {
    var imgs := ProductImages(c.imgSrcs);
    var withImages :=
      if imgs != [] && g.imageUrl == "" then
        var first := Absolute(imgs[0], base);
        g.(imageUrl := first, imageUrls := [first] + RestImages(Window(imgs), base))
      else g;
    if c.h1.Some? && withImages.title == "" then withImages.(title := Norm(c.h1)) else withImages
  }

  /** `extract_winning_moves`: the generic result with the Winning Moves overrides. */
  function ExtractWinningMoves(p: Page, base: string): (r: Option<Extracted>)
    ensures r.Some? <==> ExtractGeneric(p).Some?
    ensures r.Some? ==> r.value == WinningMovesOver(ExtractGeneric(p).value, ContainerOf(p), base)
  {
    match ExtractGeneric(p)
    case None => None
    case Some(g) => Some(WinningMovesOver(g, ContainerOf(p), base))
  }

  // ------------------------------------------------------------------
  // Output rows

  const OutputFields: seq<string> := ["product_id", "title", "description", "image_url", "image_urls", "dimensions", "page_type"]

  function PageTypeText(t: PageType): string
  {
    match t
    case Index => "index"
    case NotFound => "404"
    case ProductPage => "product"
    case Unknown => "unknown"
  }

  /** `extract_for_site`: Winning Moves has its own extractor; every other site is generic. */
  function ExtractForSite(site: string, p: Page, base: string): (r: Option<Extracted>)
    ensures r.Some? <==> LdPart(p).Some?
    ensures r.Some? ==> r.value.pageType == DetectPageType(p) && r.value.dimensions == LdPart(p).value.dimensions
    ensures r.Some? ==> r.value.description == ExtractGeneric(p).value.description
    ensures r.Some? && ExtractGeneric(p).value.title != "" ==> r.value.title == ExtractGeneric(p).value.title
    ensures site != "winning_moves" ==> r == ExtractGeneric(p)
  {
    if site == "winning_moves" then ExtractWinningMoves(p, base) else ExtractGeneric(p)
  }

  /** A seven-field output row. */
  function MakeRow(productId: string, title: string, description: string, imageUrl: string, imageUrls: string,
                   dimensions: string, pageType: string): (r: Row)
    ensures forall k :: k in r <==> k in OutputFields
    ensures "product_id" in r && r["product_id"] == productId
    ensures "title" in r && r["title"] == title
    ensures "description" in r && r["description"] == description
    ensures "image_url" in r && r["image_url"] == imageUrl
    ensures "image_urls" in r && r["image_urls"] == imageUrls
    ensures "dimensions" in r && r["dimensions"] == dimensions
    ensures "page_type" in r && r["page_type"] == pageType
  {
    map["product_id" := productId, "title" := title, "description" := description, "image_url" := imageUrl,
        "image_urls" := imageUrls, "dimensions" := dimensions, "page_type" := pageType]
  }

  /**
   * One output row: a read error gives an all-empty row of type "error";
   * otherwise the description is cut at 5000 characters and at most 20
   * image URLs are joined with "|".
   */
  function OutputRow(productId: string, read: Option<Page>, site: string, base: string): (r: Option<Row>)
    ensures read.None? ==> r == Some(MakeRow(productId, "", "", "", "", "", "error"))
    ensures read.Some? ==> (r.Some? <==> ExtractForSite(site, read.value, base).Some?)
    ensures r.Some? && read.Some? ==>
              var d := ExtractForSite(site, read.value, base).value;
              r.value == MakeRow(productId, d.title, Take(d.description, 5000), d.imageUrl,
                                 Join("|", Take(d.imageUrls, 20)), d.dimensions, PageTypeText(d.pageType))
              && |r.value["description"]| <= 5000
  {
    match read
    case None => Some(MakeRow(productId, "", "", "", "", "", "error"))
    case Some(p) =>
      match ExtractForSite(site, p, base)
      case None => None
      case Some(d) =>
        Some(MakeRow(productId, d.title, Take(d.description, 5000), d.imageUrl,
                     Join("|", Take(d.imageUrls, 20)), d.dimensions, PageTypeText(d.pageType)))
  }
}
