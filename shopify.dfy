/**
 * A Shopify store's `products.json` catalog as the retry and Crayola
 * scripts read it: each product turned into the matcher's record and
 * the records indexed by normalised title.
 */
module Shopify {
  import opened Wrappers
  import opened Text
  import opened Matching
  import Markup
  import Dicts

  /** The `image` field: an object with a `src`, a bare string, or nothing usable. */
  datatype Image = ImageObject(src: string) | ImageString(url: string) | NoImage

  /**
   * One catalog product; a missing or null field reads as empty. The
   * `src` of each of the `images` and the `barcode` of each variant.
   */
  datatype Product = Product(
    title: string,
    imageSrcs: seq<string>,
    image: Image,
    bodyHtml: string,
    handle: string,
    variantBarcodes: seq<string>)

  /** What the matcher keeps of a product. */
  datatype Info = Info(
    title: string,
    description: string,
    imageUrl: string,
    productUrl: string,
    barcodes: set<string>,
    norm: string,
    words: set<string>)

  /** The first image's `src`, else the `image` field. */
  function ImageOf(p: Product): string
  {
    if p.imageSrcs != [] then p.imageSrcs[0]
    else match p.image
      case ImageObject(src) => src
      case ImageString(url) => url
      case NoImage => ""
  }

  /** Variant barcodes, stripped, that are at least five characters long. */
  function BarcodeSet(raw: seq<string>): set<string>
  {
    set i | 0 <= i < |raw| && |Strip(raw[i])| >= 5 :: Strip(raw[i])
  }

  /** The barcode loop. */
  method CollectBarcodes(raw: seq<string>) returns (bs: set<string>)
    ensures bs == BarcodeSet(raw)
    ensures forall b :: b in bs ==> |b| >= 5 && NoEdgeSpace(b)
  {
    bs := {};
    var i := 0;
    while i < |raw|
      invariant 0 <= i <= |raw|
      invariant bs == BarcodeSet(raw[..i])
      decreases |raw| - i
    {
      assert forall j :: 0 <= j < i ==> raw[..i + 1][j] == raw[..i][j];
      var bc := Strip(raw[i]);
      if |bc| >= 5 {
        bs := bs + {bc};
      }
      i := i + 1;
    }
    assert raw[..|raw|] == raw;
    forall b | b in bs
      ensures |b| >= 5 && NoEdgeSpace(b)
    {
      var j :| 0 <= j < |raw| && |Strip(raw[j])| >= 5 && Strip(raw[j]) == b;
      StripNoEdge(raw[j]);
    }
  }

  /**
   * `product_to_info` / the body of `build_name_index`'s loop: nothing for
   * a product without a title, else its record, the description the
   * cleaned `body_html` (cut to 500 characters, "" without a body) and the
   * URL empty when there is no handle.
   */
  function ProductInfo(p: Product, base: string): (r: Option<Info>)
    ensures r.None? <==> p.title == ""
    ensures r.Some? ==>
              && r.value.title == p.title
              && r.value.norm == Normalize(p.title)
              && r.value.words == WordSet(r.value.norm)
              && |r.value.description| <= 500
              && r.value.description == (if p.bodyHtml == "" then "" else Markup.CleanText(p.bodyHtml))
              && r.value.barcodes == BarcodeSet(p.variantBarcodes)
              && r.value.imageUrl == ImageOf(p)
              && (r.value.productUrl == "" <==> p.handle == "")
              && (p.handle != "" ==> r.value.productUrl == base + "/products/" + p.handle)
  {
    if p.title == "" then None
    else
      var desc := if p.bodyHtml == "" then "" else Markup.CleanText(p.bodyHtml);
      var url := if p.handle == "" then "" else base + "/products/" + p.handle;
      var norm := Normalize(p.title);
      Some(Info(p.title, desc, ImageOf(p), url, BarcodeSet(p.variantBarcodes), norm, WordSet(norm)))
  }

  /** Every barcode of a record is at least five characters, with no edge whitespace. */
  lemma BarcodesAreLong(raw: seq<string>, b: string)
    requires b in BarcodeSet(raw)
    ensures |b| >= 5 && NoEdgeSpace(b)
  {
    var j :| 0 <= j < |raw| && |Strip(raw[j])| >= 5 && Strip(raw[j]) == b;
    StripNoEdge(raw[j]);
  }

  /** The method form of `ProductInfo`, with the barcode loop. */
  method ProductToInfo(p: Product, base: string) returns (r: Option<Info>)
    ensures r == ProductInfo(p, base)
  {
    if p.title == "" {
      return None;
    }
    var desc := "";
    if p.bodyHtml != "" {
      desc := Markup.CleanText(p.bodyHtml);
    }
    var url := "";
    if p.handle != "" {
      url := base + "/products/" + p.handle;
    }
    var barcodes := CollectBarcodes(p.variantBarcodes);
    var norm := Normalize(p.title);
    r := Some(Info(p.title, desc, ImageOf(p), url, barcodes, norm, WordSet(norm)));
  }

  // ------------------------------------------------------------------
  // The name index

  /** A record as the matcher expects it: titled, normalised, its description cut. */
  predicate WellFormed(info: Info)
  {
    info.title != "" && |info.description| <= 500
    && info.norm == Normalize(info.title) && info.words == WordSet(info.norm)
    && forall b :: b in info.barcodes ==> |b| >= 5
  }

  /** The records of the titled products, in catalog order. */
  function Records(products: seq<Product>, base: string): (rs: seq<Info>)
    ensures |rs| <= |products|
    ensures forall r :: r in rs ==> WellFormed(r)
    decreases |products|
  {
    if products == [] then []
    else
      var n := |products| - 1;
      var rs := Records(products[..n], base);
      match ProductInfo(products[n], base)
      case None => rs
      case Some(info) =>
        assert WellFormed(info) by {
          forall b | b in info.barcodes ensures |b| >= 5 {
            BarcodesAreLong(products[n].variantBarcodes, b);
          }
        }
        rs + [info]
  }

  /** The dictionary key of a record. */
  function Norm(info: Info): string
  {
    info.norm
  }

  /** `build_name_index`: `index[norm] = info` for each titled product in turn. */
  function NameIndex(products: seq<Product>, base: string): Dicts.Dict<string, Info>
  {
    Dicts.PutEach(Records(products, base), Norm)
  }

  /** The indexing loop. */
  method BuildNameIndex(products: seq<Product>, base: string) returns (index: Dicts.Dict<string, Info>)
    ensures index == NameIndex(products, base)
  {
    index := [];
    ghost var rs: seq<Info> := [];
    var i := 0;
    while i < |products|
      invariant 0 <= i <= |products|
      invariant rs == Records(products[..i], base)
      invariant index == Dicts.PutEach(rs, Norm)
      decreases |products| - i
    {
      assert products[..i + 1][..i] == products[..i];
      var info := ProductToInfo(products[i], base);
      if info.Some? {
        index := Dicts.Put(index, info.value.norm, info.value);
        assert (rs + [info.value])[..|rs|] == rs;
        rs := rs + [info.value];
      }
      i := i + 1;
    }
    assert products[..|products|] == products;
  }

  /**
   * The index has distinct keys; each key is the normalised title of its
   * record, a well-formed record of the catalog; a normalised title
   * gives the LAST record with it, and a title no record has is absent.
   */
  lemma NameIndexSpec(products: seq<Product>, base: string, k: string)
    ensures Dicts.DistinctKeys(NameIndex(products, base))
    ensures forall i :: 0 <= i < |NameIndex(products, base)| ==>
              var (key, info) := NameIndex(products, base)[i];
              key == info.norm && WellFormed(info) && info in Records(products, base)
    ensures var rs := Records(products, base);
            Dicts.Lookup(NameIndex(products, base), k).None? <==> forall j :: 0 <= j < |rs| ==> rs[j].norm != k
    ensures var rs := Records(products, base);
            forall j :: 0 <= j < |rs| && rs[j].norm == k && (forall j' :: j < j' < |rs| ==> rs[j'].norm != k) ==>
              Dicts.Lookup(NameIndex(products, base), k) == Some(rs[j])
  {
    var rs := Records(products, base);
    var idx := NameIndex(products, base);
    assert idx == Dicts.PutEach(rs, Norm);
    Dicts.PutEachShape(rs, Norm);
    Dicts.PutEachLookup(rs, Norm, k);
    assert forall j :: 0 <= j < |rs| ==> Norm(rs[j]) == rs[j].norm;
    forall i | 0 <= i < |idx| ensures idx[i].0 == idx[i].1.norm && WellFormed(idx[i].1) && idx[i].1 in rs {
      assert idx[i].0 == Norm(idx[i].1) && idx[i].1 in rs;
    }
  }

  /** A product without a title adds nothing; a titled one adds its record last. */
  lemma RecordsStep(products: seq<Product>, p: Product, base: string)
    ensures Records(products + [p], base) ==
              Records(products, base) + (if p.title == "" then [] else [ProductInfo(p, base).value])
  {
    assert (products + [p])[..|products|] == products;
  }
}
