/**
 * The Lchaim scraper: the store's item search returns every product with
 * its UPC in data attributes; those with a UPC are keyed by it, and each
 * sheet row with a UPC is joined to its product.
 */
module ScrapeLchaim {
  import opened Wrappers
  import opened Text
  import opened Matching
  import opened Sheet
  import ScraperLib

  const Base: string := "https://lchaimstore.com"

  /** One product's data attributes, as the search answer lists them (the prices and stock are not read). */
  datatype Listed = Listed(name: string, itemId: string, code: string, upc: string, img: string, brand: string, dept: string)

  /** What the catalog keeps of a product. */
  datatype Data = Data(title: string, description: string, imageUrl: string, productUrl: string)

  /** The search answer: its status and the products found in its HTML. */
  datatype Answer = Answer(status: int, items: seq<Listed>)

  /** "`dept` product by `brand`", or "`dept` product" for the brand "Undefined". */
  function Description(dept: string, brand: string): (d: string)
    ensures brand == "Undefined" ==> d == dept + " product"
    ensures brand != "Undefined" ==> d == dept + " product by " + brand
  {
    if brand != "Undefined" then dept + " product by " + brand else dept + " product"
  }

  function DataOf(item: Listed): Data
  {
    Data(item.name, Description(item.dept, item.brand), item.img, Base + "/Shop")
  }

  /** `upc_map` after the items in turn: an item with a UPC sets its entry, a later one replacing an earlier. */
  function UpcMap(items: seq<Listed>): map<string, Data>
    decreases |items|
  {
    if items == [] then map[]
    else
      var n := |items| - 1;
      var m := UpcMap(items[..n]);
      if items[n].upc != "" then m[items[n].upc := DataOf(items[n])] else m
  }

  /**
   * A UPC is a key exactly when some item has it, and it is never empty;
   * its value is the data of the last item with it, whose page is always
   * the shop's.
   */
  lemma {:induction false} UpcMapSpec(items: seq<Listed>, upc: string)
    ensures "" !in UpcMap(items)
    ensures upc in UpcMap(items) <==> upc != "" && exists j :: 0 <= j < |items| && items[j].upc == upc
    ensures forall j :: 0 <= j < |items| && items[j].upc == upc && upc != ""
                        && (forall j' :: j < j' < |items| ==> items[j'].upc != upc) ==>
              upc in UpcMap(items) && UpcMap(items)[upc] == DataOf(items[j])
    ensures upc in UpcMap(items) ==> UpcMap(items)[upc].productUrl == Base + "/Shop"
    decreases |items|
  {
    if items != [] {
      var n := |items| - 1;
      var pre, last := items[..n], items[n];
      UpcMapSpec(pre, upc);
      assert forall j :: 0 <= j < n ==> pre[j] == items[j];
      var m := UpcMap(pre);
      assert UpcMap(items) == if last.upc != "" then m[last.upc := DataOf(last)] else m;
      if last.upc == upc && upc != "" {
        assert UpcMap(items)[upc] == DataOf(last);
      } else {
        assert upc in UpcMap(items) <==> upc in m;
        assert upc in m ==> UpcMap(items)[upc] == m[upc];
        forall j | 0 <= j < |items| && items[j].upc == upc && upc != ""
                   && (forall j' :: j < j' < |items| ==> items[j'].upc != upc)
          ensures upc in UpcMap(items) && UpcMap(items)[upc] == DataOf(items[j])
        {
          assert j < n && pre[j].upc == upc;
          assert forall j' :: j < j' < n ==> pre[j'].upc != upc;
        }
      }
    }
  }

  /** `fetch_catalog`: nothing unless the search answered 200, else the map built item by item. */
  method FetchCatalog(answer: Answer) returns (upcMap: map<string, Data>)
    ensures upcMap == if answer.status == 200 then UpcMap(answer.items) else map[]
  {
    if answer.status != 200 {
      return map[];
    }
    var items := answer.items;
    upcMap := map[];
    var i := 0;
    while i < |items|
      invariant 0 <= i <= |items|
      invariant upcMap == UpcMap(items[..i])
      decreases |items| - i
    {
      assert items[..i + 1][..i] == items[..i];
      var item := items[i];
      if item.upc != "" {
        upcMap := upcMap[item.upc := DataOf(item)];
      }
      i := i + 1;
    }
    assert items[..|items|] == items;
  }

  // ------------------------------------------------------------------
  // main

  /** The result row of a sheet row: its UPC's product, when the row has a UPC the catalog knows. */
  function RowResult(catalog: map<string, Data>): ((string, string)) -> Option<Entry>
  {
    (key: (string, string)) =>
      if key.0 == "" || key.0 !in catalog then None
      else
        var d := catalog[key.0];
        Some(Entry(key.0, d.title, d.description, d.imageUrl, d.productUrl))
  }

  /** One pass of `main`'s loop: the row's result, when its UPC is in the catalog, is appended and counted. */
  method JoinNext(row: Row, catalog: map<string, Data>, results: seq<Entry>, matched: nat)
    returns (results': seq<Entry>, matched': nat)
    requires matched == |results|
    ensures var r := RowResult(catalog)(ScraperLib.RowKey(row));
              results' == results + (if r.Some? then [r.value] else [])
    ensures matched' == |results'|
  {
    var upc := ScraperLib.GetUpc(row);
    results', matched' := results, matched;
    if upc != "" && upc in catalog {
      var d := catalog[upc];
      matched' := matched + 1;
      results' := results + [Entry(upc, d.title, d.description, d.imageUrl, d.productUrl)];
    }
  }

  /** `main`'s loop: one result per sheet row whose UPC is in the catalog, in sheet order, and their count. */
  method JoinRows(rows: seq<Row>, catalog: map<string, Data>) returns (results: seq<Entry>, matched: nat)
    ensures results == Gather(ScraperLib.RowKeys(rows), RowResult(catalog))
    ensures matched == |results|
  {
    ghost var keys := ScraperLib.RowKeys(rows);
    results, matched := [], 0;
    var i := 0;
    while i < |rows|
      invariant 0 <= i <= |rows|
      invariant results == Gather(keys[..i], RowResult(catalog))
      invariant matched == |results|
      decreases |rows| - i
    {
      PrefixSnoc(keys, i);
      GatherStep(keys[..i], keys[i], RowResult(catalog));
      results, matched := JoinNext(rows[i], catalog, results, matched);
      i := i + 1;
    }
    assert keys[..|rows|] == keys;
  }

  /**
   * Each result row is the catalog's data for the UPC of one sheet row;
   * when every sheet row's UPC is known, every row has its result.
   */
  lemma JoinSpec(rows: seq<Row>, catalog: map<string, Data>)
    ensures forall e :: e in Gather(ScraperLib.RowKeys(rows), RowResult(catalog)) ==>
              e.upc in catalog && e.upc != ""
              && catalog[e.upc] == Data(e.title, e.description, e.imageUrl, e.productUrl)
              && exists r :: 0 <= r < |rows| && ScraperLib.GetUpc(rows[r]) == e.upc
    ensures (forall r :: 0 <= r < |rows| ==> ScraperLib.GetUpc(rows[r]) in catalog && ScraperLib.GetUpc(rows[r]) != "") ==>
              |Gather(ScraperLib.RowKeys(rows), RowResult(catalog))| == |rows|
  {
    forall e | e in Gather(ScraperLib.RowKeys(rows), RowResult(catalog))
      ensures e.upc in catalog && e.upc != ""
              && catalog[e.upc] == Data(e.title, e.description, e.imageUrl, e.productUrl)
              && exists r :: 0 <= r < |rows| && ScraperLib.GetUpc(rows[r]) == e.upc
    {
      JoinedFromRow(rows, catalog, e);
    }
    JoinComplete(rows, catalog);
  }

  /** One result row is the catalog's data for the UPC of some sheet row. */
  lemma JoinedFromRow(rows: seq<Row>, catalog: map<string, Data>, e: Entry)
    requires e in Gather(ScraperLib.RowKeys(rows), RowResult(catalog))
    ensures e.upc in catalog && e.upc != ""
            && catalog[e.upc] == Data(e.title, e.description, e.imageUrl, e.productUrl)
            && exists r :: 0 <= r < |rows| && ScraperLib.GetUpc(rows[r]) == e.upc
  {
    var keys := ScraperLib.RowKeys(rows);
    var f := RowResult(catalog);
    var g := Gather(keys, f);
    var src := GatherSpec(keys, f);
    var k :| 0 <= k < |g| && g[k] == e;
    var r := src[k];
    assert f(keys[r]) == Some(e);
    assert keys[r].0 == ScraperLib.GetUpc(rows[r]);
  }

  /** When every sheet row's UPC is known, every row has its result. */
  lemma JoinComplete(rows: seq<Row>, catalog: map<string, Data>)
    ensures (forall r :: 0 <= r < |rows| ==> ScraperLib.GetUpc(rows[r]) in catalog && ScraperLib.GetUpc(rows[r]) != "") ==>
              |Gather(ScraperLib.RowKeys(rows), RowResult(catalog))| == |rows|
  {
    var keys := ScraperLib.RowKeys(rows);
    var f := RowResult(catalog);
    var src := GatherSpec(keys, f);
    if forall r :: 0 <= r < |rows| ==> ScraperLib.GetUpc(rows[r]) in catalog && ScraperLib.GetUpc(rows[r]) != "" {
      forall r | 0 <= r < |keys|
        ensures f(keys[r]).Some?
      {
        assert keys[r].0 == ScraperLib.GetUpc(rows[r]);
      }
    }
  }

  // ------------------------------------------------------------------
  // Image files

  /** The image file name as written: the extension, with ".png" when it is empty or a bare dot. */
  function ImageFileAsWritten(upc: string, imageUrl: string): string
  {
    var ext := ScraperLib.ImgExt(imageUrl);
    upc + (if ext == "" || ext == "." then ".png" else ext)
  }

  /** The ".png" fallback never applies: the file is the UPC and the URL's extension. */
  lemma PngFallbackIsDead(upc: string, imageUrl: string)
    ensures ImageFileAsWritten(upc, imageUrl) == upc + ScraperLib.ImgExt(imageUrl)
  {
    var ext := ScraperLib.ImgExt(imageUrl);
    assert ext in {".png", ".webp", ".gif", ".jpg"};
  }
}
