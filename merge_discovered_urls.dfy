/**
 * The merge of discovered product URLs into the sheets: each site's
 * discovered rows are keyed by normalised UPC and name, and every sheet
 * row gets a "Product URL" column from the best key it matches.
 */
module MergeDiscoveredUrls {
  import opened Wrappers
  import opened Text
  import opened Sheet
  import opened Overwrites

  const ProductUrlCol: string := "Product URL"

  /** `norm`: trimmed and lower-cased. */
  function Norm(s: string): string
  {
    Lower(Strip(s))
  }

  /** Lower-casing keeps every whitespace character where it is and makes none. */
  lemma LowerKeepsSpace(s: string)
    ensures forall i :: 0 <= i < |s| ==> (IsSpace(Lower(s)[i]) <==> IsSpace(s[i]))
  {
  }

  /** A normalised string has no edge whitespace and no capital, and normalising is idempotent. */
  lemma NormSpec(s: string)
    ensures Norm("") == ""
    ensures NoEdgeSpace(Norm(s)) && All(Norm(s), NotUpper)
    ensures Norm(Norm(s)) == Norm(s)
  {
    assert Strip("") == "" by {
      StripOfNoEdge("");
    }
    StripNoEdge(s);
    LowerKeepsSpace(Strip(s));
    assert NoEdgeSpace(Norm(s));
    StripOfNoEdge(Norm(s));
    assert Lower(Norm(s)) == Norm(s);
  }

  // ------------------------------------------------------------------
  // Loading the discovered rows

  type Key = (string, string)

  /** The normalised UPC and the normalised first 100 characters of the name of a discovered row. */
  function DiscoveredKey(d: Row): Key
  {
    (Norm(Cell(d, "UPC Code")), Norm(Take(Cell(d, "Name(En)"), 100)))
  }

  function DiscoveredUrl(d: Row): string
  {
    Strip(Cell(d, "Resolved URL"))
  }

  /** The keys a row with key `(u, n)` and URL `url` sets. */
  function KeysOf(u: string, n: string, url: string): set<Key>
  {
    if url == "" then {}
    else {(u, n)} + (if u != "" then {(u, "")} else {}) + (if n != "" then {("", n)} else {})
  }

  /**
   * The keys a discovered row sets: none without a URL; else the pair,
   * the UPC alone when there is one and the name alone when there is one.
   */
  function RowKeys(d: Row): set<Key>
  {
    KeysOf(DiscoveredKey(d).0, DiscoveredKey(d).1, DiscoveredUrl(d))
  }

  function RowMaps(ds: seq<Row>): (r: seq<map<Key, string>>)
    ensures |r| == |ds| && forall i :: 0 <= i < |ds| ==> r[i] == Const(RowKeys(ds[i]), DiscoveredUrl(ds[i]))
  {
    seq(|ds|, i requires 0 <= i < |ds| => Const(RowKeys(ds[i]), DiscoveredUrl(ds[i])))
  }

  /** `load_discovered` of a readable file: later rows overwrite earlier rows' keys. */
  function Discovered(ds: seq<Row>): map<Key, string>
  {
    Union(RowMaps(ds))
  }

  /** One row's assignments are the update by its keys. */
  lemma RowStep(out: map<Key, string>, d: Row, next: map<Key, string>)
    requires var (u, n) := DiscoveredKey(d);
             var url := DiscoveredUrl(d);
             var m1 := if url != "" then out[(u, n) := url] else out;
             var m2 := if url != "" && u != "" then m1[(u, "") := url] else m1;
             next == if url != "" && n != "" then m2[("", n) := url] else m2
    ensures next == out + Const(RowKeys(d), DiscoveredUrl(d))
  {
    var (u, n) := DiscoveredKey(d);
    UpdatesAreUnion(out, u, n, DiscoveredUrl(d), next);
  }

  /** Up to three assignments of one URL are the update by the keys they set. */
  lemma UpdatesAreUnion(out: map<Key, string>, u: string, n: string, url: string, next: map<Key, string>)
    requires var m1 := if url != "" then out[(u, n) := url] else out;
             var m2 := if url != "" && u != "" then m1[(u, "") := url] else m1;
             next == if url != "" && n != "" then m2[("", n) := url] else m2
    ensures next == out + Const(KeysOf(u, n, url), url)
  {
    var m := out + Const(KeysOf(u, n, url), url);
    assert next.Keys == m.Keys;
    forall k | k in m
      ensures next[k] == m[k]
    {
    }
  }

  /** `load_discovered`: nothing for a missing file, else the loop over its rows. */
  method LoadDiscovered(file: Option<seq<Row>>) returns (out: map<Key, string>)
    ensures out == (if file.None? then map[] else Discovered(file.value))
  {
    out := map[];
    if file.None? {
      return;
    }
    var ds := file.value;
    var i := 0;
    while i < |ds|
      invariant 0 <= i <= |ds|
      invariant out == Union(RowMaps(ds[..i]))
      decreases |ds| - i
    {
      var d := ds[i];
      var upc := Norm(Cell(d, "UPC Code"));
      var name := Norm(Take(Cell(d, "Name(En)"), 100));
      var url := Strip(Cell(d, "Resolved URL"));
      var next := out;
      if url != "" {
        next := next[(upc, name) := url];
        if upc != "" {
          next := next[(upc, "") := url];
        }
        if name != "" {
          next := next[("", name) := url];
        }
      }
      RowStep(out, d, next);
      assert RowMaps(ds[..i + 1])[..i] == RowMaps(ds[..i]);
      out := next;
      i := i + 1;
    }
    assert ds[..|ds|] == ds;
  }

  /**
   * A key is loaded exactly when a row with a URL sets it; its value is
   * the URL of the last row that sets it, and is never empty.
   */
  lemma DiscoveredSpec(ds: seq<Row>, k: Key)
    ensures k in Discovered(ds) <==> exists i :: 0 <= i < |ds| && k in RowKeys(ds[i])
    ensures forall i :: 0 <= i < |ds| && k in RowKeys(ds[i]) && (forall j :: i < j < |ds| ==> k !in RowKeys(ds[j])) ==>
              k in Discovered(ds) && Discovered(ds)[k] == DiscoveredUrl(ds[i])
    ensures k in Discovered(ds) ==> Discovered(ds)[k] != ""
  {
    var ms := RowMaps(ds);
    UnionSpec(ms, k);
    if k in Discovered(ds) {
      var i := UnionLast(ms, k);
    }
  }

  // ------------------------------------------------------------------
  // Looking up a sheet row

  /** The sheet row's UPC: the first of UPC Code, Origin(UPC) and Lookup Code, normalised. */
  function SheetUpc(row: Row): string
  {
    Norm(FirstFilled(row, ["UPC Code", "Origin(UPC)", "Lookup Code"]))
  }

  /** The sheet row's name: the first 100 characters of Name(En), else Item Name, normalised. */
  function SheetName(row: Row): string
  {
    Norm(Take(FirstFilled(row, ["Name(En)", "Item Name"]), 100))
  }

  function Get(lookup: map<Key, string>, k: Key): string
  {
    if k in lookup then lookup[k] else ""
  }

  /** The lookup as written: the pair, then the UPC alone, then the name alone, then "". */
  function LookupAsWritten(lookup: map<Key, string>, upc: string, name: string): string
  {
    OrElse(Get(lookup, (upc, name)), OrElse(Get(lookup, (upc, "")), OrElse(Get(lookup, ("", name)), "")))
  }

  /**
   * As written, a sheet row without a UPC probes `("", "")` for "the UPC
   * alone", the key a discovered row with neither UPC nor name sets: the
   * row gets that unrelated URL though its name matches nothing.
   */
  lemma BlankKeyExample()
    ensures var ds := [map["Resolved URL" := "http://a/p"]];
            var row := map["Name(En)" := "Car"];
            LookupAsWritten(Discovered(ds), SheetUpc(row), SheetName(row)) == "http://a/p"
            && LookupUrl(Discovered(ds), SheetUpc(row), SheetName(row)) == ""
  {
    var d := map["Resolved URL" := "http://a/p"];
    var row := map["Name(En)" := "Car"];
    NormSpec("");
    assert Take("", 100) == "";
    assert Cell(d, "UPC Code") == "" && Cell(d, "Name(En)") == "";
    StripOfNoEdge("http://a/p");
    assert Cell(d, "Resolved URL") == "http://a/p";
    assert FirstFilled(row, ["UPC Code", "Origin(UPC)", "Lookup Code"]) == "";
    assert FirstFilled(row, ["Name(En)", "Item Name"]) == "Car";
    assert Take("Car", 100) == "Car";
    StripOfNoEdge("Car");
    BlankKeyOf(d, SheetUpc(row), SheetName(row));
  }

  /**
   * A discovered row with a URL but neither UPC nor name sets only the
   * blank key; as written, a sheet row without a UPC whose name was not
   * discovered gets that URL, and the corrected lookup gives "".
   */
  lemma BlankKeyOf(d: Row, upc: string, name: string)
    requires DiscoveredKey(d) == ("", "") && DiscoveredUrl(d) != ""
    requires upc == "" && name != ""
    ensures LookupAsWritten(Discovered([d]), upc, name) == DiscoveredUrl(d)
    ensures LookupUrl(Discovered([d]), upc, name) == ""
  {
    assert RowKeys(d) == {("", "")};
    DiscoveredSpec([d], ("", ""));
    DiscoveredSpec([d], ("", name));
  }

  /** A probe key is used only when it holds a UPC or a name. */
  function Probe(lookup: map<Key, string>, k: Key): string
  {
    if k == ("", "") then "" else Get(lookup, k)
  }

  /**
   * The lookup as evidently intended: the pair, then the UPC alone, then
   * the name alone, never the blank key.
   */
  function LookupUrl(lookup: map<Key, string>, upc: string, name: string): string
  {
    OrElse(Probe(lookup, (upc, name)), OrElse(Probe(lookup, (upc, "")), OrElse(Probe(lookup, ("", name)), "")))
  }

  /** With both a UPC and a name the two lookups agree. */
  lemma LookupAgrees(lookup: map<Key, string>, upc: string, name: string)
    requires upc != "" && name != ""
    ensures LookupUrl(lookup, upc, name) == LookupAsWritten(lookup, upc, name)
  {
  }

  /** A key that holds a UPC or a name and is one of a sheet row's probes shares that UPC or name with the row that set it. */
  lemma RowKeysShare(d: Row, k: Key, upc: string, name: string)
    requires k in RowKeys(d) && k != ("", "")
    requires k == (upc, name) || k == (upc, "") || k == ("", name)
    ensures (upc != "" && DiscoveredKey(d).0 == upc) || (name != "" && DiscoveredKey(d).1 == name)
  {
  }

  /** The probe that gives a non-empty lookup. */
  lemma LookupKey(lookup: map<Key, string>, upc: string, name: string) returns (k: Key)
    requires LookupUrl(lookup, upc, name) != ""
    ensures k == (upc, name) || k == (upc, "") || k == ("", name)
    ensures k != ("", "") && k in lookup && lookup[k] == LookupUrl(lookup, upc, name)
  {
    if Probe(lookup, (upc, name)) != "" {
      k := (upc, name);
    } else if Probe(lookup, (upc, "")) != "" {
      k := (upc, "");
    } else {
      k := ("", name);
    }
  }

  /**
   * A URL the merge gives a sheet row comes from a discovered row that
   * shares its non-empty UPC or its non-empty name.
   */
  lemma LookupSound(ds: seq<Row>, upc: string, name: string)
    ensures var r := LookupUrl(Discovered(ds), upc, name);
            r != "" ==> exists i :: 0 <= i < |ds| && DiscoveredUrl(ds[i]) == r
                          && ((upc != "" && DiscoveredKey(ds[i]).0 == upc) || (name != "" && DiscoveredKey(ds[i]).1 == name))
  {
    var lookup := Discovered(ds);
    if LookupUrl(lookup, upc, name) != "" {
      var k := LookupKey(lookup, upc, name);
      var i := UnionLast(RowMaps(ds), k);
      assert k in RowKeys(ds[i]) && lookup[k] == DiscoveredUrl(ds[i]);
      RowKeysShare(ds[i], k, upc, name);
    }
  }

  /**
   * A sheet row whose UPC and name are the last discovered row's with
   * that pair gets that row's URL.
   */
  lemma LookupFinds(ds: seq<Row>, i: nat, row: Row)
    requires i < |ds| && DiscoveredUrl(ds[i]) != "" && DiscoveredKey(ds[i]) == (SheetUpc(row), SheetName(row))
    requires DiscoveredKey(ds[i]) != ("", "")
    requires forall j :: i < j < |ds| ==> DiscoveredKey(ds[i]) !in RowKeys(ds[j])
    ensures LookupUrl(Discovered(ds), SheetUpc(row), SheetName(row)) == DiscoveredUrl(ds[i])
  {
    DiscoveredSpec(ds, DiscoveredKey(ds[i]));
  }

  /** The lookup gives "" exactly when none of the three keys that hold a UPC or a name is loaded. */
  lemma LookupEmpty(ds: seq<Row>, upc: string, name: string)
    ensures LookupUrl(Discovered(ds), upc, name) == "" <==>
              (forall k :: k in {(upc, name), (upc, ""), ("", name)} && k != ("", "") ==> k !in Discovered(ds))
  {
    DiscoveredSpec(ds, (upc, name));
    DiscoveredSpec(ds, (upc, ""));
    DiscoveredSpec(ds, ("", name));
  }

  // ------------------------------------------------------------------
  // Rewriting a sheet

  /** The sheet's field names with "Product URL" appended unless present. */
  function MergedFields(fields: seq<string>): (r: seq<string>)
    ensures ProductUrlCol in r && |fields| <= |r| <= |fields| + 1 && r[..|fields|] == fields
    ensures ProductUrlCol in fields ==> r == fields
  {
    if ProductUrlCol in fields then fields else fields + [ProductUrlCol]
  }

  /** The column is appended at most once: merging the field names again changes nothing. */
  lemma MergedFieldsIdempotent(fields: seq<string>)
    ensures MergedFields(MergedFields(fields)) == MergedFields(fields)
  {
  }

  /** A rewritten row: its Product URL set, possibly to "". */
  function MergedRow(lookup: map<Key, string>, row: Row): Row
  {
    row[ProductUrlCol := LookupUrl(lookup, SheetUpc(row), SheetName(row))]
  }

  /**
   * Every rewritten row has the column, with the URL its keys find, and
   * keeps every other column.
   */
  lemma MergedRowSpec(lookup: map<Key, string>, row: Row)
    ensures ProductUrlCol in MergedRow(lookup, row)
    ensures Cell(MergedRow(lookup, row), ProductUrlCol) == LookupUrl(lookup, SheetUpc(row), SheetName(row))
    ensures forall c :: c != ProductUrlCol ==> (c in MergedRow(lookup, row) <==> c in row)
    ensures forall c :: c in row && c != ProductUrlCol ==> MergedRow(lookup, row)[c] == row[c]
  {
  }

  /** The loop of `main` over one sheet's rows. */
  method MergeRows(lookup: map<Key, string>, rows: seq<Row>) returns (out: seq<Row>)
    ensures |out| == |rows| && forall i :: 0 <= i < |rows| ==> out[i] == MergedRow(lookup, rows[i])
  {
    out := [];
    var i := 0;
    while i < |rows|
      invariant 0 <= i <= |rows| && |out| == i
      invariant forall j :: 0 <= j < i ==> out[j] == MergedRow(lookup, rows[j])
      decreases |rows| - i
    {
      var row := MergeOne(lookup, rows[i]);
      AppendMerged(lookup, rows, out, row);
      out := out + [row];
      i := i + 1;
    }
  }

  /** One row of the loop. */
  method MergeOne(lookup: map<Key, string>, row: Row) returns (merged: Row)
    ensures merged == MergedRow(lookup, row)
  {
    var upc := SheetUpc(row);
    var name := SheetName(row);
    merged := row[ProductUrlCol := LookupUrl(lookup, upc, name)];
  }

  /** The loop's invariant is kept by appending the next merged row. */
  lemma AppendMerged(lookup: map<Key, string>, rows: seq<Row>, out: seq<Row>, row: Row)
    requires |out| < |rows| && row == MergedRow(lookup, rows[|out|])
    requires forall j :: 0 <= j < |out| ==> out[j] == MergedRow(lookup, rows[j])
    ensures forall j :: 0 <= j < |out| + 1 ==> (out + [row])[j] == MergedRow(lookup, rows[j])
  {
  }

  // ------------------------------------------------------------------
  // All sites

  /** What `main` writes for a site: nothing without a sheet or a non-empty lookup. */
  function SiteWrite(sheet: Option<Table>, file: Option<seq<Row>>): Option<Table>
  {
    var lookup := if file.None? then map[] else Discovered(file.value);
    if sheet.None? || lookup == map[] then None
    else Some(Table(MergedFields(sheet.value.fields), seq(|sheet.value.rows|, i requires 0 <= i < |sheet.value.rows| => MergedRow(lookup, sheet.value.rows[i]))))
  }

  /** Nothing is loaded exactly when no discovered row has a URL. */
  lemma DiscoveredEmpty(ds: seq<Row>)
    ensures Discovered(ds) == map[] <==> forall i :: 0 <= i < |ds| ==> DiscoveredUrl(ds[i]) == ""
  {
    if exists i :: 0 <= i < |ds| && DiscoveredUrl(ds[i]) != "" {
      var i :| 0 <= i < |ds| && DiscoveredUrl(ds[i]) != "";
      var k := DiscoveredKey(ds[i]);
      assert k in RowKeys(ds[i]);
      UnionSpec(RowMaps(ds), k);
    } else {
      forall k: Key | k in Discovered(ds)
        ensures false
      {
        var i := UnionLast(RowMaps(ds), k);
      }
    }
  }

  /**
   * A site is rewritten exactly when it has a sheet and some discovered
   * row with a URL; the rewrite keeps every row and gives each the column.
   */
  lemma SiteWriteSpec(sheet: Option<Table>, file: Option<seq<Row>>)
    ensures SiteWrite(sheet, file).Some? <==>
              (sheet.Some? && file.Some? && exists i :: 0 <= i < |file.value| && DiscoveredUrl(file.value[i]) != "")
    ensures SiteWrite(sheet, file).Some? ==>
              var t := SiteWrite(sheet, file).value;
              |t.rows| == |sheet.value.rows| && ProductUrlCol in t.fields
              && forall i :: 0 <= i < |t.rows| ==> ProductUrlCol in t.rows[i]
  {
    if file.Some? {
      DiscoveredEmpty(file.value);
    }
  }

  /** One site of `main`'s loop: its sheet rewritten when it has one and the discovered file gives a URL. */
  method MergeSite(sheet: Option<Table>, file: Option<seq<Row>>) returns (w: Option<Table>)
    ensures w == SiteWrite(sheet, file)
  {
    w := None;
    if sheet.Some? {
      var lookup := LoadDiscovered(file);
      if lookup != map[] {
        var rows := MergeRows(lookup, sheet.value.rows);
        assert rows == seq(|sheet.value.rows|, j requires 0 <= j < |sheet.value.rows| => MergedRow(lookup, sheet.value.rows[j]));
        w := Some(Table(MergedFields(sheet.value.fields), rows));
      }
    }
  }

  /**
   * `main`: the named site, else every site with a discovered file, in the
   * order given; an empty `--site` is false in Python and names none.
   */
  method Merge(site: Option<string>, discoveredSites: seq<string>, sheets: string -> Option<Table>, files: string -> Option<seq<Row>>)
    returns (writes: seq<(string, Table)>)
    ensures var sites := if site.Some? && site.value != "" then [site.value] else discoveredSites;
            forall s, t :: (s, t) in writes ==> s in sites && SiteWrite(sheets(s), files(s)) == Some(t)
    ensures var sites := if site.Some? && site.value != "" then [site.value] else discoveredSites;
            forall s :: s in sites && SiteWrite(sheets(s), files(s)).Some? ==> exists t :: (s, t) in writes
  {
    var sites := if site.Some? && site.value != "" then [site.value] else discoveredSites;
    ghost var f := (s: string) => SiteWrite(sheets(s), files(s));
    writes := [];
    var i := 0;
    while i < |sites|
      invariant 0 <= i <= |sites|
      invariant WritesOf(writes, sites[..i], f)
      decreases |sites| - i
    {
      var s := sites[i];
      assert sites[..i + 1] == sites[..i] + [s];
      var w := MergeSite(sheets(s), files(s));
      WritesStep(writes, sites[..i], s, w, f);
      if w.Some? {
        writes := writes + [(s, w.value)];
      }
      i := i + 1;
    }
    assert sites[..|sites|] == sites;
  }

  /** The writes so far: each of a site done, with what `f` gives it, and one for every site done that `f` gives one. */
  ghost predicate WritesOf(writes: seq<(string, Table)>, done: seq<string>, f: string -> Option<Table>)
  {
    && (forall s, t :: (s, t) in writes ==> s in done && f(s) == Some(t))
    && (forall s :: s in done && f(s).Some? ==> exists t :: (s, t) in writes)
  }

  /** The loop keeps its invariant: the next site's write, if any, is appended. */
  lemma WritesStep(writes: seq<(string, Table)>, done: seq<string>, s: string, w: Option<Table>, f: string -> Option<Table>)
    requires WritesOf(writes, done, f) && w == f(s)
    ensures WritesOf(if w.Some? then writes + [(s, w.value)] else writes, done + [s], f)
  {
    if w.Some? {
      assert (s, w.value) in writes + [(s, w.value)];
    }
  }
}
