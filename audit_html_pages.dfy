/**
 * Auditing the saved pages of a site: the type of each page, whether it
 * carries product-specific data, and the per-site counters.
 */
module AuditHtmlPages {
  import opened Wrappers
  import opened Text
  import opened Json
  import opened Sheet
  import EP = ExtractProductData
  import DownloadImages

  // ------------------------------------------------------------------
  // og values

  /** The og properties this audit reads. */
  predicate AuditOgProp(prop: string)
  {
    prop == "og:title" || prop == "og:description" || prop == "og:image"
  }

  /** `get_og`: each og value present with non-empty content, stripped and cut at 200 characters. */
  function GetOg(p: EP.Page): (og: map<string, string>)
    ensures og.Keys <= {"og_title", "og_description", "og_image"}
    ensures forall k :: k in og ==> |og[k]| <= 200
    ensures AuditEntry(og, p, "og:title", "og_title") && AuditEntry(og, p, "og:description", "og_description")
    ensures AuditEntry(og, p, "og:image", "og_image")
  {
    var m1 := AddOg(map[], p, "og:title", "og_title");
    var m2 := AddOg(m1, p, "og:description", "og_description");
    AddOg(m2, p, "og:image", "og_image")
  }

  /** Key `key` holds the stripped content of `prop`, cut at 200, exactly when that content is non-empty. */
  predicate AuditEntry(og: map<string, string>, p: EP.Page, prop: string, key: string)
  {
    (key in og <==> prop in p.ogFirst && p.ogFirst[prop] != "")
    && (key in og ==> og[key] == Take(Strip(p.ogFirst[prop]), 200))
  }

  function AddOg(m: map<string, string>, p: EP.Page, prop: string, key: string): (r: map<string, string>)
    requires key !in m
    ensures r.Keys <= m.Keys + {key}
    ensures forall k :: k in m ==> k in r && r[k] == m[k]
    ensures AuditEntry(r, p, prop, key)
    ensures key in r ==> |r[key]| <= 200
  {
    if prop in p.ogFirst && p.ogFirst[prop] != "" then m[key := Take(Strip(p.ogFirst[prop]), 200)] else m
  }

  // ------------------------------------------------------------------
  // Page type

  /** Only the first description tag is read: its content, when non-empty, reads as not found. */
  predicate FirstDescriptionNotFound(p: EP.Page)
  {
    |p.metaDescriptions| > 0 && p.metaDescriptions[0].Some? && p.metaDescriptions[0].value != ""
    && EP.NotFoundText(p.metaDescriptions[0].value)
  }

  /** `detect_page_type` of the audit: index marker, not-found description, JSON-LD, og, unknown. */
  function DetectPageType(p: EP.Page): (t: EP.PageType)
    ensures t == EP.Index <==> EP.IndexMarker(p.html)
    ensures t == EP.NotFound <==> !EP.IndexMarker(p.html) && FirstDescriptionNotFound(p)
    ensures t == EP.ProductPage <==> !EP.IndexMarker(p.html) && !FirstDescriptionNotFound(p)
                                     && (EP.ExtractJsonLdProduct(p.ldBlocks).Some?
                                         || Cell(GetOg(p), "og_title") != "" || Cell(GetOg(p), "og_description") != "")
  {
    if EP.IndexMarker(p.html) then EP.Index
    else if FirstDescriptionNotFound(p) then EP.NotFound
    else if EP.ExtractJsonLdProduct(p.ldBlocks).Some? then EP.ProductPage
    else
      var og := GetOg(p);
      if Cell(og, "og_title") != "" || Cell(og, "og_description") != "" then EP.ProductPage
      else EP.Unknown
  }

  /**
   * The extractor looks at every description tag, the audit only at the
   * first: a not-found notice in a second tag makes the two disagree.
   */
  lemma SecondDescriptionDisagrees(p: EP.Page)
    requires !EP.IndexMarker(p.html) && |p.metaDescriptions| == 2
    requires p.metaDescriptions[0] == Some("A toy") && p.metaDescriptions[1] == Some("Page not found")
    ensures EP.DetectPageType(p) == EP.NotFound && DetectPageType(p) != EP.NotFound
  {
    assert Lower("Page not found")[5..] == "not found";
    assert StartsWith(Lower("Page not found")[5..], "not found");
    ContainsAt(Lower("Page not found"), "not found", 5);
    assert EP.NotFoundText(p.metaDescriptions[1].value);
    NoNotFoundInToy();
  }

  lemma NoNotFoundInToy()
    ensures !EP.NotFoundText("A toy")
  {
    assert Lower("A toy") == "a toy";
    ContainsNeedsHead("a toy", "cannot be found");
    ContainsNeedsHead("a toy", "not found");
    ContainsNeedsHead("a toy", "404");
  }

  // ------------------------------------------------------------------
  // Product-specific content

  datatype Reason =
    | NotFoundPage
    | IndexPage
    | LdNameAndMore
    | LdName
    | OgTitleWithImage
    | OgTitleAndDescription
    | IdInPage
    | UnknownWithOg
    | NoProductContent

  datatype Verdict = Verdict(ok: bool, reason: Reason)

  /** A modelled verdict that the page has product-specific content. */
  predicate Ok(v: Option<Verdict>) { v.Some? && v.value.ok }

  /** The og rules: a title longer than 15 with an image or "product" early in the page, or a title with a description longer than 30. */
  predicate OgTitleRule(p: EP.Page)
  {
    var og := GetOg(p);
    var title := Strip(Cell(og, "og_title"));
    title != "" && |title| > 15
    && (Strip(Cell(og, "og_image")) != "" || Contains(Take(Lower(p.html), 15000), "product"))
  }

  predicate OgDescriptionRule(p: EP.Page)
  {
    var og := GetOg(p);
    Strip(Cell(og, "og_title")) != "" && |Strip(Cell(og, "og_description"))| > 30
  }

  /** Any of the three og values is non-blank. */
  predicate AnyOg(p: EP.Page)
  {
    var og := GetOg(p);
    Strip(Cell(og, "og_title")) != "" || Strip(Cell(og, "og_description")) != "" || Strip(Cell(og, "og_image")) != ""
  }

  /** The JSON-LD name rule; `None` where name or description is a truthy non-string. */
  function LdRule(p: EP.Page): Option<Option<Reason>>
  {
    match EP.ExtractJsonLdProduct(p.ldBlocks)
    case None => Some(None)
    case Some(ld) =>
      var name := StrOrEmpty(ld, "name");
      var desc := StrOrEmpty(ld, "description");
      if name.None? || desc.None? then None
      else if Strip(name.value) != "" && ((Get(ld, "image").Some? && Truthy(Get(ld, "image").value)) || Strip(desc.value) != "")
      then Some(Some(LdNameAndMore))
      else if Strip(name.value) != "" then Some(Some(LdName))
      else Some(None)
  }

  /**
   * `has_product_specific_content`: never for 404 and index pages; then
   * JSON-LD with a name, the og rules, the product id in the page, and
   * finally any og value on an unknown page.
   */
  function HasProductSpecificContent(p: EP.Page, productId: string, pageType: EP.PageType): (r: Option<Verdict>)
    ensures pageType == EP.NotFound || pageType == EP.Index ==> r.Some? && !r.value.ok
    ensures pageType != EP.NotFound && pageType != EP.Index ==> (r.None? <==> LdRule(p).None?)
    ensures r.Some? && LdRule(p).Some? && pageType != EP.NotFound && pageType != EP.Index ==>
              (r.value.ok <==> (LdRule(p).value.Some? || OgTitleRule(p) || OgDescriptionRule(p)
                                || (productId != "" && Contains(p.html, productId))
                                || (pageType == EP.Unknown && AnyOg(p))))
  {
    if pageType == EP.NotFound then Some(Verdict(false, NotFoundPage))
    else if pageType == EP.Index then Some(Verdict(false, IndexPage))
    else
      match LdRule(p)
      case None => None
      case Some(Some(reason)) => Some(Verdict(true, reason))
      case Some(None) =>
        if OgTitleRule(p) then Some(Verdict(true, OgTitleWithImage))
        else if OgDescriptionRule(p) then Some(Verdict(true, OgTitleAndDescription))
        else if productId != "" && Contains(p.html, productId) then Some(Verdict(true, IdInPage))
        else if pageType == EP.Unknown && AnyOg(p) then Some(Verdict(true, UnknownWithOg))
        else Some(Verdict(false, NoProductContent))
  }

  /** A JSON-LD Product whose name is a non-blank string always counts. */
  lemma LdNameSuffices(p: EP.Page, productId: string, pageType: EP.PageType)
    requires pageType != EP.NotFound && pageType != EP.Index
    requires EP.ExtractJsonLdProduct(p.ldBlocks).Some?
    requires var ld := EP.ExtractJsonLdProduct(p.ldBlocks).value;
             Get(ld, "name").Some? && Get(ld, "name").value.JStr? && Strip(Get(ld, "name").value.s) != ""
             && StrOrEmpty(ld, "description").Some?
    ensures Ok(HasProductSpecificContent(p, productId, pageType))
  {
  }

  // ------------------------------------------------------------------
  // Per-site audit

  /** A directory entry and, when it could be read, its parsed page. */
  datatype SavedFile = SavedFile(name: string, page: Option<EP.Page>)

  /** `f.suffix == ".html"` and not the test sample. */
  predicate Audited(f: SavedFile)
  {
    EndsWith(f.name, ".html") && |f.name| > 5 && f.name != "_test_sample.html"
  }

  /** The file name without its `.html` suffix. */
  function Stem(f: SavedFile): string
    requires Audited(f)
  {
    f.name[..|f.name| - 5]
  }

  /**
   * The audited files: every listed file that is audited and no other,
   * in listing order.
   */
  function AuditedFiles(listing: seq<SavedFile>): (fs: seq<SavedFile>)
    ensures forall i :: 0 <= i < |fs| ==> Audited(fs[i])
    ensures forall f :: f in fs <==> f in listing && Audited(f)
    ensures IsSubseq(fs, listing)
  {
    SelectSubseq(listing, Audited);
    Select(listing, Audited)
  }

  /** The verdict of one readable file; `None` where it is not modelled. */
  function FileVerdict(f: SavedFile): Option<Verdict>
    requires Audited(f) && f.page.Some?
  {
    HasProductSpecificContent(f.page.value, Stem(f), DetectPageType(f.page.value))
  }

  /** A readable file whose verdict is not modelled. */
  predicate Unmodelled(f: SavedFile)
  {
    Audited(f) && f.page.Some? && FileVerdict(f).None?
  }

  /** The number of readable files whose page has type `t`. */
  function CountType(fs: seq<SavedFile>, t: EP.PageType): (n: nat)
    ensures n <= CountReadable(fs)
  {
    if |fs| == 0 then 0
    else (if fs[0].page.Some? && DetectPageType(fs[0].page.value) == t then 1 else 0) + CountType(fs[1..], t)
  }

  /** The number of readable files. */
  function CountReadable(fs: seq<SavedFile>): (n: nat)
    ensures n <= |fs|
  {
    if |fs| == 0 then 0 else (if fs[0].page.Some? then 1 else 0) + CountReadable(fs[1..])
  }

  /** The number of readable files with product-specific content. */
  function CountExtract(fs: seq<SavedFile>): (n: nat)
    requires forall i :: 0 <= i < |fs| ==> Audited(fs[i])
  {
    if |fs| == 0 then 0
    else (if fs[0].page.Some? && Ok(FileVerdict(fs[0])) then 1 else 0) + CountExtract(fs[1..])
  }

  lemma {:induction false} CountExtractBound(fs: seq<SavedFile>)
    requires forall i :: 0 <= i < |fs| ==> Audited(fs[i])
    ensures CountExtract(fs) <= CountReadable(fs)
  {
    if |fs| > 0 {
      CountExtractBound(fs[1..]);
    }
  }

  /** Every readable file has exactly one of the four types. */
  lemma {:induction false} TypesPartitionReadable(fs: seq<SavedFile>)
    ensures CountType(fs, EP.Index) + CountType(fs, EP.NotFound) + CountType(fs, EP.ProductPage) + CountType(fs, EP.Unknown)
            == CountReadable(fs)
  {
    if |fs| > 0 {
      TypesPartitionReadable(fs[1..]);
    }
  }

  datatype AuditResult =
    | NoDir
    | NoFiles
    | Audit(total: nat, pageTypes: map<EP.PageType, nat>, canExtractCount: nat, hasRightHtml: bool)

  /** `files[:limit]` when `limit` is non-zero, with Python's slice rule for a negative one. */
  function Limited(fs: seq<SavedFile>, limit: int): seq<SavedFile>
  {
    if limit != 0 then DownloadImages.SliceTo(fs, limit) else fs
  }

  /** The page-type counter after one more readable file. */
  function Bump(m: map<EP.PageType, nat>, t: EP.PageType): map<EP.PageType, nat>
  {
    m[t := (if t in m then m[t] else 0) + 1]
  }

  /** `page_types` holds exactly the types seen, each with its count. */
  predicate CountsMatch(m: map<EP.PageType, nat>, fs: seq<SavedFile>)
  {
    forall t :: (t in m <==> CountType(fs, t) > 0) && (t in m ==> m[t] == CountType(fs, t))
  }

  lemma {:induction false} CountTypeAppend(fs: seq<SavedFile>, f: SavedFile, t: EP.PageType)
    ensures CountType(fs + [f], t) == CountType(fs, t) + (if f.page.Some? && DetectPageType(f.page.value) == t then 1 else 0)
    decreases |fs|
  {
    if |fs| > 0 {
      assert (fs + [f])[0] == fs[0];
      assert (fs + [f])[1..] == fs[1..] + [f];
      CountTypeAppend(fs[1..], f, t);
    }
  }

  lemma {:induction false} CountExtractAppend(fs: seq<SavedFile>, f: SavedFile)
    requires forall i :: 0 <= i < |fs| ==> Audited(fs[i])
    requires Audited(f)
    ensures forall i :: 0 <= i < |fs + [f]| ==> Audited((fs + [f])[i])
    ensures CountExtract(fs + [f]) == CountExtract(fs) + (if f.page.Some? && Ok(FileVerdict(f)) then 1 else 0)
    decreases |fs|
  {
    assert forall i :: 0 <= i < |fs + [f]| ==> (fs + [f])[i] == if i < |fs| then fs[i] else f;
    if |fs| > 0 {
      assert (fs + [f])[1..] == fs[1..] + [f];
      CountExtractAppend(fs[1..], f);
    }
  }

  /** Counting one more file keeps the type counter exact. */
  lemma BumpKeepsMatch(m: map<EP.PageType, nat>, fs: seq<SavedFile>, f: SavedFile)
    requires CountsMatch(m, fs)
    ensures CountsMatch(if f.page.Some? then Bump(m, DetectPageType(f.page.value)) else m, fs + [f])
  {
    forall t | true
      ensures CountType(fs + [f], t) == CountType(fs, t) + (if f.page.Some? && DetectPageType(f.page.value) == t then 1 else 0)
    {
      CountTypeAppend(fs, f, t);
    }
  }

  /**
   * `audit_site`: a missing directory and an empty listing are reported
   * as such; otherwise every audited file (the slice `files[:limit]` when
   * `limit` is non-zero, so a negative one drops the last files) is counted by type and by verdict, unreadable files only in
   * the total. `None` where a verdict is not modelled.
   */
  method AuditSite(dirExists: bool, listing: seq<SavedFile>, limit: int) returns (r: Option<AuditResult>)
    ensures !dirExists ==> r == Some(NoDir)
    ensures dirExists && AuditedFiles(listing) == [] ==> r == Some(NoFiles)
    ensures dirExists && AuditedFiles(listing) != [] ==> AuditOf(r, Limited(AuditedFiles(listing), limit))
  {
    if !dirExists {
      return Some(NoDir);
    }
    var all := AuditedFiles(listing);
    if all == [] {
      return Some(NoFiles);
    }
    var fs := Limited(all, limit);
    var pageTypes, canExtract, crashed := CountFiles(fs);
    if crashed {
      r := None;
    } else {
      r := Some(Audit(|fs|, pageTypes, canExtract, canExtract == |fs| && |fs| > 0));
    }
    assert AuditOf(r, fs);
  }

  /**
   * The audit of the files `fs`: `None` exactly when some verdict is not
   * modelled; otherwise the total, the exact type and extractable counts
   * and `has_right_html` as "all extractable and some file".
   */
  predicate AuditOf(r: Option<AuditResult>, fs: seq<SavedFile>)
    requires forall i :: 0 <= i < |fs| ==> Audited(fs[i])
  {
    (r.None? <==> exists i :: 0 <= i < |fs| && Unmodelled(fs[i]))
    && (r.Some? ==> r.value.Audit? && r.value.total == |fs| && CountsMatch(r.value.pageTypes, fs)
                    && r.value.canExtractCount == CountExtract(fs)
                    && r.value.hasRightHtml == (r.value.canExtractCount == |fs| && |fs| > 0))
  }

  /** The counting loop of `audit_site` over the audited files. */
  method CountFiles(fs: seq<SavedFile>) returns (pageTypes: map<EP.PageType, nat>, canExtract: nat, crashed: bool)
    requires forall i :: 0 <= i < |fs| ==> Audited(fs[i])
    ensures CountsMatch(pageTypes, fs)
    ensures canExtract == CountExtract(fs)
    ensures crashed <==> exists j :: 0 <= j < |fs| && Unmodelled(fs[j])
  {
    pageTypes := map[];
    canExtract := 0;
    crashed := false;
    var i := 0;
    while i < |fs|
      invariant 0 <= i <= |fs|
      invariant CountsMatch(pageTypes, fs[..i])
      invariant canExtract == CountExtract(fs[..i])
      invariant crashed == AnyUnmodelled(fs[..i])
      decreases |fs| - i
    {
      var f := fs[i];
      assert fs[..i + 1] == fs[..i] + [f];
      BumpKeepsMatch(pageTypes, fs[..i], f);
      CountExtractAppend(fs[..i], f);
      AnyUnmodelledAppend(fs[..i], f);
      pageTypes, canExtract, crashed := CountOne(pageTypes, canExtract, crashed, f);
      i := i + 1;
    }
    assert fs[..i] == fs;
    AnyUnmodelledExists(fs);
  }

  /** One pass of the counting loop: an unreadable file changes nothing. */
  method CountOne(pageTypes: map<EP.PageType, nat>, canExtract: nat, crashed: bool, f: SavedFile)
    returns (pageTypes': map<EP.PageType, nat>, canExtract': nat, crashed': bool)
    requires Audited(f)
    ensures pageTypes' == if f.page.Some? then Bump(pageTypes, DetectPageType(f.page.value)) else pageTypes
    ensures canExtract' == canExtract + (if f.page.Some? && Ok(FileVerdict(f)) then 1 else 0)
    ensures crashed' == (crashed || Unmodelled(f))
  {
    pageTypes', canExtract', crashed' := pageTypes, canExtract, crashed;
    if f.page.Some? {
      var t := DetectPageType(f.page.value);
      pageTypes' := Bump(pageTypes, t);
      var v := FileVerdict(f);
      if v.None? {
        crashed' := true;
      } else if v.value.ok {
        canExtract' := canExtract + 1;
      }
    }
  }

  /** Some file's verdict is not modelled. */
  predicate AnyUnmodelled(fs: seq<SavedFile>)
  {
    |fs| > 0 && (Unmodelled(fs[0]) || AnyUnmodelled(fs[1..]))
  }

  lemma {:induction false} AnyUnmodelledAppend(fs: seq<SavedFile>, f: SavedFile)
    ensures AnyUnmodelled(fs + [f]) == (AnyUnmodelled(fs) || Unmodelled(f))
    decreases |fs|
  {
    if |fs| == 0 {
      assert (fs + [f])[1..] == [];
    } else {
      assert (fs + [f])[0] == fs[0];
      assert (fs + [f])[1..] == fs[1..] + [f];
      AnyUnmodelledAppend(fs[1..], f);
    }
  }

  lemma {:induction false} AnyUnmodelledExists(fs: seq<SavedFile>)
    ensures AnyUnmodelled(fs) <==> exists j :: 0 <= j < |fs| && Unmodelled(fs[j])
    decreases |fs|
  {
    if |fs| > 0 {
      AnyUnmodelledExists(fs[1..]);
      if AnyUnmodelled(fs[1..]) {
        var j :| 0 <= j < |fs[1..]| && Unmodelled(fs[1..][j]);
        assert fs[j + 1] == fs[1..][j];
      }
      if exists j :: 0 <= j < |fs| && Unmodelled(fs[j]) {
        var j :| 0 <= j < |fs| && Unmodelled(fs[j]);
        if j > 0 {
          assert fs[1..][j - 1] == fs[j];
        }
      }
    }
  }

  /**
   * `has_right_html` means every audited file was readable and has
   * product-specific content, and the type counts never exceed the total.
   */
  lemma RightHtmlMeansAll(fs: seq<SavedFile>)
    requires forall i :: 0 <= i < |fs| ==> Audited(fs[i])
    ensures CountType(fs, EP.Index) + CountType(fs, EP.NotFound) + CountType(fs, EP.ProductPage) + CountType(fs, EP.Unknown) <= |fs|
    ensures CountExtract(fs) == |fs| ==> CountReadable(fs) == |fs|
  {
    TypesPartitionReadable(fs);
    CountExtractBound(fs);
  }
}
