/**
 * The brand-site scraper: for each configured brand without a fetched
 * catalog, each sheet row gets a product URL from the brand's adapter,
 * the page's description, dimensions and images fill the row, and rows
 * a previous run already filled are restored instead of fetched again.
 */
module ScrapeBrands {
  import opened Wrappers
  import opened Text
  import opened Slugs
  import opened Sheet
  import opened Files
  import FillAndDownload

  // ------------------------------------------------------------------
  // Product URLs

  /** `chazak_product_url`: `{base}/products/{slug}`, nothing when the name has no slug. */
  function ChazakUrl(base: string, row: Row): Option<string>
  {
    var name := Strip(Cell(row, "Name(En)"));
    var handle := FillAndDownload.Slug(name);
    if name == "" || handle == "" then None else Some(RStripCh(base, '/') + "/products/" + handle)
  }

  /** `metal_earth_product_url`: `{base}/{slug}`, nothing when the name has no slug. */
  function MetalEarthUrl(base: string, row: Row): Option<string>
  {
    var name := Strip(Cell(row, "Name(En)"));
    var handle := FillAndDownload.Slug(name);
    if name == "" || handle == "" then None else Some(RStripCh(base, '/') + "/" + handle)
  }

  /**
   * The Shopify-style adapters give a URL exactly when the name has a slug;
   * the URL is the base without its trailing slash, the adapter's path and
   * a non-empty slug of at most 80 characters that cannot start a new path
   * segment or a query.
   */
  lemma SlugAdaptersSpec(base: string, row: Row)
    ensures var h := FillAndDownload.Slug(Strip(Cell(row, "Name(En)")));
              (ChazakUrl(base, row).Some? <==> h != "") && (MetalEarthUrl(base, row).Some? <==> h != "")
    ensures var h := FillAndDownload.Slug(Strip(Cell(row, "Name(En)")));
              ChazakUrl(base, row).Some? ==>
                ChazakUrl(base, row).value == RStripCh(base, '/') + "/products/" + h
                && 0 < |h| <= 80 && h[0] != '-' && forall i :: 0 <= i < |h| ==> h[i] != '/' && h[i] != '?'
    ensures var h := FillAndDownload.Slug(Strip(Cell(row, "Name(En)")));
              MetalEarthUrl(base, row).Some? ==>
                MetalEarthUrl(base, row).value == RStripCh(base, '/') + "/" + h
                && 0 < |h| <= 80 && h[0] != '-' && forall i :: 0 <= i < |h| ==> h[i] != '/' && h[i] != '?'
  {
    var name := Strip(Cell(row, "Name(En)"));
    FillAndDownload.SlugShape(name);
    FillAndDownload.SlugShape("");
    var h := FillAndDownload.Slug(name);
    forall i | 0 <= i < |h| ensures h[i] != '/' && h[i] != '?' {
      assert IsSlugChar(h[i]);
    }
  }

  /** `winning_moves_product_url`: the name's word characters, lower-cased, as `{base}/product/{s}.asp`. */
  function WinningMovesUrl(base: string, row: Row): Option<string>
  {
    var name := Strip(Cell(row, "Name(En)"));
    var s := Filter(Lower(name), IsWordChar);
    if name == "" || s == "" then None else Some(RStripCh(base, '/') + "/product/" + s + ".asp")
  }

  /** The Winning Moves page name is the name's letters, digits and underscores, lower-cased. */
  lemma WinningMovesSpec(base: string, row: Row)
    ensures var s := Filter(Lower(Strip(Cell(row, "Name(En)"))), IsWordChar);
            (WinningMovesUrl(base, row).None? <==> s == "")
            && (WinningMovesUrl(base, row).Some? ==> WinningMovesUrl(base, row).value == RStripCh(base, '/') + "/product/" + s + ".asp")
            && All(s, IsWordChar) && All(s, NotUpper)
  {
    var l := Lower(Strip(Cell(row, "Name(En)")));
    assert All(l, NotUpper);
    FilterAll(l, IsWordChar);
    FillAndDownload.FilterKeeps(l, IsWordChar, NotUpper);
    if Strip(Cell(row, "Name(En)")) == "" {
      assert l == "";
    }
  }

  /** `cache.get(k)` read through `or`: a missing key and an empty URL are both nothing. */
  function CacheGet(cache: map<string, string>, k: string): Option<string>
  {
    if k in cache && cache[k] != "" then Some(cache[k]) else None
  }

  /** The Bruder item number: zero-filled to five digits when the Number is all digits. */
  function ItemNo(number: string): string
  {
    if IsDigits(number) then ZFill(number, 5) else number
  }

  /** Zero-filling keeps a digit string's value and gives it at least five digits. */
  lemma ItemNoSpec(number: string)
    requires IsDigits(number)
    ensures IsDigits(ItemNo(number)) && |ItemNo(number)| >= 5
    ensures DigitsValue(ItemNo(number)) == DigitsValue(number)
    ensures |number| >= 5 ==> ItemNo(number) == number
  {
    if |number| < 5 {
      ZerosAreZeros(5 - |number|);
      ZerosValue(Repeat('0', 5 - |number|), number);
    }
  }

  /**
   * `bruder_product_url`: with a Number, the cached URL of the Number, of
   * its item number or of the Number without leading zeros, when the
   * cache has one; else `https://www.bruder.de/shop/en/{slug}/{item_no}`
   * when the name has a slug.
   */
  function BruderUrl(cache: map<string, string>, row: Row): Option<string>
  {
    var number := Strip(Cell(row, "Number"));
    if number == "" then None
    else
      var cached := if cache != map[] then CacheGet(cache, number).Or(CacheGet(cache, ItemNo(number))).Or(CacheGet(cache, LStripCh(number, '0'))) else None;
      if cached.Some? then cached
      else
        var name := Strip(Cell(row, "Name(En)"));
        var handle := FillAndDownload.Slug(name);
        if name == "" || handle == "" then None
        else Some("https://www.bruder.de/shop/en/" + handle + "/" + ItemNo(number))
  }

  /**
   * A Bruder row without a Number has no URL. With one, the first cached
   * URL of the Number, its item number and the Number without leading
   * zeros, in that order, wins (an empty cache misses every key, so the
   * script's `if cache:` changes nothing); without a hit, the URL is built
   * from the name's slug and the item number, and there is none when the
   * name is blank or has no slug.
   */
  lemma BruderSpec(cache: map<string, string>, row: Row)
    ensures Strip(Cell(row, "Number")) == "" ==> BruderUrl(cache, row).None?
    ensures var number := Strip(Cell(row, "Number"));
            var hit := CacheGet(cache, number).Or(CacheGet(cache, ItemNo(number))).Or(CacheGet(cache, LStripCh(number, '0')));
            number != "" && hit.Some? ==> BruderUrl(cache, row) == hit
    ensures var number := Strip(Cell(row, "Number"));
            var name := Strip(Cell(row, "Name(En)"));
            var hit := CacheGet(cache, number).Or(CacheGet(cache, ItemNo(number))).Or(CacheGet(cache, LStripCh(number, '0')));
            number != "" && hit.None? ==>
              (BruderUrl(cache, row).None? <==> name == "" || FillAndDownload.Slug(name) == "")
              && (BruderUrl(cache, row).Some? ==>
                    BruderUrl(cache, row).value == "https://www.bruder.de/shop/en/" + FillAndDownload.Slug(name) + "/" + ItemNo(number))
    ensures var number := Strip(Cell(row, "Number"));
            number != "" && number in cache && cache[number] != "" ==> BruderUrl(cache, row) == Some(cache[number])
    ensures var number := Strip(Cell(row, "Number"));
            BruderUrl(cache, row).Some? ==>
              (BruderUrl(cache, row).value in cache.Values && BruderUrl(cache, row).value != "")
              || EndsWith(BruderUrl(cache, row).value, "/" + ItemNo(number))
  {
    var number := Strip(Cell(row, "Number"));
    var u := BruderUrl(cache, row);
    if number != "" && u.Some? && !(u.value in cache.Values) {
      var name := Strip(Cell(row, "Name(En)"));
      var t := "https://www.bruder.de/shop/en/" + FillAndDownload.Slug(name);
      assert u.value == t + ("/" + ItemNo(number));
      assert u.value[|u.value| - |"/" + ItemNo(number)|..] == "/" + ItemNo(number);
    }
  }

  // ------------------------------------------------------------------
  // Razor

  /** The handles of the Razor patterns, in the order the patterns are tried. */
  const RazorSlugs: seq<string> := [
    "powera2-electric-scooter", "a2-scooter", "a5-lux-scooter", "a5-dlx-scooter", "a5-air-scooter",
    "a5-lux-light-up-scooter", "a-scooter", "ripstik-classic", "ripster", "hovertrax",
    "jetts-heel-wheels-dlx", "flashback-bmx-style-kick-scooter", "rollie-dlx", "kixi", "riprider-360",
    "flash-rider-360", "tekno-scooter", "party-pop-scooter", "a3-scooter", "spark-ultra-scooter",
    "spark-scooter", "wild-ones-junior-kick-scooter", "folding-kiddie-kick-scooter", "razor-jr-lil-kick-scooter", "berry-lux-scooter",
    "a125-anodized-kick-scooter", "a6-scooter", "a-lightshow-kick-scooter", "rds-razor-dirt-scooter", "carbon-lux-scooter"]

  /** The words dropped before the fallback slug: the brand and the colours. */
  const ColourWords: seq<string> := ["razor", "blue", "red", "black", "green", "pink", "purple", "clear", "white", "orange", "teal"]

  /**
   * The first of the patterns `from` to the last that `matches` (standing
   * for `re.search` of pattern `k`, case-insensitive) finds in `name`.
   */
  function FirstMatch(name: string, matches: (nat, string) -> bool, from: nat): (r: Option<nat>)
    ensures r.Some? ==> from <= r.value < |RazorSlugs| && matches(r.value, name)
    ensures r.Some? ==> forall k :: from <= k < r.value ==> !matches(k, name)
    ensures r.None? ==> forall k :: from <= k < |RazorSlugs| ==> !matches(k, name)
    decreases |RazorSlugs| - from
  {
    if from >= |RazorSlugs| then None
    else if matches(from, name) then Some(from)
    else FirstMatch(name, matches, from + 1)
  }

  /** A word of `words` that `s` starts with and that ends at a word boundary. */
  function WordAt(s: string, words: seq<string>): (r: Option<nat>)
    ensures r.Some? ==> r.value < |words| && words[r.value] != "" && StartsWith(s, words[r.value])
    ensures r.None? ==> forall k :: 0 <= k < |words| && words[k] != "" && StartsWith(s, words[k]) ==>
                          |s| > |words[k]| && IsWordChar(s[|words[k]|])
    decreases |words|
  {
    if words == [] then None
    else
      var w := words[0];
      if w != "" && StartsWith(s, w) && (|s| == |w| || !IsWordChar(s[|w|])) then Some(0)
      else
        var r := WordAt(s, words[1..]);
        if r.Some? then Some(r.value + 1) else None
  }

  /**
   * `re.sub(r"\b(razor|blue|...)\b", "", s)`: each whole colour word goes,
   * `afterWord` saying whether the character before `s` is a word
   * character.
   */
  function DropWords(s: string, afterWord: bool): string
    decreases |s|
  {
    if s == [] then []
    else if !afterWord && WordAt(s, ColourWords).Some? then
      var w := ColourWords[WordAt(s, ColourWords).value];
      DropWords(s[|w|..], IsWordChar(w[|w| - 1]))
    else [s[0]] + DropWords(s[1..], IsWordChar(s[0]))
  }

  lemma AllFrom(s: string, n: nat, q: char -> bool)
    requires All(s, q) && n <= |s|
    ensures All(s[n..], q)
  {
    assert forall i :: 0 <= i < |s[n..]| ==> s[n..][i] == s[n + i];
  }

  /** Dropping words keeps any property of every character. */
  lemma {:induction false} DropWordsAll(s: string, afterWord: bool, q: char -> bool)
    requires All(s, q)
    ensures All(DropWords(s, afterWord), q)
    decreases |s|
  {
    if s != [] {
      if !afterWord && WordAt(s, ColourWords).Some? {
        var w := ColourWords[WordAt(s, ColourWords).value];
        AllFrom(s, |w|, q);
        DropWordsAll(s[|w|..], IsWordChar(w[|w| - 1]), q);
      } else {
        AllFrom(s, 1, q);
        DropWordsAll(s[1..], IsWordChar(s[0]), q);
      }
    }
  }

  /** A name in which no colour word starts after a non-word character keeps every character. */
  lemma {:induction false} DropWordsIdle(s: string, afterWord: bool)
    requires forall i :: 0 <= i < |s| && (if i == 0 then !afterWord else !IsWordChar(s[i - 1])) ==> WordAt(s[i..], ColourWords).None?
    ensures DropWords(s, afterWord) == s
    decreases |s|
  {
    if s != [] {
      assert s[0..] == s;
      NoWordStartTail(s, afterWord);
      DropWordsIdle(s[1..], IsWordChar(s[0]));
      assert s == [s[0]] + s[1..];
    }
  }

  /** What `DropWordsIdle` asks of a name holds of its tail. */
  lemma NoWordStartTail(s: string, afterWord: bool)
    requires s != []
    requires forall i :: 0 <= i < |s| && (if i == 0 then !afterWord else !IsWordChar(s[i - 1])) ==> WordAt(s[i..], ColourWords).None?
    ensures forall i :: 0 <= i < |s[1..]| && (if i == 0 then !IsWordChar(s[0]) else !IsWordChar(s[1..][i - 1])) ==>
              WordAt(s[1..][i..], ColourWords).None?
  {
    forall i | 0 <= i < |s[1..]| && (if i == 0 then !IsWordChar(s[0]) else !IsWordChar(s[1..][i - 1]))
      ensures WordAt(s[1..][i..], ColourWords).None?
    {
      assert s[1..][i..] == s[i + 1..];
    }
  }

  /**
   * The fallback handle of a lower-cased name: colour words dropped, then
   * strip, keep `[\w\s-]`, strip, one hyphen per run of hyphens and
   * whitespace, edge hyphens stripped, cut at 50.
   */
  function RazorFallback(name: string): string
  {
    var s := Strip(DropWords(name, false));
    var s := Strip(Filter(s, IsSlugKeep));
    Take(StripCh(CollapseRuns(s, IsDashOrSpace, '-'), '-'), 50)
  }

  /** The fallback of a lower-cased name is slug-shaped: `[a-z0-9_-]`, single hyphens, at most 50 characters. */
  lemma RazorFallbackShape(name: string)
    requires All(name, NotUpper)
    ensures var h := RazorFallback(name);
            All(h, IsSlugChar) && NoAdjacent(h, '-') && |h| <= 50 && (h == "" || h[0] != '-')
  {
    var s := Strip(Filter(Strip(DropWords(name, false)), IsSlugKeep));
    RazorStem(name);
    RazorTail(s);
  }

  /** Before the hyphens, the fallback's text has no upper-case letter and hyphenates like a slug. */
  lemma RazorStem(name: string)
    requires All(name, NotUpper)
    ensures var s := Strip(Filter(Strip(DropWords(name, false)), IsSlugKeep));
            All(s, NotUpper) && CollapseRuns(s, IsDashOrSpace, '-') == Hyphenate(s)
  {
    var d := DropWords(name, false);
    DropWordsAll(name, false, NotUpper);
    var t := Strip(d);
    StripAll(d, NotUpper);
    var f := Filter(t, IsSlugKeep);
    FilterAll(t, IsSlugKeep);
    FillAndDownload.FilterKeeps(t, IsSlugKeep, NotUpper);
    var s := Strip(f);
    StripAll(f, IsSlugKeep);
    StripAll(f, NotUpper);
    FilterKeepsAll(s, IsSlugKeep);
  }

  /** Hyphenating a lower-cased text, stripping edge hyphens and cutting at 50 gives a slug shape. */
  lemma RazorTail(s: string)
    requires All(s, NotUpper)
    ensures var h := Take(StripCh(Hyphenate(s), '-'), 50);
            All(h, IsSlugChar) && NoAdjacent(h, '-') && |h| <= 50 && (h == "" || h[0] != '-')
  {
    FillAndDownload.HyphenateLowered(s);
    var h := Hyphenate(s);
    var a, b := FillAndDownload.StripChSlice(h, '-');
    FillAndDownload.SliceSlugChars(h, a, b);
    TakeSlugChars(StripCh(h, '-'), 50);
  }

  /**
   * The Razor handle: the first pattern's handle; else the fallback; else
   * the slug of the whole name; nothing for an empty name or handle.
   */
  function RazorHandle(row: Row, matches: (nat, string) -> bool): Option<string>
  {
    var name := Lower(Strip(Cell(row, "Name(En)")));
    if name == "" then None
    else
      match FirstMatch(name, matches, 0)
      case Some(k) => Some(RazorSlugs[k])
      case None =>
        var s := RazorFallback(name);
        var h := if s != "" then s else FillAndDownload.Slug(Strip(Cell(row, "Name(En)")));
        if h == "" then None else Some(h)
  }

  /** `razor_product_url`: `{base}/product/{handle}/`. */
  function RazorUrl(base: string, row: Row, matches: (nat, string) -> bool): Option<string>
  {
    match RazorHandle(row, matches)
    case Some(h) => Some(RStripCh(base, '/') + "/product/" + h + "/")
    case None => None
  }

  /**
   * A matched name gets the handle of the first pattern that matches it;
   * any other handle is non-empty and slug-shaped, at most 80 characters.
   */
  lemma RazorHandleSpec(row: Row, matches: (nat, string) -> bool)
    ensures var name := Lower(Strip(Cell(row, "Name(En)")));
            name != "" && FirstMatch(name, matches, 0).Some? ==>
              RazorHandle(row, matches) == Some(RazorSlugs[FirstMatch(name, matches, 0).value])
    ensures var name := Lower(Strip(Cell(row, "Name(En)")));
            RazorHandle(row, matches).Some? && FirstMatch(name, matches, 0).None? ==>
              var h := RazorHandle(row, matches).value;
              h != "" && All(h, IsSlugChar) && NoAdjacent(h, '-') && |h| <= 80
  {
    var name := Lower(Strip(Cell(row, "Name(En)")));
    assert All(name, NotUpper);
    RazorFallbackShape(name);
    FillAndDownload.SlugShape(Strip(Cell(row, "Name(En)")));
  }

  /** The pattern loop of `razor_product_url`, stopping at the first match. */
  method RazorProductUrl(base: string, row: Row, matches: (nat, string) -> bool) returns (url: Option<string>)
    ensures url == RazorUrl(base, row, matches)
  {
    var name := Lower(Strip(Cell(row, "Name(En)")));
    if name == "" {
      return None;
    }
    var k := 0;
    while k < |RazorSlugs| && !matches(k, name)
      invariant 0 <= k <= |RazorSlugs|
      invariant FirstMatch(name, matches, 0) == FirstMatch(name, matches, k)
      decreases |RazorSlugs| - k
    {
      k := k + 1;
    }
    var handle: Option<string> := None;
    if k < |RazorSlugs| {
      handle := Some(RazorSlugs[k]);
    }
    if handle.None? {
      var s := RazorFallback(name);
      var h := if s != "" then s else FillAndDownload.Slug(Strip(Cell(row, "Name(En)")));
      if h != "" {
        handle := Some(h);
      }
    }
    if handle.None? {
      return None;
    }
    url := Some(RStripCh(base, '/') + "/product/" + handle.value + "/");
  }

  // ------------------------------------------------------------------
  // The adapter registry

  /**
   * What the adapters read beyond the row: the Bruder URL cache, the Razor
   * pattern matcher and the Rhode Island search (the product URL the
   * site's search gives for a term, or nothing).
   */
  datatype Adapters = Adapters(bruderCache: map<string, string>, razorMatches: (nat, string) -> bool, riSearch: string -> Option<string>)

  /** `rhode_island_product_url`: the search for the Lookup Code, else the Item Name. */
  function RhodeIslandUrl(row: Row, search: string -> Option<string>): Option<string>
  {
    var term := Strip(FirstFilled(row, ["Lookup Code", "Item Name"]));
    if term == "" then None else search(term)
  }

  /** Rhode Island searches the lookup code when one is given, else the item name; a blank term searches nothing. */
  lemma RhodeIslandUrlSpec(row: Row, search: string -> Option<string>)
    ensures Cell(row, "Lookup Code") != "" ==>
              RhodeIslandUrl(row, search) == (if Strip(Cell(row, "Lookup Code")) == "" then None else search(Strip(Cell(row, "Lookup Code"))))
    ensures Cell(row, "Lookup Code") == "" ==>
              RhodeIslandUrl(row, search) == (if Strip(Cell(row, "Item Name")) == "" then None else search(Strip(Cell(row, "Item Name"))))
  {
    if Cell(row, "Lookup Code") == "" && Cell(row, "Item Name") == "" {
      assert Strip("") == "";
    }
  }

  /** The generic adapter as written: `{base}/products/{slug}` whenever a name, item name or number is present. */
  function GenericUrlAsWritten(base: string, row: Row): Option<string>
  {
    var name := Strip(FirstFilled(row, ["Name(En)", "Item Name", "Number"]));
    if name != "" then Some(RStripCh(base, '/') + "/products/" + FillAndDownload.Slug(name)) else None
  }

  /** As written, a name without slug characters gives the catalog's `/products/` listing itself. */
  lemma GenericListingExample(base: string)
    ensures GenericUrlAsWritten(base, map["Name(En)" := "!!"]) == Some(RStripCh(base, '/') + "/products/")
    ensures GenericUrl(base, map["Name(En)" := "!!"]).None?
  {
    var row := map["Name(En)" := "!!"];
    assert Cell(row, "Name(En)") == "!!";
    assert FirstFilled(row, ["Name(En)", "Item Name", "Number"]) == "!!";
    assert Strip("!!") == "!!";
    assert FillAndDownload.Slug("!!") == "" by {
      assert Lower("!!") == "!!";
      assert Strip("!!") == "!!";
      assert Filter("!!", IsSlugKeep) == "";
      assert Hyphenate("!!") == "";
    }
    assert RStripCh(base, '/') + "/products/" + "" == RStripCh(base, '/') + "/products/";
  }

  /** The generic adapter as evidently intended: like the others, nothing when the slug is empty. */
  function GenericUrl(base: string, row: Row): Option<string>
  {
    var name := Strip(FirstFilled(row, ["Name(En)", "Item Name", "Number"]));
    var handle := FillAndDownload.Slug(name);
    if name != "" && handle != "" then Some(RStripCh(base, '/') + "/products/" + handle) else None
  }

  /** The corrected generic URL never ends at the listing: its last segment is a non-empty slug. */
  lemma GenericUrlSpec(base: string, row: Row)
    ensures GenericUrl(base, row).Some? ==>
              var h := FillAndDownload.Slug(Strip(FirstFilled(row, ["Name(En)", "Item Name", "Number"])));
              h != "" && GenericUrl(base, row).value == RStripCh(base, '/') + "/products/" + h && '/' !in h
    ensures GenericUrl(base, row).Some? ==> GenericUrl(base, row) == GenericUrlAsWritten(base, row)
  {
    FillAndDownload.SlugShape(Strip(FirstFilled(row, ["Name(En)", "Item Name", "Number"])));
  }

  /** `get_product_url`: the brand's adapter, or the generic one. */
  function ProductUrl(bid: string, base: string, row: Row, ad: Adapters): Option<string>
  {
    if bid == "chazak" then ChazakUrl(base, row)
    else if bid == "bruder" then BruderUrl(ad.bruderCache, row)
    else if bid == "winning_moves" then WinningMovesUrl(base, row)
    else if bid == "razor" then RazorUrl(base, row, ad.razorMatches)
    else if bid == "metal_earth" then MetalEarthUrl(base, row)
    else if bid == "rhode_island" then RhodeIslandUrl(row, ad.riSearch)
    else GenericUrl(base, row)
  }

  /** The adapter dispatch, with the Razor loop. */
  method GetProductUrl(bid: string, base: string, row: Row, ad: Adapters) returns (url: Option<string>)
    ensures url == ProductUrl(bid, base, row, ad)
  {
    if bid == "razor" {
      url := RazorProductUrl(base, row, ad.razorMatches);
    } else {
      url := ProductUrl(bid, base, row, ad);
    }
  }

  /**
   * Every adapter but Bruder's and Rhode Island's needs a name: a row
   * without any name, item name and number gets no URL at all, and
   * Chazak and Metal Earth rows get one exactly when the name has a slug.
   */
  lemma ProductUrlNeedsName(bid: string, base: string, row: Row, ad: Adapters)
    ensures (bid != "bruder" && bid != "rhode_island" && Strip(Cell(row, "Name(En)")) == ""
             && Cell(row, "Item Name") == "" && Cell(row, "Number") == "") ==> ProductUrl(bid, base, row, ad).None?
    ensures bid == "chazak" || bid == "metal_earth" ==>
              (ProductUrl(bid, base, row, ad).Some? <==> FillAndDownload.Slug(Strip(Cell(row, "Name(En)"))) != "")
  {
    FillAndDownload.SlugShape("");
    assert Lower("") == "";
  }

  // ------------------------------------------------------------------
  // Image file names

  /**
   * The URL-derived image name: the padded index, "_", the first 50
   * characters of the sanitised stem of the path's last component, ".jpg".
   */
  function UrlImageName(url: string, index: nat): (r: string)
    ensures EndsWith(r, ".jpg") && StartsWith(r, Pad4(index) + "_")
    ensures r == Pad4(index) + "_" + Take(Sanitize(Stem(BaseName(UrlPath(url)))), 50) + ".jpg"
  {
    SanitizeTake(Stem(BaseName(UrlPath(url))), 50);
    var r := Pad4(index) + "_" + Sanitize(Take(Stem(BaseName(UrlPath(url))), 50)) + ".jpg";
    assert r[|r| - 4..] == ".jpg";
    assert r[..|Pad4(index) + "_"|] == Pad4(index) + "_";
    r
  }

  /**
   * `safe_image_name` for image `suffix` of a row: with a Number, the
   * first image reuses the least reusable name and is otherwise
   * `{base}.jpg`, and image `j > 0` is `{base}_{j+1}.jpg`; without a
   * Number, the URL-derived name.
   */
  method SafeImageName(url: string, index: nat, row: Row, suffix: nat, dir: set<string>) returns (name: string)
    ensures Strip(Cell(row, "Number")) == "" ==> name == UrlImageName(url, index)
    ensures var base := FillAndDownload.NumberBase(Strip(Cell(row, "Number")));
            Strip(Cell(row, "Number")) != "" ==>
              if suffix > 0 then name == Numbered(base, suffix + 1)
              else if FillAndDownload.NoneReusable(dir, base) then name == base + ".jpg"
              else name in dir && Reusable(name, base) && forall p :: p in dir && Reusable(p, base) ==> LexLe(name, p)
  {
    var num := Strip(Cell(row, "Number"));
    if num == "" {
      return UrlImageName(url, index);
    }
    var base := FillAndDownload.NumberBase(num);
    if suffix == 0 {
      var found := FirstReusable(dir, base);
      if found.Some? {
        return found.value;
      }
    }
    if suffix > 0 {
      return Numbered(base, suffix + 1);
    }
    name := base + ".jpg";
  }

  /**
   * The images of one row get different names, as long as the name image 0
   * takes (`{base}.jpg` or a reused file) is not itself a numbered name.
   */
  lemma RowImageNamesDistinct(base: string, first: string, j: nat, k: nat)
    requires j < k
    requires forall n :: first != Numbered(base, n)
    ensures Numbered(base, k + 1) != (if j == 0 then first else Numbered(base, j + 1))
  {
    if j > 0 && Numbered(base, k + 1) == Numbered(base, j + 1) {
      NumberedInjective(base, k + 1, j + 1);
    }
  }

  /** `{base}.jpg`, the name image 0 takes when nothing is reused, is never a numbered name. */
  lemma PlainNameNotNumbered(base: string)
    ensures forall n :: base + ".jpg" != Numbered(base, n)
  {
    forall n
      ensures base + ".jpg" != Numbered(base, n)
    {
      assert (base + ".jpg")[|base|] == '.';
      assert Numbered(base, n)[|base|] == '_';
    }
  }

  /**
   * A folder holding `{base}_2.jpg` but not `{base}.jpg`: image 0 of the
   * row reuses `{base}_2.jpg`, the one reusable name there, which is also
   * the name image 1 gets, so the row's first image is never saved.
   */
  lemma ReusedSecondNameCollides(base: string)
    requires base != ""
    ensures var dir := {Numbered(base, 2)};
            base + ".jpg" !in dir && !FillAndDownload.NoneReusable(dir, base)
            && forall p :: p in dir && Reusable(p, base) ==> p == Numbered(base, 1 + 1)
  {
    FillAndDownload.JpgNamesReusable(base, 2);
    PlainNameNotNumbered(base);
  }

  // ------------------------------------------------------------------
  // The rows of one brand

  /** What the page parser gives: description, dimensions and image URLs, each possibly empty. */
  datatype PageData = PageData(description: string, dimensions: string, images: seq<string>)

  /**
   * A fetched page's data in the row: the description cut at 2000 replaces
   * the Description; the dimensions are appended after " | " (or become
   * the Description when it is empty); the first image fills an empty
   * Picture.
   */
  function Update(row: Row, d: PageData): Row
  {
    var r := if d.description != "" then row["Description" := Take(d.description, 2000)] else row;
    var r := if d.dimensions != "" then r["Description" := Cell(r, "Description") + (if Cell(r, "Description") != "" then " | " + d.dimensions else d.dimensions)] else r;
    if |d.images| > 0 && Strip(Cell(r, "Picture")) == "" then r["Picture" := d.images[0]] else r
  }

  /**
   * The update never replaces a Picture the row has; the Description is
   * the page's description (at most 2000 characters), the row's
   * Description when the page has none, then the dimensions after
   * " | " when both are there; no other column changes.
   */
  lemma UpdateSpec(row: Row, d: PageData)
    ensures Strip(Cell(row, "Picture")) != "" || |d.images| == 0 ==> Cell(Update(row, d), "Picture") == Cell(row, "Picture")
    ensures Strip(Cell(row, "Picture")) == "" && |d.images| > 0 ==> Cell(Update(row, d), "Picture") == d.images[0]
    ensures var first := if d.description != "" then Take(d.description, 2000) else Cell(row, "Description");
            Cell(Update(row, d), "Description") ==
              if d.dimensions == "" then first else if first == "" then d.dimensions else first + " | " + d.dimensions
    ensures forall k :: k != "Picture" && k != "Description" ==> (k in Update(row, d) <==> k in row)
    ensures forall k :: k in row && k != "Picture" && k != "Description" ==> Update(row, d)[k] == row[k]
  {
    UpdatePicture(row, d);
    UpdateDescription(row, d);
    UpdateOthers(row, d);
  }

  lemma UpdatePicture(row: Row, d: PageData)
    ensures Strip(Cell(row, "Picture")) != "" || |d.images| == 0 ==> Cell(Update(row, d), "Picture") == Cell(row, "Picture")
    ensures Strip(Cell(row, "Picture")) == "" && |d.images| > 0 ==> Cell(Update(row, d), "Picture") == d.images[0]
  {
  }

  lemma UpdateDescription(row: Row, d: PageData)
    ensures var first := if d.description != "" then Take(d.description, 2000) else Cell(row, "Description");
            Cell(Update(row, d), "Description") ==
              if d.dimensions == "" then first else if first == "" then d.dimensions else first + " | " + d.dimensions
  {
  }

  lemma UpdateOthers(row: Row, d: PageData)
    ensures forall k :: k != "Picture" && k != "Description" ==> (k in Update(row, d) <==> k in row)
    ensures forall k :: k in row && k != "Picture" && k != "Description" ==> Update(row, d)[k] == row[k]
  {
  }

  /** The row a previous run filled, by position, when it is not forced: one with a Description and a picture URL. */
  function Kept(previous: Option<seq<Row>>, force: bool, i: nat): Option<Row>
  {
    if !force && previous.Some? && i < |previous.value|
       && FillAndDownload.HasDescription(previous.value[i]) && FillAndDownload.HasPictureUrl(previous.value[i])
    then Some(previous.value[i])
    else None
  }

  /** Restoring a filled row: its Description and Picture come back, nothing else changes. */
  function Restore(row: Row, ex: Row): Row
  {
    row["Description" := Cell(ex, "Description")]["Picture" := Cell(ex, "Picture")]
  }

  /**
   * One row of `main`'s loop, with `page` standing for the fetch and parse
   * of a product URL (nothing when it fails or does not answer 200).
   */
  function ScrapedRow(bid: string, base: string, row: Row, kept: Option<Row>, ad: Adapters, page: string -> Option<PageData>): Row
  {
    match kept
    case Some(ex) => Restore(row, ex)
    case None =>
      match ProductUrl(bid, base, row, ad)
      case None => row
      case Some(u) =>
        match page(u)
        case None => row
        case Some(d) => Update(row, d)
  }

  /**
   * A restored row is filled again: it has a Description and a picture
   * URL, the previous run's, and needs no fetch; a row without a URL or
   * page is written as it was read.
   */
  lemma ScrapedRowSpec(bid: string, base: string, row: Row, kept: Option<Row>, ad: Adapters, page: string -> Option<PageData>)
    ensures kept.Some? && FillAndDownload.HasDescription(kept.value) && FillAndDownload.HasPictureUrl(kept.value) ==>
              var r := ScrapedRow(bid, base, row, kept, ad, page);
              FillAndDownload.HasDescription(r) && FillAndDownload.HasPictureUrl(r)
              && Cell(r, "Description") == Cell(kept.value, "Description") && Cell(r, "Picture") == Cell(kept.value, "Picture")
    ensures kept.None? && (ProductUrl(bid, base, row, ad).None? || page(ProductUrl(bid, base, row, ad).value).None?) ==>
              ScrapedRow(bid, base, row, kept, ad, page) == row
    ensures forall k :: k in row && k != "Picture" && k != "Description" ==>
              k in ScrapedRow(bid, base, row, kept, ad, page) && ScrapedRow(bid, base, row, kept, ad, page)[k] == row[k]
  {
    match kept
    case Some(ex) =>
    case None =>
      match ProductUrl(bid, base, row, ad)
      case None =>
      case Some(u) =>
        match page(u)
        case None =>
        case Some(d) => UpdateSpec(row, d);
  }

  /** The field names written: the sheet's, with Description and Picture appended when missing. */
  function OutFields(fields: seq<string>): (r: seq<string>)
    ensures "Description" in r && "Picture" in r
    ensures forall f :: f in fields ==> f in r
    ensures |fields| <= |r| && r[..|fields|] == fields
  {
    var r := if "Description" !in fields then fields + ["Description"] else fields;
    if "Picture" !in r then r + ["Picture"] else r
  }

  /** One pass of the row loop: restore a kept row, else fetch and apply its page. */
  method ScrapeOne(bid: string, base: string, row: Row, kept: Option<Row>, ad: Adapters, page: string -> Option<PageData>)
    returns (r: Row)
    ensures r == ScrapedRow(bid, base, row, kept, ad, page)
  {
    r := row;
    if kept.Some? {
      r := Restore(row, kept.value);
    } else {
      var url := GetProductUrl(bid, base, row, ad);
      if url.Some? {
        var data := page(url.value);
        if data.Some? {
          r := Update(row, data.value);
        }
      }
    }
  }

  lemma AppendScraped(bid: string, base: string, rows: seq<Row>, previous: Option<seq<Row>>, force: bool,
                      ad: Adapters, page: string -> Option<PageData>, out: seq<Row>, r: Row)
    requires |out| < |rows| && r == ScrapedRow(bid, base, rows[|out|], Kept(previous, force, |out|), ad, page)
    requires forall j :: 0 <= j < |out| ==> out[j] == ScrapedRow(bid, base, rows[j], Kept(previous, force, j), ad, page)
    ensures forall j :: 0 <= j < |out| + 1 ==> (out + [r])[j] == ScrapedRow(bid, base, rows[j], Kept(previous, force, j), ad, page)
  {
  }

  /** The loop over one brand's sheet rows. */
  method ScrapeRows(bid: string, base: string, rows: seq<Row>, previous: Option<seq<Row>>, force: bool,
                    ad: Adapters, page: string -> Option<PageData>)
    returns (out: seq<Row>)
    ensures |out| == |rows|
    ensures forall i :: 0 <= i < |rows| ==> out[i] == ScrapedRow(bid, base, rows[i], Kept(previous, force, i), ad, page)
  {
    out := [];
    var i := 0;
    while i < |rows|
      invariant 0 <= i <= |rows| && |out| == i
      invariant forall j :: 0 <= j < i ==> out[j] == ScrapedRow(bid, base, rows[j], Kept(previous, force, j), ad, page)
      decreases |rows| - i
    {
      var r := ScrapeOne(bid, base, rows[i], Kept(previous, force, i), ad, page);
      AppendScraped(bid, base, rows, previous, force, ad, page, out, r);
      out := out + [r];
      i := i + 1;
    }
  }

  // ------------------------------------------------------------------
  // Choosing the brands

  /** A configured brand: its id and scrape URL (empty when it has none). */
  datatype BrandConfig = BrandConfig(id: string, scrapeUrl: string)

  const Flags: set<string> := {"--force", "-f", "--only-incomplete"}

  predicate Scrapable(fetched: set<string>, b: BrandConfig)
  {
    b.scrapeUrl != "" && b.id + "_products.json" !in fetched
  }

  /** The first command-line argument that is not a flag, lower-cased. */
  function Wanted(args: seq<string>): Option<string>
  {
    var rest := Select(args, a => a !in Flags);
    if rest == [] then None else Some(Lower(rest[0]))
  }

  predicate IsWanted(want: Option<string>, b: BrandConfig)
  {
    want.None? || b.id == want.value
  }

  /**
   * `--only-incomplete`: a brand whose previous output is missing,
   * unreadable or without rows, or has a Description in fewer than seven
   * in ten rows, or a picture URL in fewer than seven in ten.
   */
  predicate Incomplete(previous: Option<seq<Row>>)
  {
    match previous
    case None => true
    case Some(rows) =>
      rows == []
      || (Count(rows, FillAndDownload.HasDescription) as real < 0.7 * |rows| as real
          || Count(rows, FillAndDownload.HasPictureUrl) as real < 0.7 * |rows| as real)
  }

  /** A brand is complete exactly when both columns are filled in at least seven rows in ten. */
  lemma IncompleteSpec(rows: seq<Row>)
    requires rows != []
    ensures !Incomplete(Some(rows)) <==>
              (10 * Count(rows, FillAndDownload.HasDescription) >= 7 * |rows|
               && 10 * Count(rows, FillAndDownload.HasPictureUrl) >= 7 * |rows|)
  {
  }

  /**
   * The brands `main` scrapes: those with a
   * scrape URL and no fetched catalog, the wanted one when an argument
   * names one, and with `--only-incomplete` only incomplete ones;
   * `outputs` gives each brand's previous output.
   */
  method SelectBrands(config: seq<BrandConfig>, fetched: set<string>, args: seq<string>, outputs: string -> Option<seq<Row>>)
    returns (sel: seq<BrandConfig>)
    ensures forall b :: b in sel <==>
              b in config && Scrapable(fetched, b) && IsWanted(Wanted(args), b)
              && ("--only-incomplete" in args ==> Incomplete(outputs(b.id)))
    ensures |sel| <= |config|
  {
    var toScrape := Select(config, b => Scrapable(fetched, b));
    if toScrape == [] {
      return [];
    }
    var want := Wanted(args);
    if want.Some? {
      var w := want.value;
      toScrape := Select(toScrape, (b: BrandConfig) => b.id == w);
      if toScrape == [] {
        return [];
      }
    }
    assert forall b :: b in toScrape <==> b in config && Scrapable(fetched, b) && IsWanted(want, b);
    if "--only-incomplete" !in args {
      return toScrape;
    }
    sel := KeepIncomplete(toScrape, outputs);
  }

  /** The `--only-incomplete` filter over the brands to scrape. */
  method KeepIncomplete(brands: seq<BrandConfig>, outputs: string -> Option<seq<Row>>) returns (sel: seq<BrandConfig>)
    ensures forall b :: b in sel <==> b in brands && Incomplete(outputs(b.id))
    ensures |sel| <= |brands|
  {
    sel := [];
    var i := 0;
    while i < |brands|
      invariant 0 <= i <= |brands| && |sel| <= i
      invariant forall b :: b in sel <==> b in brands[..i] && Incomplete(outputs(b.id))
      decreases |brands| - i
    {
      assert brands[..i + 1] == brands[..i] + [brands[i]];
      if Incomplete(outputs(brands[i].id)) {
        sel := sel + [brands[i]];
      }
      i := i + 1;
    }
    assert brands[..|brands|] == brands;
  }

  /** What scraping one brand writes: the field names and rows, or nothing without a sheet. */
  method ScrapeBrand(b: BrandConfig, sheet: Option<Table>, previous: Option<seq<Row>>, args: seq<string>,
                     ad: Adapters, page: string -> Option<PageData>)
    returns (written: Option<Table>)
    ensures sheet.None? ==> written.None?
    ensures sheet.Some? ==>
              written.Some? && written.value.fields == OutFields(sheet.value.fields) && |written.value.rows| == |sheet.value.rows|
              && forall i :: 0 <= i < |sheet.value.rows| ==>
                   written.value.rows[i] == ScrapedRow(b.id, RStripCh(b.scrapeUrl, '/'), sheet.value.rows[i],
                                                    Kept(previous, "--force" in args || "-f" in args, i), ad, page)
  {
    if sheet.None? {
      return None;
    }
    var force := "--force" in args || "-f" in args;
    var rows := ScrapeRows(b.id, RStripCh(b.scrapeUrl, '/'), sheet.value.rows, previous, force, ad, page);
    written := Some(Table(OutFields(sheet.value.fields), rows));
  }
}
