/**
 * Filling the brand sheets from the fetched Shopify catalogs. Each
 * catalog is indexed by SKU, by title slug and by handle, the first
 * product keeping a key; each sheet row is matched by its Number, then by
 * its name's slug, then by a fuzzy title match, and the matched product
 * fills the row's Picture when it has none and its Description. A brand
 * whose previous output is already 70% filled is skipped unless forced.
 */
module FillAndDownload {
  import opened Wrappers
  import opened Text
  import opened Slugs
  import opened Sheet
  import opened Dicts
  import opened Files
  import Markup

  // ------------------------------------------------------------------
  // Text helpers

  /**
   * `strip_html`: tags become spaces, `&nbsp;` a space, and the edges are
   * stripped; nothing stays nothing. No tag and no `&nbsp;` is left.
   * (scrape_brands has the same helper.)
   */
  function StripHtml(html: string): (r: string)
    ensures NoEdgeSpace(r)
    ensures html == "" ==> r == ""
    ensures Markup.NoTag(r) && !Contains(r, "&nbsp;")
  {
    if html == "" then ""
    else
      var u := Markup.StripTags(html);
      var t := ReplaceAll(u, "&nbsp;", " ");
      Markup.StripTagsNoTag(html);
      Markup.ReplaceAllNoTag(u, "&nbsp;", " ");
      Markup.StripNoTag(t);
      ReplaceAllClears(u, "&nbsp;", " ");
      StripKeeps(t, "&nbsp;");
      StripNoEdge(t);
      Strip(t)
  }

  /** Plain text without tags, `&nbsp;` or edge whitespace comes back unchanged. */
  lemma StripHtmlIdle(s: string)
    requires Markup.NoTag(s) && !Contains(s, "&nbsp;") && NoEdgeSpace(s)
    ensures StripHtml(s) == s
  {
    if s != "" {
      Markup.StripTagsIdle(s);
      ReplaceAllAbsent(s, "&nbsp;", " ");
      StripOfNoEdge(s);
    }
  }

  /** The slug before its cut at 80: lower-cased, stripped, hyphenated, edge hyphens stripped. */
  function SlugUncut(s: string): string
  {
    StripCh(Hyphenate(Strip(Lower(s))), '-')
  }

  /**
   * `slug`: lower-case and strip, keep `[\w\s-]`, make each run of hyphens
   * and whitespace one hyphen, strip edge hyphens, cut at 80. The guard for
   * an empty input gives what the steps give anyway. (scrape_brands has
   * the same helper.)
   */
  function Slug(s: string): string
  {
    Take(SlugUncut(s), 80)
  }

  lemma {:induction false} FilterKeeps(s: string, keep: char -> bool, q: char -> bool)
    requires All(s, q)
    ensures All(Filter(s, keep), q)
    decreases |s|
  {
    if s != [] {
      assert All(s[1..], q) by { assert forall i :: 0 <= i < |s[1..]| ==> s[1..][i] == s[i + 1]; }
      FilterKeeps(s[1..], keep, q);
    }
  }

  /** `s.strip(c)` is a slice of `s` whose edges are not `c`. */
  lemma {:induction false} StripChSlice(s: string, c: char) returns (a: nat, b: nat)
    ensures a <= b <= |s| && StripCh(s, c) == s[a..b]
    ensures StripCh(s, c) == "" || (s[a] != c && s[b - 1] != c)
    decreases |s|
  {
    if |s| > 0 && s[0] == c {
      var a', b' := StripChSlice(s[1..], c);
      a, b := a' + 1, b' + 1;
      assert LStripCh(s, c) == LStripCh(s[1..], c);
      assert s[1..][a'..b'] == s[a..b];
    } else {
      var l := LStripCh(s, c);
      assert l == s;
      RStripChPrefix(s, c);
      a, b := 0, |RStripCh(s, c)|;
      assert RStripCh(s, c) == "" || s[b - 1] != c by {
        RStripChEnd(s, c);
      }
    }
  }

  lemma {:induction false} RStripChEnd(s: string, c: char)
    ensures RStripCh(s, c) == "" || RStripCh(s, c)[|RStripCh(s, c)| - 1] != c
    decreases |s|
  {
    if |s| > 0 && s[|s| - 1] == c {
      RStripChEnd(s[..|s| - 1], c);
    }
  }

  /** Hyphenating a string without capitals gives slug characters and single hyphens. */
  lemma HyphenateLowered(t: string)
    requires All(t, NotUpper)
    ensures All(Hyphenate(t), IsSlugChar) && NoAdjacent(Hyphenate(t), '-')
  {
    var f := Filter(t, IsSlugKeep);
    FilterAll(t, IsSlugKeep);
    FilterKeeps(t, IsSlugKeep, NotUpper);
    assert forall i :: 0 <= i < |f| && !IsDashOrSpace(f[i]) ==> IsSlugChar(f[i]) by {
      forall i | 0 <= i < |f| && !IsDashOrSpace(f[i]) ensures IsSlugChar(f[i]) {
        assert IsSlugKeep(f[i]) && NotUpper(f[i]);
      }
    }
    CollapseRunsReplaces(f, IsDashOrSpace, '-', IsSlugChar);
    HyphenateShape(t);
  }

  /** A slice keeps both shape facts. */
  lemma SliceSlugChars(h: string, a: nat, b: nat)
    requires a <= b <= |h|
    requires All(h, IsSlugChar) && NoAdjacent(h, '-')
    ensures All(h[a..b], IsSlugChar) && NoAdjacent(h[a..b], '-')
  {
    assert forall i :: 0 <= i < b - a ==> h[a..b][i] == h[a + i];
  }

  /**
   * A slug holds only `[a-z0-9_-]`, never two hyphens in a row, at most 80
   * characters, never starts with a hyphen, and ends with one only when
   * it was cut.
   */
  lemma SlugShape(s: string)
    ensures All(Slug(s), IsSlugChar) && NoAdjacent(Slug(s), '-') && |Slug(s)| <= 80
    ensures Slug(s) == "" || Slug(s)[0] != '-'
    ensures |SlugUncut(s)| <= 80 ==> Slug(s) == SlugUncut(s) && (Slug(s) == "" || Slug(s)[|Slug(s)| - 1] != '-')
    ensures s == "" ==> Slug(s) == ""
  {
    var l := Lower(s);
    assert All(l, NotUpper);
    var t := Strip(l);
    StripAll(l, NotUpper);
    var h := Hyphenate(t);
    HyphenateLowered(t);
    var a, b := StripChSlice(h, '-');
    var u := SlugUncut(s);
    assert u == h[a..b];
    SliceSlugChars(h, a, b);
    TakeSlugChars(u, 80);
    if s == "" {
      assert l == "";
    }
  }

  /** A slug that was not cut at a hyphen is its own slug. */
  lemma SlugIdempotent(s: string)
    requires Slug(s) == "" || Slug(s)[|Slug(s)| - 1] != '-'
    ensures Slug(Slug(s)) == Slug(s)
  {
    SlugShape(s);
    var r := Slug(s);
    assert Lower(r) == r;
    assert All(r, c => !IsSpace(c));
    assert NoEdgeSpace(r);
    StripOfNoEdge(r);
    HyphenateIdle(r);
    if r != "" {
      assert LStripCh(r, '-') == r;
      assert RStripCh(r, '-') == r;
    }
  }

  // ------------------------------------------------------------------
  // The fuzzy title match

  /** The number of trailing digits. */
  function TrailingDigits(s: string): (d: nat)
    ensures d <= |s|
    decreases |s|
  {
    if |s| > 0 && IsDigit(s[|s| - 1]) then 1 + TrailingDigits(s[..|s| - 1]) else 0
  }

  /**
   * `re.sub(r"[-]?\d+$", "", key).strip("-")`: the trailing digits go,
   * with the hyphen just before them, and edge hyphens are stripped.
   */
  function TrimNumber(key: string): string
  {
    var d := TrailingDigits(key);
    var head := key[..|key| - d];
    StripCh(if d > 0 && |head| > 0 && head[|head| - 1] == '-' then head[..|head| - 1] else head, '-')
  }

  lemma {:induction false} TrailingDigitsOf(s: string, digits: string)
    requires All(digits, IsDigit)
    requires s == "" || !IsDigit(s[|s| - 1])
    ensures TrailingDigits(s + digits) == |digits|
    decreases |digits|
  {
    if digits == [] {
      assert s + digits == s;
    } else {
      var n := |digits| - 1;
      assert (s + digits)[..|s + digits| - 1] == s + digits[..n];
      TrailingDigitsOf(s, digits[..n]);
    }
  }

  /**
   * A title followed by a number, directly or after a hyphen, loses the
   * number; a key without trailing digits only loses its edge hyphens.
   */
  lemma TrimNumberSpec(s: string, digits: string)
    requires IsDigits(digits)
    requires s == "" || (!IsDigit(s[|s| - 1]) && s[|s| - 1] != '-')
    ensures TrimNumber(s + digits) == StripCh(s, '-')
    ensures TrimNumber(s + "-" + digits) == StripCh(s, '-')
    ensures TrimNumber(s) == StripCh(s, '-')
  {
    TrimNumberDigits(s, digits);
    TrimNumberHyphen(s, digits);
    TrimNumberPlain(s);
  }

  lemma TrimNumberDigits(s: string, digits: string)
    requires IsDigits(digits)
    requires s == "" || (!IsDigit(s[|s| - 1]) && s[|s| - 1] != '-')
    ensures TrimNumber(s + digits) == StripCh(s, '-')
  {
    TrailingDigitsOf(s, digits);
    assert (s + digits)[..|s + digits| - |digits|] == s;
  }

  lemma TrimNumberHyphen(s: string, digits: string)
    requires IsDigits(digits)
    requires s == "" || (!IsDigit(s[|s| - 1]) && s[|s| - 1] != '-')
    ensures TrimNumber(s + "-" + digits) == StripCh(s, '-')
  {
    TrailingDigitsOf(s + "-", digits);
    assert (s + "-" + digits)[..|s + "-" + digits| - |digits|] == s + "-";
    assert (s + "-")[..|s|] == s;
  }

  lemma TrimNumberPlain(s: string)
    requires s == "" || (!IsDigit(s[|s| - 1]) && s[|s| - 1] != '-')
    ensures TrimNumber(s) == StripCh(s, '-')
  {
    assert TrailingDigits(s) == 0;
    assert s[..|s|] == s;
  }

  /** A title key the substring stage accepts: at least three characters, inside the name's slug or holding it. */
  predicate Candidate(k: string, key: string)
  {
    k != "" && |k| >= 3 && (Contains(k, key) || Contains(key, k))
  }

  /**
   * The position the substring loop settles on after the pairs in turn:
   * a candidate replaces the best so far only when strictly longer.
   */
  function Longest<P>(items: seq<(string, P)>, key: string): (r: Option<nat>)
    ensures r.Some? ==> r.value < |items|
    decreases |items|
  {
    if items == [] then None
    else
      var n := |items| - 1;
      var b := Longest(items[..n], key);
      if Candidate(items[n].0, key) && (b.None? || |items[b.value].0| < |items[n].0|) then Some(n) else b
  }

  /**
   * The loop finds nothing exactly when no key is a candidate; otherwise a
   * candidate no other is longer than, and the first of those.
   */
  lemma {:induction false} LongestSpec<P>(items: seq<(string, P)>, key: string)
    ensures Longest(items, key).None? <==> forall i :: 0 <= i < |items| ==> !Candidate(items[i].0, key)
    ensures Longest(items, key).Some? ==>
              var j := Longest(items, key).value;
              Candidate(items[j].0, key)
              && (forall i :: 0 <= i < |items| && Candidate(items[i].0, key) ==> |items[i].0| <= |items[j].0|)
              && (forall i :: 0 <= i < j && Candidate(items[i].0, key) ==> |items[i].0| < |items[j].0|)
    decreases |items|
  {
    if items != [] {
      var n := |items| - 1;
      LongestSpec(items[..n], key);
      assert forall i :: 0 <= i < n ==> items[..n][i] == items[i];
    }
  }

  /** The substring stage's pick: the product of the first longest candidate. */
  function Best<P>(items: seq<(string, P)>, key: string): Option<P>
  {
    match Longest(items, key)
    case Some(j) => Some(items[j].1)
    case None => None
  }

  /**
   * `find_product_by_title_fuzzy` as written: nothing for an empty name or
   * index; the exact slug; the slug without its trailing number; else the
   * longest title key that holds the slug or is inside it. A name whose
   * slug is empty reaches the last stage with the key "", which every
   * title holds.
   */
  function FuzzyMatchAsWritten<P>(byTitle: Dict<string, P>, name: string): Option<P>
  {
    if name == "" || byTitle == [] then None
    else
      var key := Slug(name);
      if key != "" && Lookup(byTitle, key).Some? then Lookup(byTitle, key)
      else if TrimNumber(key) != "" && Lookup(byTitle, TrimNumber(key)).Some? then Lookup(byTitle, TrimNumber(key))
      else Best(byTitle, key)
  }

  /** As written, a name without slug characters is matched to the first longest title of three or more characters. */
  lemma EmptySlugMatchesAnyTitle<P>(byTitle: Dict<string, P>, name: string)
    requires name != "" && Slug(name) == ""
    ensures FuzzyMatchAsWritten(byTitle, name).Some? <==> exists i :: 0 <= i < |byTitle| && |byTitle[i].0| >= 3
  {
    assert TrimNumber("") == "" by {
      assert TrailingDigits("") == 0;
    }
    LongestSpec(byTitle, "");
    forall i | 0 <= i < |byTitle|
      ensures Candidate(byTitle[i].0, "") <==> |byTitle[i].0| >= 3
    {
      assert StartsWith(byTitle[i].0, "");
    }
  }

  /** "!!" has no character a slug keeps. */
  lemma BangsSlug()
    ensures Slug("!!") == ""
  {
    assert Lower("!!") == "!!";
    assert Strip("!!") == "!!";
    assert Filter("!!", IsSlugKeep) == "";
    assert Hyphenate("!!") == "";
  }

  /** The name "!!" against one product titled "abc": matched as written. */
  lemma EmptySlugExample<P>(p: P)
    ensures FuzzyMatchAsWritten([("abc", p)], "!!") == Some(p)
    ensures FuzzyMatch([("abc", p)], "!!") == None
  {
    var d := [("abc", p)];
    BangsSlug();
    assert FuzzyMatchAsWritten(d, "!!") == Best(d, "") by {
      assert TrimNumber("") == "" by {
        assert TrailingDigits("") == 0;
      }
    }
    assert Best(d, "") == Some(p) by {
      assert StartsWith("abc", "");
      assert Candidate(d[0].0, "");
      LongestSpec(d, "");
    }
  }

  /** The fuzzy match, as evidently intended: a name whose slug is empty matches nothing. */
  function FuzzyMatch<P>(byTitle: Dict<string, P>, name: string): Option<P>
  {
    if Slug(name) == "" then None else FuzzyMatchAsWritten(byTitle, name)
  }

  /**
   * The fuzzy match finds nothing for an empty name, index or slug; the
   * exact slug wins; any other result is the product of the trimmed slug
   * or of a candidate title no other candidate is longer than.
   */
  lemma FuzzyMatchSpec<P>(byTitle: Dict<string, P>, name: string)
    ensures name == "" || byTitle == [] || Slug(name) == "" ==> FuzzyMatch(byTitle, name).None?
    ensures name != "" && Slug(name) != "" && Lookup(byTitle, Slug(name)).Some? ==>
              FuzzyMatch(byTitle, name) == Lookup(byTitle, Slug(name))
    ensures FuzzyMatch(byTitle, name).Some? ==>
              exists i :: 0 <= i < |byTitle| && byTitle[i].1 == FuzzyMatch(byTitle, name).value
                && (byTitle[i].0 == Slug(name) || byTitle[i].0 == TrimNumber(Slug(name))
                    || (Candidate(byTitle[i].0, Slug(name))
                        && forall j :: 0 <= j < |byTitle| && Candidate(byTitle[j].0, Slug(name)) ==> |byTitle[j].0| <= |byTitle[i].0|))
  {
    var key := Slug(name);
    LookupFinds(byTitle, key);
    LookupFinds(byTitle, TrimNumber(key));
    LongestSpec(byTitle, key);
  }

  /**
   * The stages in order: without an exact hit the trimmed slug's product
   * wins; without either, the first longest candidate title's product,
   * and nothing exactly when no title is a candidate. So a name with a
   * slug always finds a product when some title is its slug or a
   * candidate for it.
   */
  lemma FuzzyMatchOrder<P>(byTitle: Dict<string, P>, name: string)
    ensures var key := Slug(name);
            name != "" && key != "" && Lookup(byTitle, key).None?
            && TrimNumber(key) != "" && Lookup(byTitle, TrimNumber(key)).Some? ==>
              FuzzyMatch(byTitle, name) == Lookup(byTitle, TrimNumber(key))
    ensures var key := Slug(name);
            name != "" && key != "" && Lookup(byTitle, key).None?
            && (TrimNumber(key) == "" || Lookup(byTitle, TrimNumber(key)).None?) ==>
              (FuzzyMatch(byTitle, name).Some? <==> exists i :: 0 <= i < |byTitle| && Candidate(byTitle[i].0, key))
              && (FuzzyMatch(byTitle, name).Some? ==>
                    exists j :: 0 <= j < |byTitle| && FuzzyMatch(byTitle, name).value == byTitle[j].1
                      && Candidate(byTitle[j].0, key)
                      && (forall i :: 0 <= i < |byTitle| && Candidate(byTitle[i].0, key) ==> |byTitle[i].0| <= |byTitle[j].0|)
                      && (forall i :: 0 <= i < j && Candidate(byTitle[i].0, key) ==> |byTitle[i].0| < |byTitle[j].0|))
    ensures var key := Slug(name);
            name != "" && key != ""
            && (exists i :: 0 <= i < |byTitle| && (byTitle[i].0 == key || Candidate(byTitle[i].0, key))) ==>
              FuzzyMatch(byTitle, name).Some?
  {
    var key := Slug(name);
    LookupFinds(byTitle, key);
    LongestSpec(byTitle, key);
  }

  /** `find_product_by_title_fuzzy`, corrected as above, with its loop over the title index. */
  method FindProductFuzzy<P>(byTitle: Dict<string, P>, name: string) returns (r: Option<P>)
    ensures r == FuzzyMatch(byTitle, name)
  {
    if name == "" || byTitle == [] {
      return None;
    }
    var key := Slug(name);
    if key == "" {
      return None;
    }
    var exact := Lookup(byTitle, key);
    if exact.Some? {
      return exact;
    }
    var trimmed := TrimNumber(key);
    if trimmed != "" {
      var t := Lookup(byTitle, trimmed);
      if t.Some? {
        return t;
      }
    }
    r := None;
    var bestLen := 0;
    ghost var at: Option<nat> := None;
    var i := 0;
    while i < |byTitle|
      invariant 0 <= i <= |byTitle|
      invariant at == Longest(byTitle[..i], key)
      invariant at.None? ==> r.None? && bestLen == 0
      invariant at.Some? ==> at.value < i && r == Some(byTitle[at.value].1) && bestLen == |byTitle[at.value].0|
      decreases |byTitle| - i
    {
      assert byTitle[..i + 1][..i] == byTitle[..i];
      var k := byTitle[i].0;
      if k != "" && |k| >= 3 && (Contains(k, key) || Contains(key, k)) && |k| > bestLen {
        bestLen := |k|;
        r := Some(byTitle[i].1);
        at := Some(i);
      }
      i := i + 1;
    }
    assert byTitle[..|byTitle|] == byTitle;
  }

  // ------------------------------------------------------------------
  // Loading a fetched catalog

  /**
   * A product of a fetched catalog, each missing field read as empty: its
   * title, handle, the SKUs of its variants in order, its tags, the
   * sources of its images in order and its HTML body.
   */
  datatype Product = Product(title: string, handle: string, skus: seq<string>, tags: seq<string>, images: seq<string>, body: string)

  /** The four chunk loaders; they differ in how SKUs and tags become keys. */
  datatype Loader = Enday | Aurora | Chazak | ShopifyBrand

  /** The three indexes of a loaded chunk, in insertion order. */
  datatype Chunk = Chunk(bySku: Dict<string, Product>, byTitle: Dict<string, Product>, byHandle: Dict<string, Product>)

  /** A variant SKU as a key: stripped, a leading `#` dropped for Enday and the other Shopify brands, lower-cased. */
  function SkuKey(b: Loader, sku: string): string
  {
    var t := Strip(sku);
    Lower(if b == Enday || b == ShopifyBrand then LStripCh(t, '#') else t)
  }

  /**
   * The keys one variant SKU gives: none when it is empty; for Enday also
   * the number after its last hyphen without leading zeros, when that is
   * all digits.
   */
  function VariantKeys(b: Loader, sku: string): seq<string>
  {
    var k := SkuKey(b, sku);
    if k == "" then []
    else if b == Enday && IsDigits(AfterLast(k, '-')) then [k, IntText(AfterLast(k, '-'))]
    else [k]
  }

  /** The keys of a product's variants, variant by variant. */
  function VariantsKeys(b: Loader, skus: seq<string>): seq<string>
    decreases |skus|
  {
    if skus == [] then [] else VariantsKeys(b, skus[..|skus| - 1]) + VariantKeys(b, skus[|skus| - 1])
  }

  predicate IsTagChar(c: char) { IsWordChar(c) || c == '-' }

  /** A Chazak tag as a key: stripped, 2 to 20 characters of `[\w-]`, lower-cased. */
  function TagKeys(tag: string): seq<string>
  {
    var t := Strip(tag);
    if t != "" && 2 <= |t| <= 20 && All(t, IsTagChar) then [Lower(t)] else []
  }

  function TagsKeys(tags: seq<string>): seq<string>
    decreases |tags|
  {
    if tags == [] then [] else TagsKeys(tags[..|tags| - 1]) + TagKeys(tags[|tags| - 1])
  }

  /** The SKU keys of a product, in the order the loader tries them: the variants', then for Chazak the tags'. */
  function SkuKeys(b: Loader, p: Product): seq<string>
  {
    VariantsKeys(b, p.skus) + (if b == Chazak then TagsKeys(p.tags) else [])
  }

  function SkuKeysOf(b: Loader): Product -> seq<string>
  {
    p => SkuKeys(b, p)
  }

  /** The title key: the slug of the stripped title, when both are non-empty. */
  function TitleKeys(p: Product): seq<string>
  {
    var t := Strip(p.title);
    if t != "" && Slug(t) != "" then [Slug(t)] else []
  }

  /** The handle key: the stripped, lower-cased handle, when non-empty. */
  function HandleKeys(p: Product): seq<string>
  {
    var h := Lower(Strip(p.handle));
    if h != "" then [h] else []
  }

  /** No loader ever makes the empty key. */
  lemma {:induction false} KeysNotEmpty(b: Loader, p: Product)
    ensures "" !in SkuKeys(b, p) && "" !in TitleKeys(p) && "" !in HandleKeys(p)
  {
    VariantsKeysNotEmpty(b, p.skus);
    TagsKeysNotEmpty(p.tags);
  }

  lemma {:induction false} VariantsKeysNotEmpty(b: Loader, skus: seq<string>)
    ensures "" !in VariantsKeys(b, skus)
    decreases |skus|
  {
    if skus != [] {
      VariantsKeysNotEmpty(b, skus[..|skus| - 1]);
    }
  }

  lemma {:induction false} TagsKeysNotEmpty(tags: seq<string>)
    ensures "" !in TagsKeys(tags)
    decreases |tags|
  {
    if tags != [] {
      TagsKeysNotEmpty(tags[..|tags| - 1]);
      var t := Strip(tags[|tags| - 1]);
      assert TagKeys(tags[|tags| - 1]) == [] || |Lower(t)| == |t| > 0;
    }
  }

  /**
   * The Enday number key of an SKU ending in a hyphen and digits is those
   * digits without leading zeros ("0" when all are zeros): "END-1502-0832"
   * is also found as "832".
   */
  lemma EndayTailKey(sku: string, head: string, digits: string)
    requires IsDigits(digits)
    requires SkuKey(Enday, sku) == head + "-" + digits
    ensures VariantKeys(Enday, sku) == [head + "-" + digits, IntText(digits)]
    ensures IsDigits(IntText(digits)) && (IntText(digits) == "0" || IntText(digits)[0] != '0')
  {
    AfterLastOfDigits(head + "-", digits);
    IntTextShape(digits);
  }

  lemma {:induction false} AfterLastOfDigits(s: string, digits: string)
    requires All(digits, IsDigit)
    requires |s| > 0 && s[|s| - 1] == '-'
    ensures AfterLast(s + digits, '-') == digits
    decreases |digits|
  {
    if digits == [] {
      assert s + digits == s;
    } else {
      var n := |digits| - 1;
      assert (s + digits)[..|s + digits| - 1] == s + digits[..n];
      AfterLastOfDigits(s, digits[..n]);
      assert digits[..n] + [digits[n]] == digits;
    }
  }

  lemma {:induction false} IntTextShape(digits: string)
    requires IsDigits(digits)
    ensures IsDigits(IntText(digits)) && (IntText(digits) == "0" || IntText(digits)[0] != '0')
  {
    var t := LStripCh(digits, '0');
    LStripChSuffix(digits, '0');
  }

  lemma {:induction false} LStripChSuffix(s: string, c: char)
    ensures |LStripCh(s, c)| <= |s| && LStripCh(s, c) == s[|s| - |LStripCh(s, c)|..]
    ensures LStripCh(s, c) == "" || LStripCh(s, c)[0] != c
    decreases |s|
  {
    if |s| > 0 && s[0] == c {
      LStripChSuffix(s[1..], c);
    }
  }

  /**
   * `for k in keys: if k not in d: d[k] = v`: each key not yet present is
   * appended with `v`, in order.
   */
  function AddNew<V>(d: Dict<string, V>, keys: seq<string>, v: V): Dict<string, V>
    decreases |keys|
  {
    if keys == [] then d
    else
      var n := |keys| - 1;
      var e := AddNew(d, keys[..n], v);
      if Lookup(e, keys[n]).None? then e + [(keys[n], v)] else e
  }

  /** Appending a pair does not hide a present key and makes an absent one give the new value. */
  lemma {:induction false} AppendLookup<V>(d: Dict<string, V>, k: string, v: V, k': string)
    ensures Lookup(d + [(k, v)], k') == if Lookup(d, k').Some? then Lookup(d, k') else if k' == k then Some(v) else None
    decreases |d|
  {
    if d != [] {
      assert (d + [(k, v)])[1..] == d[1..] + [(k, v)];
      AppendLookup(d[1..], k, v, k');
    }
  }

  /** After adding: a key already present keeps its value, a key among `keys` otherwise gives `v`. */
  lemma {:induction false} AddNewLookup<V>(d: Dict<string, V>, keys: seq<string>, v: V, k: string)
    ensures Lookup(AddNew(d, keys, v), k) == if Lookup(d, k).Some? then Lookup(d, k) else if k in keys then Some(v) else None
    decreases |keys|
  {
    if keys != [] {
      var n := |keys| - 1;
      AddNewLookup(d, keys[..n], v, k);
      AppendLookup(AddNew(d, keys[..n], v), keys[n], v, k);
      assert keys == keys[..n] + [keys[n]];
    }
  }

  /** The index the loader builds: each key goes to the first product that has it. */
  function FirstWins<V>(xs: seq<V>, keysOf: V -> seq<string>): Dict<string, V>
    decreases |xs|
  {
    if xs == [] then []
    else
      var n := |xs| - 1;
      AddNew(FirstWins(xs[..n], keysOf), keysOf(xs[n]), xs[n])
  }

  /**
   * A key is absent exactly when no product has it, and otherwise gives
   * the first product that has it.
   */
  lemma {:induction false} FirstWinsSpec<V>(xs: seq<V>, keysOf: V -> seq<string>, k: string)
    ensures Lookup(FirstWins(xs, keysOf), k).None? <==> forall j :: 0 <= j < |xs| ==> k !in keysOf(xs[j])
    ensures forall j :: 0 <= j < |xs| && k in keysOf(xs[j]) && (forall j' :: 0 <= j' < j ==> k !in keysOf(xs[j'])) ==>
              Lookup(FirstWins(xs, keysOf), k) == Some(xs[j])
    decreases |xs|
  {
    if xs != [] {
      var n := |xs| - 1;
      FirstWinsSpec(xs[..n], keysOf, k);
      AddNewLookup(FirstWins(xs[..n], keysOf), keysOf(xs[n]), xs[n], k);
      assert forall j :: 0 <= j < n ==> xs[..n][j] == xs[j];
    }
  }

  /** An index is empty exactly when no product gives it a key. */
  lemma {:induction false} FirstWinsEmpty<V>(xs: seq<V>, keysOf: V -> seq<string>)
    ensures FirstWins(xs, keysOf) == [] <==> forall j :: 0 <= j < |xs| ==> keysOf(xs[j]) == []
    decreases |xs|
  {
    if xs != [] {
      var n := |xs| - 1;
      FirstWinsEmpty(xs[..n], keysOf);
      AddNewEmpty(FirstWins(xs[..n], keysOf), keysOf(xs[n]), xs[n]);
      assert forall j :: 0 <= j < n ==> xs[..n][j] == xs[j];
    }
  }

  lemma {:induction false} AddNewEmpty<V>(d: Dict<string, V>, keys: seq<string>, v: V)
    ensures AddNew(d, keys, v) == [] <==> d == [] && keys == []
    decreases |keys|
  {
    if keys != [] {
      AddNewEmpty(d, keys[..|keys| - 1], v);
      AddNewGrows(d, keys[..|keys| - 1], v);
    }
  }

  lemma {:induction false} AddNewGrows<V>(d: Dict<string, V>, keys: seq<string>, v: V)
    ensures |AddNew(d, keys, v)| >= |d|
    decreases |keys|
  {
    if keys != [] {
      AddNewGrows(d, keys[..|keys| - 1], v);
    }
  }

  /** The chunk a loader builds from the products of a catalog file. */
  function Index(b: Loader, products: seq<Product>): Chunk
  {
    Chunk(FirstWins(products, SkuKeysOf(b)), FirstWins(products, TitleKeys), FirstWins(products, HandleKeys))
  }

  /** One more product adds its keys to the index of the products before it. */
  lemma FirstWinsSnoc<V>(xs: seq<V>, i: nat, keysOf: V -> seq<string>)
    requires i < |xs|
    ensures FirstWins(xs[..i + 1], keysOf) == AddNew(FirstWins(xs[..i], keysOf), keysOf(xs[i]), xs[i])
  {
    assert xs[..i + 1][..i] == xs[..i];
  }

  /** The inner loop of a loader: each key of one product is added unless present. */
  method AddKeys(d: Dict<string, Product>, keys: seq<string>, p: Product) returns (r: Dict<string, Product>)
    ensures r == AddNew(d, keys, p)
  {
    r := d;
    var i := 0;
    while i < |keys|
      invariant 0 <= i <= |keys|
      invariant r == AddNew(d, keys[..i], p)
      decreases |keys| - i
    {
      assert keys[..i + 1][..i] == keys[..i];
      if Lookup(r, keys[i]).None? {
        r := r + [(keys[i], p)];
      }
      i := i + 1;
    }
    assert keys[..|keys|] == keys;
  }

  /**
   * `load_chazak_chunk`, `load_aurora_chunk`, `load_enday_chunk` and
   * `load_shopify_chunk`: nothing when the file is missing or unreadable,
   * else the three indexes built product by product.
   */
  method LoadChunk(b: Loader, file: Option<seq<Product>>) returns (c: Option<Chunk>)
    ensures file.None? ==> c.None?
    ensures file.Some? ==> c == Some(Index(b, file.value))
  {
    if file.None? {
      return None;
    }
    var ps := file.value;
    var bySku, byTitle, byHandle := [], [], [];
    var i := 0;
    while i < |ps|
      invariant 0 <= i <= |ps|
      invariant bySku == FirstWins(ps[..i], SkuKeysOf(b))
      invariant byTitle == FirstWins(ps[..i], TitleKeys)
      invariant byHandle == FirstWins(ps[..i], HandleKeys)
      decreases |ps| - i
    {
      var p := ps[i];
      FirstWinsSnoc(ps, i, SkuKeysOf(b));
      FirstWinsSnoc(ps, i, TitleKeys);
      FirstWinsSnoc(ps, i, HandleKeys);
      assert SkuKeysOf(b)(p) == SkuKeys(b, p);
      bySku := AddKeys(bySku, SkuKeys(b, p), p);
      byTitle := AddKeys(byTitle, TitleKeys(p), p);
      byHandle := AddKeys(byHandle, HandleKeys(p), p);
      i := i + 1;
    }
    assert ps[..|ps|] == ps;
    c := Some(Chunk(bySku, byTitle, byHandle));
  }

  // ------------------------------------------------------------------
  // Finding a sheet row's product

  /**
   * The SKU lookup of a stripped sheet Number, loader by loader: Chazak
   * tries the lower-cased Number; Enday also the Number without leading
   * zeros, lower-cased; Aurora also the Number without leading zeros as
   * written, then "0" and the Number when it is all digits; the other
   * Shopify brands the lower-cased Number without a leading `#`, that
   * without leading zeros, then "0" and the Number when it is all digits.
   */
  function ByNumber(b: Loader, bySku: Dict<string, Product>, number: string): Option<Product>
  {
    if number == "" then None
    else
      match b
      case Chazak => Lookup(bySku, Lower(number))
      case Enday => Lookup(bySku, Lower(number)).Or(Lookup(bySku, Lower(LStripCh(number, '0'))))
      case Aurora =>
        var r := Lookup(bySku, Lower(number)).Or(Lookup(bySku, LStripCh(number, '0')));
        if r.None? && IsDigits(number) then Lookup(bySku, "0" + number) else r
      case ShopifyBrand =>
        var nlow := LStripCh(Lower(number), '#');
        var r := Lookup(bySku, nlow).Or(Lookup(bySku, LStripCh(nlow, '0')));
        if r.None? && IsDigits(number) then Lookup(bySku, "0" + number) else r
  }

  /**
   * The product of a sheet row: by its Number; else by its name's slug
   * among the titles, then the handles; else by the fuzzy title match.
   */
  function FindProduct(b: Loader, c: Chunk, row: Row): Option<Product>
  {
    var number := Strip(Cell(row, "Number"));
    var name := Strip(Cell(row, "Name(En)"));
    var r := ByNumber(b, c.bySku, number);
    var r := if r.None? && name != "" then Lookup(c.byTitle, Slug(name)).Or(Lookup(c.byHandle, Slug(name))) else r;
    if r.None? && name != "" then FuzzyMatch(c.byTitle, name) else r
  }

  /** `p` is the value of some key of `d`. */
  ghost predicate Indexed<V>(d: Dict<string, V>, p: V)
  {
    exists i :: 0 <= i < |d| && d[i].1 == p
  }

  /** A product found through an index is one of the indexed products. */
  lemma LookupIn<V>(d: Dict<string, V>, k: string)
    ensures Lookup(d, k).Some? ==> Indexed(d, Lookup(d, k).value)
  {
    LookupFinds(d, k);
  }

  lemma ByNumberIn(b: Loader, bySku: Dict<string, Product>, number: string)
    ensures ByNumber(b, bySku, number).Some? ==> Indexed(bySku, ByNumber(b, bySku, number).value)
  {
    match b
    case Chazak =>
      LookupIn(bySku, Lower(number));
    case Enday =>
      LookupIn(bySku, Lower(number));
      LookupIn(bySku, Lower(LStripCh(number, '0')));
    case Aurora =>
      LookupIn(bySku, Lower(number));
      LookupIn(bySku, LStripCh(number, '0'));
      LookupIn(bySku, "0" + number);
    case ShopifyBrand =>
      var nlow := LStripCh(Lower(number), '#');
      LookupIn(bySku, nlow);
      LookupIn(bySku, LStripCh(nlow, '0'));
      LookupIn(bySku, "0" + number);
  }

  lemma FuzzyMatchIn<P>(byTitle: Dict<string, P>, name: string)
    ensures FuzzyMatch(byTitle, name).Some? ==> Indexed(byTitle, FuzzyMatch(byTitle, name).value)
  {
    FuzzyMatchSpec(byTitle, name);
  }

  /**
   * A row's product is always one the chunk indexes; a row with neither a
   * Number nor a name has none; a Number the SKU index holds as written
   * (lower-cased) wins over everything else, for every loader but the
   * plain Shopify one, which drops a leading `#` first. Any SKU hit wins;
   * without one (or without a Number) a named row tries its slug among
   * the titles, then the handles, then the fuzzy title match.
   */
  lemma FindProductSpec(b: Loader, c: Chunk, row: Row)
    ensures FindProduct(b, c, row).Some? ==>
              Indexed(c.bySku, FindProduct(b, c, row).value) || Indexed(c.byTitle, FindProduct(b, c, row).value)
              || Indexed(c.byHandle, FindProduct(b, c, row).value)
    ensures Strip(Cell(row, "Number")) == "" && Strip(Cell(row, "Name(En)")) == "" ==> FindProduct(b, c, row).None?
    ensures var number := Strip(Cell(row, "Number"));
            b != ShopifyBrand && number != "" && Lookup(c.bySku, Lower(number)).Some? ==>
              FindProduct(b, c, row) == Lookup(c.bySku, Lower(number))
    ensures var number := Strip(Cell(row, "Number"));
            ByNumber(b, c.bySku, number).Some? ==> FindProduct(b, c, row) == ByNumber(b, c.bySku, number)
    ensures var number := Strip(Cell(row, "Number"));
            var name := Strip(Cell(row, "Name(En)"));
            (number == "" || ByNumber(b, c.bySku, number).None?) ==>
              FindProduct(b, c, row)
              == if name == "" then None
                 else Lookup(c.byTitle, Slug(name)).Or(Lookup(c.byHandle, Slug(name))).Or(FuzzyMatch(c.byTitle, name))
  {
    var name := Strip(Cell(row, "Name(En)"));
    ByNumberIn(b, c.bySku, Strip(Cell(row, "Number")));
    LookupIn(c.byTitle, Slug(name));
    LookupIn(c.byHandle, Slug(name));
    FuzzyMatchIn(c.byTitle, name);
  }

  // ------------------------------------------------------------------
  // Filling a row

  /** Marks the blurb Chazak puts in place of a description. */
  const ChazakBlurb: string := "Chazak was initially"

  /** The first image's source, when the product has one and it is not empty. */
  function FirstImage(p: Product): Option<string>
  {
    if |p.images| > 0 && p.images[0] != "" then Some(p.images[0]) else None
  }

  /** The stripped body, when it is non-empty and, for Chazak, not the blurb. */
  predicate UsableBody(b: Loader, p: Product)
  {
    Strip(p.body) != "" && (b != Chazak || !Contains(Strip(p.body), ChazakBlurb))
  }

  /**
   * A matched row: the first image becomes the Picture when the row has
   * none; the body's text, cut at 2000, becomes the Description; without
   * a usable body an empty Description becomes the stripped title, cut at
   * 500.
   */
  function Fill(b: Loader, row: Row, p: Product): Row
  {
    var img := FirstImage(p);
    var row := if img.Some? && Strip(Cell(row, "Picture")) == "" then row["Picture" := img.value] else row;
    if UsableBody(b, p) then row["Description" := Take(StripHtml(Strip(p.body)), 2000)]
    else if Strip(Cell(row, "Description")) == "" && Strip(p.title) != "" then row["Description" := Take(Strip(p.title), 500)]
    else row
  }

  /**
   * Filling never replaces a Picture the row has, and gives an empty one
   * the product's first image; the Description is the body's text (at
   * most 2000 characters, without edge whitespace) whenever the body is
   * usable, a Description the row has is otherwise kept, and an empty one
   * becomes the title (at most 500 characters); no other column changes.
   */
  lemma FillSpec(b: Loader, row: Row, p: Product)
    ensures Strip(Cell(row, "Picture")) != "" ==> Cell(Fill(b, row, p), "Picture") == Cell(row, "Picture")
    ensures Strip(Cell(row, "Picture")) == "" && FirstImage(p).Some? ==> Cell(Fill(b, row, p), "Picture") == FirstImage(p).value
    ensures FirstImage(p).None? ==> Cell(Fill(b, row, p), "Picture") == Cell(row, "Picture")
    ensures UsableBody(b, p) ==>
              var d := Cell(Fill(b, row, p), "Description");
              d == Take(StripHtml(Strip(p.body)), 2000) && |d| <= 2000 && NoEdgeSpace(StripHtml(Strip(p.body)))
    ensures !UsableBody(b, p) && Strip(Cell(row, "Description")) != "" ==> Cell(Fill(b, row, p), "Description") == Cell(row, "Description")
    ensures !UsableBody(b, p) && Strip(Cell(row, "Description")) == "" && Strip(p.title) != "" ==>
              Cell(Fill(b, row, p), "Description") == Take(Strip(p.title), 500) && |Cell(Fill(b, row, p), "Description")| <= 500
    ensures forall k :: k != "Picture" && k != "Description" ==> (k in Fill(b, row, p) <==> k in row)
    ensures forall k :: k in row && k != "Picture" && k != "Description" ==> Fill(b, row, p)[k] == row[k]
  {
  }

  /** A Chazak body that holds the blurb never becomes a Description. */
  lemma BlurbIsIgnored(row: Row, p: Product)
    requires Contains(Strip(p.body), ChazakBlurb)
    ensures Cell(Fill(Chazak, row, p), "Description") ==
              if Strip(Cell(row, "Description")) == "" && Strip(p.title) != "" then Take(Strip(p.title), 500) else Cell(row, "Description")
  {
  }

  /** One row of a chunk brand's sheet: filled from its product, or left as it is. */
  function FillRow(b: Loader, c: Chunk, row: Row): Row
  {
    match FindProduct(b, c, row)
    case Some(p) => Fill(b, row, p)
    case None => row
  }

  /**
   * A row without a product is written as it was read, and so is every
   * row with neither a Number nor a name.
   */
  lemma UnmatchedRowKept(b: Loader, c: Chunk, row: Row)
    ensures FindProduct(b, c, row).None? ==> FillRow(b, c, row) == row
    ensures Strip(Cell(row, "Number")) == "" && Strip(Cell(row, "Name(En)")) == "" ==> FillRow(b, c, row) == row
  {
    FindProductSpec(b, c, row);
  }

  /** Filling row `i` in place extends the filled prefix by one and leaves the rest of the rows. */
  lemma FilledUpTo(b: Loader, c: Chunk, rows: seq<Row>, before: seq<Row>, after: seq<Row>, i: nat)
    requires i < |rows| == |before|
    requires forall j :: 0 <= j < i ==> before[j] == FillRow(b, c, rows[j])
    requires forall j :: i <= j < |rows| ==> before[j] == rows[j]
    requires after == before[i := FillRow(b, c, rows[i])]
    ensures |after| == |rows|
    ensures forall j :: 0 <= j < i + 1 ==> after[j] == FillRow(b, c, rows[j])
    ensures forall j :: i + 1 <= j < |rows| ==> after[j] == rows[j]
  {
  }

  /** The loop over the sheet's rows, each filled in place. */
  method FillRows(b: Loader, c: Chunk, rows: seq<Row>) returns (out: seq<Row>)
    ensures |out| == |rows|
    ensures forall i :: 0 <= i < |rows| ==> out[i] == FillRow(b, c, rows[i])
  {
    out := rows;
    var i := 0;
    while i < |rows|
      invariant 0 <= i <= |rows| && |out| == |rows|
      invariant forall j :: 0 <= j < i ==> out[j] == FillRow(b, c, rows[j])
      invariant forall j :: i <= j < |rows| ==> out[j] == rows[j]
      decreases |rows| - i
    {
      var product := FindProduct(b, c, rows[i]);
      ghost var before := out;
      if product.Some? {
        out := out[i := Fill(b, rows[i], product.value)];
      }
      FilledUpTo(b, c, rows, before, out, i);
      i := i + 1;
    }
  }

  // ------------------------------------------------------------------
  // Chazak without a chunk: one product page per row

  /** `CHAZAK_FETCH_LIMIT` */
  function FetchLimit(quick: bool): nat
  {
    if quick then 10 else 80
  }

  /**
   * One row of the per-page fallback, with `fetch` standing for
   * `fetch_chazak_product` (description and dimensions of a handle): a
   * row with a name and no Description gets the description, the
   * dimensions, or both joined by " | "; the flag says whether the page
   * gave anything.
   */
  function PageRow(row: Row, fetch: string -> (string, string)): (Row, bool)
  {
    var name := Strip(Cell(row, "Name(En)"));
    if name == "" || Cell(row, "Description") != "" || Slug(name) == "" then (row, false)
    else
      var (desc, dims) := fetch(Slug(name));
      var r := if desc != "" then row["Description" := desc] else row;
      var r := if dims != "" then r["Description" := if Cell(r, "Description") == "" then dims else Cell(r, "Description") + " | " + dims] else r;
      (r, desc != "" || dims != "")
  }

  /** The fallback over the rows in turn: pages are fetched until `limit` of them gave something. */
  function PerPage(rows: seq<Row>, fetch: string -> (string, string), limit: nat): (seq<Row>, nat)
    decreases |rows|
  {
    if rows == [] then ([], 0)
    else
      var n := |rows| - 1;
      PageStep(PerPage(rows[..n], fetch, limit), rows[n], fetch, limit)
  }

  /** One step of the fallback from the rows done so far and their count. */
  function PageStep(prev: (seq<Row>, nat), row: Row, fetch: string -> (string, string), limit: nat): (seq<Row>, nat)
  {
    if prev.1 >= limit then (prev.0 + [row], prev.1)
    else
      var step := PageRow(row, fetch);
      (prev.0 + [step.0], if step.1 then prev.1 + 1 else prev.1)
  }

  /**
   * A row the fallback changes had a name and no Description, and only its
   * Description changes, to the page's description and dimensions.
   */
  lemma PageRowSpec(row: Row, fetch: string -> (string, string))
    ensures var (r, got) := PageRow(row, fetch);
            (!got <==> r == row)
            && (got ==>
                  var name := Strip(Cell(row, "Name(En)"));
                  var (desc, dims) := fetch(Slug(name));
                  name != "" && Cell(row, "Description") == "" && Slug(name) != ""
                  && r == row["Description" := if desc == "" then dims else if dims == "" then desc else desc + " | " + dims])
  {
    var name := Strip(Cell(row, "Name(En)"));
    if !(name == "" || Cell(row, "Description") != "" || Slug(name) == "") {
      var (desc, dims) := fetch(Slug(name));
      var text := if desc == "" then dims else if dims == "" then desc else desc + " | " + dims;
      var r1 := if desc != "" then row["Description" := desc] else row;
      assert Cell(r1, "Description") == desc;
      if dims != "" {
        assert r1["Description" := if desc == "" then dims else desc + " | " + dims] == row["Description" := text];
      }
      if desc != "" || dims != "" {
        assert PageRow(row, fetch) == (row["Description" := text], true);
        assert Cell(row["Description" := text], "Description") != "";
      } else {
        assert PageRow(row, fetch) == (row, false);
      }
    }
  }

  /** The fallback keeps the number of rows and never counts more than `limit` pages. */
  lemma {:induction false} PerPageSpec(rows: seq<Row>, fetch: string -> (string, string), limit: nat)
    ensures |PerPage(rows, fetch, limit).0| == |rows|
    ensures PerPage(rows, fetch, limit).1 <= limit
    decreases |rows|
  {
    if rows != [] {
      PerPageSpec(rows[..|rows| - 1], fetch, limit);
    }
  }

  /**
   * Row `i` gets its page exactly when fewer than `limit` pages gave
   * something before it, and is kept as it was otherwise.
   */
  lemma {:induction false} PerPageAt(rows: seq<Row>, fetch: string -> (string, string), limit: nat, i: nat)
    requires i < |rows|
    ensures |PerPage(rows, fetch, limit).0| == |rows|
    ensures PerPage(rows, fetch, limit).0[i]
            == if PerPage(rows[..i], fetch, limit).1 < limit then PageRow(rows[i], fetch).0 else rows[i]
    decreases |rows|
  {
    var n := |rows| - 1;
    var prev := PerPage(rows[..n], fetch, limit);
    assert |prev.0| == n by {
      PerPageSpec(rows[..n], fetch, limit);
    }
    assert PerPage(rows, fetch, limit).0 == prev.0 + [if prev.1 < limit then PageRow(rows[n], fetch).0 else rows[n]] by {
      assert PerPage(rows, fetch, limit) == PageStep(prev, rows[n], fetch, limit);
    }
    if i == n {
      assert rows[..i] == rows[..n];
    } else {
      assert prev.0[i] == if PerPage(rows[..i], fetch, limit).1 < limit then PageRow(rows[i], fetch).0 else rows[i] by {
        PerPageAt(rows[..n], fetch, limit, i);
        assert rows[..n][..i] == rows[..i] && rows[..n][i] == rows[i];
      }
    }
  }

  /** The count of pages that gave something only grows along the rows. */
  lemma {:induction false} PerPageGrows(rows: seq<Row>, fetch: string -> (string, string), limit: nat, i: nat)
    requires i <= |rows|
    ensures PerPage(rows[..i], fetch, limit).1 <= PerPage(rows, fetch, limit).1
    decreases |rows|
  {
    if i < |rows| {
      var n := |rows| - 1;
      PerPageGrows(rows[..n], fetch, limit, i);
      assert rows[..n][..i] == rows[..i];
    } else {
      assert rows[..i] == rows;
    }
  }

  /** When the count ends under `limit`, every row got its page. */
  lemma PerPageUnderLimit(rows: seq<Row>, fetch: string -> (string, string), limit: nat, i: nat)
    requires i < |rows| && PerPage(rows, fetch, limit).1 < limit
    ensures |PerPage(rows, fetch, limit).0| == |rows|
    ensures PerPage(rows, fetch, limit).0[i] == PageRow(rows[i], fetch).0
  {
    PerPageAt(rows, fetch, limit, i);
    PerPageGrows(rows, fetch, limit, i);
  }

  /** One row of the fallback loop. */
  method FetchRow(row: Row, fetch: string -> (string, string)) returns (r: Row, got: bool)
    ensures (r, got) == PageRow(row, fetch)
  {
    r := row;
    var name := Strip(Cell(row, "Name(En)"));
    if name == "" || Cell(row, "Description") != "" || Slug(name) == "" {
      return row, false;
    }
    var handle := Slug(name);
    var (desc, dims) := fetch(handle);
    if desc != "" {
      r := r["Description" := desc];
    }
    if dims != "" {
      if Cell(r, "Description") == "" {
        r := r["Description" := dims];
      } else {
        r := r["Description" := r["Description"] + " | " + dims];
      }
    }
    got := desc != "" || dims != "";
  }

  /** One pass of the fallback's loop. */
  method FetchNext(out: seq<Row>, fetched: nat, row: Row, fetch: string -> (string, string), limit: nat)
    returns (out': seq<Row>, fetched': nat)
    ensures (out', fetched') == PageStep((out, fetched), row, fetch, limit)
  {
    if fetched >= limit {
      return out + [row], fetched;
    }
    var r, got := FetchRow(row, fetch);
    out', fetched' := out + [r], if got then fetched + 1 else fetched;
  }

  lemma PerPageSnoc(rows: seq<Row>, i: nat, fetch: string -> (string, string), limit: nat)
    requires i < |rows|
    ensures PerPage(rows[..i + 1], fetch, limit) == PageStep(PerPage(rows[..i], fetch, limit), rows[i], fetch, limit)
  {
    assert rows[..i + 1][..i] == rows[..i];
  }

  /** The fallback's loop, with its count of rows that got something. */
  method FetchPerPage(rows: seq<Row>, fetch: string -> (string, string), limit: nat) returns (out: seq<Row>, fetched: nat)
    ensures (out, fetched) == PerPage(rows, fetch, limit)
  {
    out, fetched := [], 0;
    var i := 0;
    while i < |rows|
      invariant 0 <= i <= |rows|
      invariant (out, fetched) == PerPage(rows[..i], fetch, limit)
      decreases |rows| - i
    {
      PerPageSnoc(rows, i, fetch, limit);
      out, fetched := FetchNext(out, fetched, rows[i], fetch, limit);
      i := i + 1;
    }
    assert rows[..|rows|] == rows;
  }

  // ------------------------------------------------------------------
  // Skipping a brand already filled

  predicate HasDescription(r: Row)
  {
    Strip(Cell(r, "Description")) != ""
  }

  predicate HasPictureUrl(r: Row)
  {
    Strip(Cell(r, "Picture")) != "" && StartsWith(Cell(r, "Picture"), "http")
  }

  /** The counts `_filled_coverage` gives. */
  datatype Coverage = Coverage(descriptions: nat, pictures: nat, total: nat)

  /**
   * `_filled_coverage` of the previous output (`None` when it is missing or
   * unreadable): nothing for an output without rows; else the rows with a
   * Description, those whose Picture is a URL and all of them, a column
   * the first row lacks counting none.
   */
  function FilledCoverage(previous: Option<seq<Row>>): (r: Option<Coverage>)
    ensures r.Some? ==> r.value.total > 0 && r.value.descriptions <= r.value.total && r.value.pictures <= r.value.total
  {
    match previous
    case None => None
    case Some(rows) =>
      if rows == [] then None
      else
        var d := if "Description" in rows[0] then Count(rows, HasDescription) else 0;
        var p := if "Picture" in rows[0] then Count(rows, HasPictureUrl) else 0;
        Some(Coverage(d, p, |rows|))
  }

  /** Skipped unless forced: a previous output with rows, 70% of which have a Description or 70% a picture URL. */
  predicate SkipBrand(force: bool, previous: Option<seq<Row>>)
  {
    var cov := FilledCoverage(previous);
    !force && cov.Some? && cov.value.total != 0
    && (cov.value.descriptions as real >= 0.7 * cov.value.total as real || cov.value.pictures as real >= 0.7 * cov.value.total as real)
  }

  /**
   * A brand is skipped exactly when it is not forced and its previous
   * output has rows, at least seven in ten of which hold a Description, or
   * seven in ten a picture URL, in columns the output has; an output whose
   * every row is filled is always skipped.
   */
  lemma SkipBrandSpec(force: bool, rows: seq<Row>)
    ensures SkipBrand(force, Some(rows)) <==>
              (!force && rows != []
               && (("Description" in rows[0] && 10 * Count(rows, HasDescription) >= 7 * |rows|)
                   || ("Picture" in rows[0] && 10 * Count(rows, HasPictureUrl) >= 7 * |rows|)))
    ensures !force && rows != [] && "Description" in rows[0] && (forall i :: 0 <= i < |rows| ==> HasDescription(rows[i])) ==>
              SkipBrand(force, Some(rows))
    ensures !SkipBrand(force, None) && !SkipBrand(true, Some(rows))
  {
    CountSpec(rows, HasDescription);
  }

  // ------------------------------------------------------------------
  // One chunk brand

  /** What processing a brand does with its output file. */
  datatype Outcome =
    | NoSheet          // the brand's sheet is missing: nothing written
    | Skipped          // already filled: nothing written
    | KeptOutput       // the chunk indexes no SKU and no title: nothing written
    | Wrote(rows: seq<Row>)

  /**
   * `process_chazak`, `process_enday`, `process_aurora` and
   * `process_shopify_from_chunk`, given the sheet, the `--force` flag,
   * the previous output, the catalog file and, for Chazak, the page
   * fetcher: the rows written, or why nothing was.
   */
  method ProcessBrand(b: Loader, sheet: Option<seq<Row>>, force: bool, previous: Option<seq<Row>>,
                      file: Option<seq<Product>>, fetch: string -> (string, string), quick: bool)
    returns (out: Outcome)
    ensures sheet.None? ==> out == NoSheet
    ensures sheet.Some? && SkipBrand(force, previous) ==> out == Skipped
    ensures sheet.Some? && !SkipBrand(force, previous) && file.None? ==>
              out == Wrote(if b == Chazak then PerPage(sheet.value, fetch, FetchLimit(quick)).0 else sheet.value)
    ensures sheet.Some? && !SkipBrand(force, previous) && file.Some? ==>
              var c := Index(b, file.value);
              if c.bySku == [] && c.byTitle == [] then out == KeptOutput
              else out.Wrote? && |out.rows| == |sheet.value|
                   && forall i :: 0 <= i < |sheet.value| ==> out.rows[i] == FillRow(b, c, sheet.value[i])
  {
    if sheet.None? {
      return NoSheet;
    }
    if !force {
      var cov := FilledCoverage(previous);
      if cov.Some? && cov.value.total != 0
         && (cov.value.descriptions as real >= 0.7 * cov.value.total as real || cov.value.pictures as real >= 0.7 * cov.value.total as real) {
        return Skipped;
      }
    }
    var rows := sheet.value;
    var chunk := LoadChunk(b, file);
    if chunk.Some? {
      var c := chunk.value;
      if c.bySku == [] && c.byTitle == [] {
        return KeptOutput;
      }
      var filled := FillRows(b, c, rows);
      return Wrote(filled);
    }
    if b == Chazak {
      var fetched, _ := FetchPerPage(rows, fetch, FetchLimit(quick));
      return Wrote(fetched);
    }
    return Wrote(rows);
  }

  /**
   * The chunk is kept out exactly when no product has an SKU key and none
   * has a title key: products with only a handle fill nothing.
   */
  lemma EmptyChunkSpec(b: Loader, products: seq<Product>)
    ensures (Index(b, products).bySku == [] && Index(b, products).byTitle == []) <==>
              forall j :: 0 <= j < |products| ==> SkuKeys(b, products[j]) == [] && TitleKeys(products[j]) == []
  {
    FirstWinsEmpty(products, SkuKeysOf(b));
    FirstWinsEmpty(products, TitleKeys);
  }

  // ------------------------------------------------------------------
  // main

  /** The brands `main` copies with `process_generic`, unless `--quick`. */
  const Brands: seq<string> := [
    "enday", "aurora", "bazic", "bruder", "razor", "metal_earth", "winning_moves", "moore", "sands",
    "playkidiz", "gi_go", "goplay", "rhode_island", "colours_craft", "play_dough", "microkick",
    "lchaim", "samvix"]

  /** The brands `main` always processes first, each checking for its own sheet. */
  const FirstBrands: seq<string> := ["atiko", "chazak", "enday", "aurora"]

  /** The brands a chunk loader handles instead. */
  const ChunkBrands: set<string> := {"enday", "aurora", "colours_craft", "microkick", "kent"}

  /** The Shopify brands tried with `process_shopify_from_chunk`, in order. */
  const ShopifyBrands: seq<string> := ["colours_craft", "microkick", "kent"]

  /**
   * The scraper-only brands: configured with a scrape URL (`config` lists
   * each brand's id and scrape URL) but without a fetched catalog among
   * the file names `fetched`.
   */
  function ScraperOnly(config: seq<(string, string)>, fetched: set<string>): set<string>
  {
    set x | x in config && x.1 != "" && x.0 + "_products.json" !in fetched :: x.0
  }

  /**
   * The brands `main` hands to `process_generic`, in order: those of the
   * list with a sheet that are neither chunk brands nor scraper-only.
   */
  function GenericBrands(quick: bool, sheets: set<string>, scraperOnly: set<string>): seq<string>
  {
    Select(if quick then [] else Brands, id => id !in ChunkBrands && id !in scraperOnly && id in sheets)
  }

  /**
   * The sheets `main` writes, in order: Atiko, Chazak, Enday, Aurora, the
   * Shopify brands that have a sheet, then the generic brands.
   */
  function MainPlan(quick: bool, sheets: set<string>, scraperOnly: set<string>): seq<string>
  {
    FirstBrands + Select(ShopifyBrands, id => id in sheets) + GenericBrands(quick, sheets, scraperOnly)
  }

  predicate Distinct(xs: seq<string>)
  {
    forall i, j :: 0 <= i < j < |xs| ==> xs[i] != xs[j]
  }

  lemma {:induction false} SelectDistinct(xs: seq<string>, p: string -> bool)
    requires Distinct(xs)
    ensures Distinct(Select(xs, p))
    decreases |xs|
  {
    if xs != [] {
      assert Distinct(xs[1..]) by {
        assert forall i :: 0 <= i < |xs[1..]| ==> xs[1..][i] == xs[i + 1];
      }
      SelectDistinct(xs[1..], p);
      assert xs[0] !in xs[1..] by {
        assert forall i :: 0 <= i < |xs[1..]| ==> xs[1..][i] == xs[i + 1];
      }
    }
  }

  /** The brand list names no brand twice. */
  lemma BrandsDistinct()
    ensures Distinct(Brands)
  {
    var a := ["enday", "aurora", "bazic", "bruder", "razor", "metal_earth"];
    var b := ["winning_moves", "moore", "sands", "playkidiz", "gi_go", "goplay"];
    var c := ["rhode_island", "colours_craft", "play_dough", "microkick", "lchaim", "samvix"];
    BrandParts(a, b, c);
    DistinctConcat(a, b);
    DistinctConcat(a + b, c);
    assert Brands == a + b + c;
  }

  /** The three thirds of the brand list: each without repeats, and no two sharing a brand. */
  lemma BrandParts(a: seq<string>, b: seq<string>, c: seq<string>)
    requires a == ["enday", "aurora", "bazic", "bruder", "razor", "metal_earth"]
    requires b == ["winning_moves", "moore", "sands", "playkidiz", "gi_go", "goplay"]
    requires c == ["rhode_island", "colours_craft", "play_dough", "microkick", "lchaim", "samvix"]
    ensures Distinct(a) && Distinct(b) && Distinct(c)
    ensures forall e :: e in a ==> e !in b
    ensures forall e :: e in a + b ==> e !in c
  {
    assert forall e :: e in a + b ==> e in a || e in b;
  }

  /**
   * No sheet is written twice by one run: the generic brands are never
   * chunk brands, scraper-only brands or brands without a sheet, and every
   * listed brand that is none of those is among them.
   */
  lemma MainPlanSpec(quick: bool, sheets: set<string>, scraperOnly: set<string>)
    ensures Distinct(MainPlan(quick, sheets, scraperOnly))
    ensures forall id :: id in GenericBrands(quick, sheets, scraperOnly) <==>
              !quick && id in Brands && id !in ChunkBrands && id !in scraperOnly && id in sheets
  {
    var s := Select(ShopifyBrands, id => id in sheets);
    var g := GenericBrands(quick, sheets, scraperOnly);
    ShopifyPart(sheets);
    GenericPart(quick, sheets, scraperOnly);
    FixedBrands();
    DistinctConcat(FirstBrands, s);
    assert forall e :: e in FirstBrands + s ==> e in FirstBrands || e in s;
    DistinctConcat(FirstBrands + s, g);
  }

  lemma ShopifyPart(sheets: set<string>)
    ensures Distinct(Select(ShopifyBrands, id => id in sheets))
    ensures forall id :: id in Select(ShopifyBrands, id => id in sheets) ==> id in ShopifyBrands && id in ChunkBrands
  {
    SelectDistinct(ShopifyBrands, id => id in sheets);
    FixedBrands();
  }

  lemma GenericPart(quick: bool, sheets: set<string>, scraperOnly: set<string>)
    ensures Distinct(GenericBrands(quick, sheets, scraperOnly))
    ensures forall id :: id in GenericBrands(quick, sheets, scraperOnly) <==>
              !quick && id in Brands && id !in ChunkBrands && id !in scraperOnly && id in sheets
  {
    BrandsDistinct();
    SelectDistinct(if quick then [] else Brands, id => id !in ChunkBrands && id !in scraperOnly && id in sheets);
  }

  /** The four brands `main` always processes first are distinct, never Shopify brands and never generic ones. */
  lemma FixedBrands()
    ensures Distinct(FirstBrands)
    ensures forall e :: e in FirstBrands ==> e !in ShopifyBrands && (e !in Brands || e in ChunkBrands)
    ensures forall e :: e in ShopifyBrands ==> e in ChunkBrands
  {
  }

  lemma AllJoin(a: string, b: string, q: char -> bool)
    requires All(a, q) && All(b, q)
    ensures All(a + b, q)
  {
    assert forall i :: 0 <= i < |a + b| ==> (a + b)[i] == if i < |a| then a[i] else b[i - |a|];
  }

  lemma DistinctConcat(x: seq<string>, y: seq<string>)
    requires Distinct(x) && Distinct(y)
    requires forall e :: e in x ==> e !in y
    ensures Distinct(x + y)
  {
    forall i, j | 0 <= i < j < |x + y|
      ensures (x + y)[i] != (x + y)[j]
    {
      if i < |x| && j >= |x| {
        assert (x + y)[i] in x && (x + y)[j] == y[j - |x|];
      }
    }
  }

  // ------------------------------------------------------------------
  // Image file names

  /**
   * `safe_image_filename`: the row index padded to four digits, "_", the
   * sanitised stem of the URL path's last component cut at 60 ("image"
   * when that is empty), and ".jpg".
   */
  function SafeImageFilename(url: string, index: nat): (r: string)
    ensures EndsWith(r, ".jpg") && All(r, IsNameChar)
    ensures var stem := Sanitize(Stem(BaseName(UrlPath(url))));
            r == Pad4(index) + "_" + (if stem == "" then "image" else Take(stem, 60)) + ".jpg"
  {
    var s0 := Sanitize(Stem(BaseName(UrlPath(url))));
    var stem := if s0 == "" then "image" else Take(s0, 60);
    assert All(stem, IsNameChar) by {
      AllTake(s0, 60, IsNameChar);
      assert All("image", IsNameChar);
    }
    NameOfPieces(Pad4(index), stem);
    Pad4(index) + "_" + stem + ".jpg"
  }

  /** Digits, "_", a stem of name characters and ".jpg" make a name ending in ".jpg" of name characters only. */
  lemma NameOfPieces(p: string, stem: string)
    requires IsDigits(p) && All(stem, IsNameChar)
    ensures EndsWith(p + "_" + stem + ".jpg", ".jpg") && All(p + "_" + stem + ".jpg", IsNameChar)
  {
    var r := p + "_" + stem + ".jpg";
    assert r[|r| - 4..] == ".jpg";
    assert All(p + "_", IsNameChar) by {
      assert forall i :: 0 <= i < |p| ==> (p + "_")[i] == p[i];
    }
    AllJoin(p + "_", stem, IsNameChar);
    AllJoin(p + "_" + stem, ".jpg", IsNameChar);
  }

  /** A fallback name starts with the row's padded index, up to its first "_". */
  lemma SafeNamePrefix(u: string, i: nat)
    ensures Before(SafeImageFilename(u, i), '_') == Pad4(i)
  {
    var stem := Sanitize(Stem(BaseName(UrlPath(u))));
    var m := if stem == "" then "image" else Take(stem, 60);
    var p := Pad4(i);
    assert SafeImageFilename(u, i) == p + "_" + m + ".jpg";
    JoinAssoc(p + "_", m, ".jpg");
    assert '_' !in p;
    BeforeOfJoin(p, '_', m + ".jpg");
  }

  /** Different rows get different fallback names, whatever their URLs. */
  lemma SafeNamesDistinct(u: string, i: nat, v: string, j: nat)
    requires i != j
    ensures SafeImageFilename(u, i) != SafeImageFilename(v, j)
  {
    SafeNamePrefix(u, i);
    SafeNamePrefix(v, j);
    assert DigitsValue(Pad4(i)) != DigitsValue(Pad4(j));
  }

  /** The file-name base from a sheet Number: sanitised and cut at 60, "image" when that is empty. */
  function NumberBase(number: string): (r: string)
    ensures r != "" && |r| <= 60 && All(r, IsNameChar)
  {
    var t := Take(Sanitize(number), 60);
    assert All("image", IsNameChar);
    if t != "" then t else "image"
  }

  /** A name of the base followed by ".jpg" has that suffix. */
  lemma JpgSuffix(s: string)
    requires |s| > 0
    ensures Suffix(s + ".jpg") == ".jpg"
  {
    var name := s + ".jpg";
    assert name[|s|] == '.';
    assert forall k :: |s| < k < |name| ==> name[k] != '.';
    assert name[|s|..] == ".jpg";
  }

  lemma LowerJpg()
    ensures Lower(".jpg") == ".jpg"
  {
    assert forall i :: 0 <= i < 4 ==> LowerChar(".jpg"[i]) == ".jpg"[i];
  }

  /** A non-empty name that starts with the base, followed by ".jpg", would be reused. */
  lemma JpgReusable(s: string, base: string)
    requires |s| > 0 && StartsWith(s, base)
    ensures Reusable(s + ".jpg", base)
  {
    JpgSuffix(s);
    LowerJpg();
    assert (s + ".jpg")[..|base|] == s[..|base|];
  }

  /** `{base}.jpg` and every `{base}_{n}.jpg` would be reused. */
  lemma JpgNamesReusable(base: string, n: nat)
    requires base != ""
    ensures Reusable(base + ".jpg", base)
    ensures Reusable(Numbered(base, n), base)
  {
    assert base[..|base|] == base;
    JpgReusable(base, base);
    var s := base + "_" + NatText(n);
    assert Numbered(base, n) == s + ".jpg";
    assert s[..|base|] == base;
    JpgReusable(s, base);
  }

  /** The folder offers no name to reuse for the base. */
  predicate NoneReusable(dir: set<string>, base: string)
  {
    forall p :: p in dir ==> !Reusable(p, base)
  }

  /** A folder offering nothing to reuse holds neither `{base}.jpg` nor `{base}_2.jpg`. */
  lemma JpgNamesAbsent(dir: set<string>, base: string)
    requires base != "" && NoneReusable(dir, base)
    ensures base + ".jpg" !in dir && Numbered(base, 2) !in dir
  {
    JpgNamesReusable(base, 2);
  }

  /**
   * The tail of `image_filename_for_row` as written, once no name was
   * reused: `{base}.jpg` is returned only when the folder holds it, which
   * it cannot, and the loop counts up from `{base}_2.jpg`, which it cannot
   * hold either.
   */
  method FreshNameAsWritten(dir: set<string>, base: string) returns (fname: string)
    requires base != "" && NoneReusable(dir, base)
    ensures fname == Numbered(base, 2)
  {
    fname := base + ".jpg";
    JpgNamesAbsent(dir, base);
    if fname in dir {
      // The folder would have offered this name as reusable.
      assert false;
      return fname;
    }
    var n := FreeNumber(dir, base);
    fname := Numbered(base, n);
  }

  /**
   * `image_filename_for_row` as written. With a Number, the least reusable
   * name in the folder is returned; otherwise every such row gets
   * `{base}_2.jpg`. Without a Number, `safe_image_filename`.
   */
  method ImageFilenameAsWritten(row: Row, index: nat, url: string, dir: set<string>) returns (fname: string)
    ensures Strip(Cell(row, "Number")) == "" ==> fname == SafeImageFilename(url, index)
    ensures Strip(Cell(row, "Number")) != "" && NoneReusable(dir, NumberBase(Strip(Cell(row, "Number")))) ==>
              fname == Numbered(NumberBase(Strip(Cell(row, "Number"))), 2)
  {
    var number := Strip(Cell(row, "Number"));
    if number == "" {
      return SafeImageFilename(url, index);
    }
    var base := NumberBase(number);
    var found := FirstReusable(dir, base);
    if found.Some? {
      return found.value;
    }
    fname := FreshNameAsWritten(dir, base);
  }

  /** A sheet Number "144" and an empty folder give "144_2.jpg" where "144.jpg" is meant. */
  lemma SecondNameExample()
    ensures NumberBase("144") == "144" && Numbered("144", 2) == "144_2.jpg"
  {
    assert Take(Sanitize("144"), 60) == "144";
  }

  /**
   * `image_filename_for_row` as evidently intended: the least reusable
   * name for the Number when the folder has one, else `{base}.jpg`, which
   * the folder then never holds; without a Number, `safe_image_filename`.
   */
  method ImageFilenameForRow(row: Row, index: nat, url: string, dir: set<string>) returns (fname: string)
    ensures Strip(Cell(row, "Number")) == "" ==> fname == SafeImageFilename(url, index)
    ensures var base := NumberBase(Strip(Cell(row, "Number")));
            Strip(Cell(row, "Number")) != "" ==>
              if NoneReusable(dir, base) then fname == base + ".jpg" && fname !in dir
              else fname in dir && Reusable(fname, base) && forall p :: p in dir && Reusable(p, base) ==> LexLe(fname, p)
  {
    var number := Strip(Cell(row, "Number"));
    if number == "" {
      return SafeImageFilename(url, index);
    }
    var base := NumberBase(number);
    var found := FirstReusable(dir, base);
    if found.Some? {
      return found.value;
    }
    JpgNamesReusable(base, 2);
    fname := base + ".jpg";
  }

  /**
   * Reuse goes by prefix: a folder holding "1440.jpg" gives that file
   * to the row numbered "144".
   */
  lemma PrefixReuseExample()
    ensures Reusable("1440.jpg", "144")
  {
    assert "1440"[..3] == "144";
    JpgReusable("1440", "144");
    assert "1440" + ".jpg" == "1440.jpg";
  }
}
