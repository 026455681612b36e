/**
 * The Colours Craft scraper: each sheet row with a name is looked up in
 * the store's predictive search, and the first suggested product whose
 * title shares enough of the name's words is taken.
 */
module ScrapeColoursCraft {
  import opened Wrappers
  import opened Text
  import opened Matching
  import opened Sheet
  import ScraperLib
  import Markup

  const Base: string := "https://colourscrafts.com"
  const Filler: set<string> := {"kit", "art", "3d", "set", "the", "a", "and", "with", "by", "number", "of"}

  /** The query's words that count: filler dropped unless nothing else is left. */
  function QuerySig(query: string): set<string>
  {
    Significant(WordSet(Normalize(query)), Filler)
  }

  /** The title's words that count: always without the filler. */
  function TitleSig(title: string): set<string>
  {
    WordSet(Normalize(title)) - Filler
  }

  /** At least 40% of `sig`, which is not empty, is found in `other`. */
  predicate Enough(sig: set<string>, other: set<string>)
  {
    sig != {} && Ratio(|sig * other|, |sig|) >= 0.4
  }

  /**
   * `is_good_match`: false for a query without words, else whether the
   * title holds at least 40% of the query's significant words.
   */
  predicate IsGoodMatch(query: string, title: string)
  {
    Enough(QuerySig(query), TitleSig(title))
  }

  /** 40% as whole numbers: five times the overlap reaches twice the size of `sig`. */
  lemma EnoughCount(sig: set<string>, other: set<string>)
    ensures Enough(sig, other) <==> sig != {} && 5 * |sig * other| >= 2 * |sig|
  {
    if sig != {} {
      RatioCompare(|sig * other|, |sig|, 2, 5);
    }
  }

  /**
   * A match needs a word in common, and a query whose significant words all
   * appear in the title matches it.
   */
  lemma EnoughShares(sig: set<string>, other: set<string>)
    ensures Enough(sig, other) ==> sig * other != {}
    ensures sig != {} && sig <= other ==> Enough(sig, other)
  {
    EnoughCount(sig, other);
    if sig <= other {
      assert sig * other == sig;
    }
  }

  /** The same for names: a match shares a significant word; a title with all of them matches. */
  lemma GoodMatchShares(query: string, title: string)
    ensures IsGoodMatch(query, title) ==> QuerySig(query) * TitleSig(title) != {}
    ensures QuerySig(query) != {} && QuerySig(query) <= TitleSig(title) ==> IsGoodMatch(query, title)
  {
    EnoughShares(QuerySig(query), TitleSig(title));
  }

  /**
   * The fallback to all the query's words never helps: the title's filler
   * is always dropped, so a query made only of filler words matches no
   * title at all, its own included.
   */
  lemma FillerQueryNeverMatches(query: string, title: string)
    requires WordSet(Normalize(query)) <= Filler
    ensures !IsGoodMatch(query, title)
  {
    EnoughShares(QuerySig(query), TitleSig(title));
    assert QuerySig(query) * TitleSig(title) == {};
  }

  // ------------------------------------------------------------------
  // The search

  /**
   * One suggested product: its title, the `url` of its `featured_image`
   * ("" when there is none), its `image`, its `body` and its `url`.
   */
  datatype Suggestion = Suggestion(title: string, featuredUrl: string, image: string, body: string, url: string)

  /** The search request's outcome: an answer with a status and the products listed, or a failure. */
  datatype SearchReply = Answered(status: int, products: seq<Suggestion>) | Failed

  /** The data taken from a suggestion. */
  datatype Found = Found(title: string, description: string, imageUrl: string, productUrl: string)

  /** The featured image, else the product's image. */
  function ImageOf(p: Suggestion): (r: string)
    ensures p.featuredUrl != "" ==> r == p.featuredUrl
    ensures p.featuredUrl == "" ==> r == p.image
  {
    OrElse(p.featuredUrl, p.image)
  }

  /**
   * The product page: the store's address and the suggestion's path cut at
   * its first '?', or the whole path when it has none.
   */
  function ProductUrl(p: Suggestion): (r: string)
    ensures StartsWith(r, Base)
    ensures '?' !in r[|Base|..]
    ensures StartsWith(p.url, r[|Base|..])
    ensures |r| == |Base| + |p.url| || p.url[|r| - |Base|] == '?'
  {
    BeforeDrops(p.url, '?');
    var path := Before(p.url, '?');
    assert (Base + path)[|Base|..] == path;
    assert (Base + path)[..|Base|] == Base;
    Base + path
  }

  function FoundOf(p: Suggestion): Found
  {
    Found(p.title, Markup.CleanText(p.body), ImageOf(p), ProductUrl(p))
  }

  function Passes(name: string): Suggestion -> bool
  {
    (p: Suggestion) => IsGoodMatch(name, p.title)
  }

  /**
   * `search_product`: nothing unless the request was answered with 200;
   * else the first suggestion whose title is a good match.
   */
  function SearchProduct(reply: SearchReply, name: string): (r: Option<Found>)
    ensures r.Some? ==> reply.Answered? && reply.status == 200
  {
    if reply.Failed? || reply.status != 200 then None
    else match FirstIndex(reply.products, Passes(name))
      case None => None
      case Some(k) => Some(FoundOf(reply.products[k]))
  }

  /**
   * An answer other than 200 gives nothing; a 200 gives nothing exactly
   * when no suggestion is a good match.
   */
  lemma SearchProductNone(status: int, products: seq<Suggestion>, name: string)
    ensures status != 200 ==> SearchProduct(Answered(status, products), name).None?
    ensures status == 200 ==>
              (SearchProduct(Answered(status, products), name).None? <==>
                 forall j :: 0 <= j < |products| ==> !IsGoodMatch(name, products[j].title))
  {
    var pass := Passes(name);
    assert forall j :: 0 <= j < |products| ==> pass(products[j]) == IsGoodMatch(name, products[j].title);
  }

  /** A 200 answer gives the first suggestion that is a good match. */
  lemma SearchProductFirst(status: int, products: seq<Suggestion>, name: string)
    ensures forall k :: 0 <= k < |products| && status == 200 && IsGoodMatch(name, products[k].title)
                        && (forall j :: 0 <= j < k ==> !IsGoodMatch(name, products[j].title)) ==>
              SearchProduct(Answered(status, products), name) == Some(FoundOf(products[k]))
  {
    var pass := Passes(name);
    forall k | 0 <= k < |products| && status == 200 && IsGoodMatch(name, products[k].title)
               && (forall j :: 0 <= j < k ==> !IsGoodMatch(name, products[j].title))
      ensures SearchProduct(Answered(status, products), name) == Some(FoundOf(products[k]))
    {
      assert pass(products[k]);
      assert forall j :: 0 <= j < k ==> !pass(products[j]);
      FirstIsUnique(products, pass, k);
      SearchProductAt(status, products, name, k);
    }
  }

  /** A 200 answer whose first good match is at `k` gives that suggestion. */
  lemma SearchProductAt(status: int, products: seq<Suggestion>, name: string, k: nat)
    requires status == 200 && k < |products| && FirstIndex(products, Passes(name)) == Some(k)
    ensures SearchProduct(Answered(status, products), name) == Some(FoundOf(products[k]))
  {
  }

  /** The search loop over the suggestions. */
  method Search(reply: SearchReply, name: string) returns (r: Option<Found>)
    ensures r == SearchProduct(reply, name)
  {
    if reply.Failed? || reply.status != 200 {
      return None;
    }
    var k := FirstBy(reply.products, Passes(name));
    if k.None? {
      return None;
    }
    var p := reply.products[k.value];
    r := Some(Found(p.title, Markup.CleanText(p.body), ImageOf(p), ProductUrl(p)));
  }

  // ------------------------------------------------------------------
  // main

  /** The search replies, by the name searched for; a name never answered fails. */
  function ReplyFor(net: map<string, SearchReply>, name: string): SearchReply
  {
    if name in net then net[name] else Failed
  }

  /** The result row of a sheet row: skipped without a name or a match; its UPC may be empty. */
  function RowResult(net: map<string, SearchReply>): ((string, string)) -> Option<Entry>
  {
    (key: (string, string)) =>
      if key.1 == "" then None
      else match SearchProduct(ReplyFor(net, key.1), key.1)
        case None => None
        case Some(d) => Some(Entry(key.0, d.title, d.description, d.imageUrl, d.productUrl))
  }

  /** One row of the loop. */
  method MatchRow(row: Row, net: map<string, SearchReply>) returns (entry: Option<Entry>)
    ensures entry == RowResult(net)(ScraperLib.RowKey(row))
  {
    var upc := ScraperLib.GetUpc(row);
    var name := ScraperLib.GetName(row);
    if name == "" {
      return None;
    }
    var data := Search(ReplyFor(net, name), name);
    if data.Some? {
      var d := data.value;
      return Some(Entry(upc, d.title, d.description, d.imageUrl, d.productUrl));
    }
    return None;
  }

  /** One pass of `main`'s loop: the row's result, when it has one, is appended and counted. */
  method MatchNext(row: Row, net: map<string, SearchReply>, results: seq<Entry>, matched: nat)
    returns (results': seq<Entry>, matched': nat)
    requires matched == |results|
    ensures var r := RowResult(net)(ScraperLib.RowKey(row));
              results' == results + (if r.Some? then [r.value] else [])
    ensures matched' == |results'|
  {
    var entry := MatchRow(row, net);
    results', matched' := results, matched;
    if entry.Some? {
      matched' := matched + 1;
      results' := results + [entry.value];
    }
  }

  /** `main`'s loop: one result per matched row, in sheet order, and their count. */
  method Run(rows: seq<Row>, net: map<string, SearchReply>) returns (results: seq<Entry>, matched: nat)
    ensures results == Gather(ScraperLib.RowKeys(rows), RowResult(net))
    ensures matched == |results|
  {
    ghost var keys := ScraperLib.RowKeys(rows);
    results, matched := [], 0;
    var i := 0;
    while i < |rows|
      invariant 0 <= i <= |rows|
      invariant results == Gather(keys[..i], RowResult(net))
      invariant matched == |results|
      decreases |rows| - i
    {
      PrefixSnoc(keys, i);
      GatherStep(keys[..i], keys[i], RowResult(net));
      results, matched := MatchNext(rows[i], net, results, matched);
      i := i + 1;
    }
    assert keys[..|rows|] == keys;
  }

  /** Every result row comes from a named sheet row, with its UPC, and is a good match for the name. */
  lemma ResultsFromRows(rows: seq<Row>, net: map<string, SearchReply>, i: nat)
    requires i < |Gather(ScraperLib.RowKeys(rows), RowResult(net))|
    ensures var e := Gather(ScraperLib.RowKeys(rows), RowResult(net))[i];
            exists r :: 0 <= r < |rows| && ScraperLib.GetName(rows[r]) != ""
              && e.upc == ScraperLib.GetUpc(rows[r])
              && IsGoodMatch(ScraperLib.GetName(rows[r]), e.title)
  {
    var keys := ScraperLib.RowKeys(rows);
    var f := RowResult(net);
    var src := GatherSpec(keys, f);
    var r := src[i];
    assert keys[r] == ScraperLib.RowKey(rows[r]);
    var e := Gather(keys, f)[i];
    assert f(keys[r]) == Some(e);
    var name := keys[r].1;
    var reply := ReplyFor(net, name);
    assert SearchProduct(reply, name).Some?;
    var k := FirstIndex(reply.products, Passes(name)).value;
    assert Passes(name)(reply.products[k]);
    assert e.title == reply.products[k].title;
  }
}
