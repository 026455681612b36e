/**
 * The bulk catalog fetcher: each requested brand's Shopify store is
 * downloaded page by page (250 products a page) and the products are
 * saved to the brand's file, which is kept as it was when nothing came.
 */
module FetchChunk {
  import opened Text
  import opened Paging
  import Markup

  const PageSize: nat := 250

  /** The status a refusal carries when the request failed without an answer. */
  const NoResponse: int := 0

  /**
   * `strip_html`: tags become spaces, `&nbsp;` a space and `&#39;` an
   * apostrophe, and the edges are stripped; nothing stays nothing. No
   * tag and neither entity is left.
   */
  function StripHtml(html: string): (r: string)
    ensures NoEdgeSpace(r)
    ensures html == "" ==> r == ""
    ensures Markup.NoTag(r) && !Contains(r, "&nbsp;") && !Contains(r, "&#39;")
  {
    if html == "" then ""
    else
      var u := Markup.StripTags(html);
      var v := ReplaceAll(u, "&nbsp;", " ");
      var t := ReplaceAll(v, "&#39;", "'");
      Markup.StripTagsNoTag(html);
      Markup.ReplaceAllNoTag(u, "&nbsp;", " ");
      Markup.ReplaceAllNoTag(v, "&#39;", "'");
      Markup.StripNoTag(t);
      ReplaceAllClears(u, "&nbsp;", " ");
      ReplaceAllKeeps(v, "&#39;", "'", "&nbsp;");
      ReplaceAllClears(v, "&#39;", "'");
      StripKeeps(t, "&nbsp;");
      StripKeeps(t, "&#39;");
      StripNoEdge(t);
      Strip(t)
  }

  /** Plain text, without tags, entities or edge whitespace, comes back unchanged. */
  lemma StripHtmlIdle(s: string)
    requires Markup.NoTag(s) && !Contains(s, "&nbsp;") && !Contains(s, "&#39;") && NoEdgeSpace(s)
    ensures StripHtml(s) == s
  {
    if s != "" {
      Markup.StripTagsIdle(s);
      ReplaceAllAbsent(s, "&nbsp;", " ");
      ReplaceAllAbsent(s, "&#39;", "'");
      StripOfNoEdge(s);
    }
  }

  // ------------------------------------------------------------------
  // The download and its retry on 429

  /**
   * The truth value of a `requests` response: false for a 4xx or 5xx
   * status, which is exactly when `raise_for_status` raises.
   */
  predicate ResponseTruthy(status: int)
  {
    status != NoResponse && !(400 <= status < 600)
  }

  /** The retry test as written: `getattr(e, "response", None) and status == 429`. */
  predicate RetryAsWritten(status: int)
  {
    ResponseTruthy(status) && status == 429
  }

  /** The retry test as meant: the server answered 429 (too many requests). */
  predicate Retry(status: int)
  {
    status == 429
  }

  /**
   * `fetch_shopify_all` with a retry test: a refusal the test accepts is
   * followed by a new request for the same page (after a pause); any other
   * refusal, or an empty page, ends the download; a short page ends it
   * after its products.
   */
  function PagesWith<T>(replies: seq<Reply<T>>, size: nat, retry: int -> bool): seq<T>
    decreases |replies|
  {
    if replies == [] then []
    else match replies[0]
      case Refused(status) => if retry(status) then PagesWith(replies[1..], size, retry) else []
      case Items(ps) =>
        if ps == [] then []
        else if |ps| < size then ps
        else ps + PagesWith(replies[1..], size, retry)
  }

  /** The answers without the 429 refusals. */
  function Unthrottled<T>(replies: seq<Reply<T>>): (r: seq<Reply<T>>)
    ensures |r| <= |replies|
    ensures forall i :: 0 <= i < |r| ==> r[i] in replies && !(r[i].Refused? && r[i].status == 429)
    decreases |replies|
  {
    if replies == [] then []
    else
      var rest := Unthrottled(replies[1..]);
      assert forall x :: x in rest ==> x in replies;
      if replies[0].Refused? && replies[0].status == 429 then rest
      else
        assert forall i :: 1 <= i < |[replies[0]] + rest| ==> ([replies[0]] + rest)[i] == rest[i - 1];
        [replies[0]] + rest
  }

  /** As written, no refusal is ever retried: the download is the plain pagination loop. */
  lemma {:induction false} AsWrittenNeverRetries<T>(replies: seq<Reply<T>>, size: nat)
    ensures PagesWith(replies, size, RetryAsWritten) == Pages(replies, size)
    decreases |replies|
  {
    if replies != [] && replies[0].Items? && replies[0].items != [] && |replies[0].items| >= size {
      AsWrittenNeverRetries(replies[1..], size);
    }
  }

  /** With the retry, a 429 costs a request and nothing else: the download of the other answers. */
  lemma {:induction false} RetryingSkipsRateLimits<T>(replies: seq<Reply<T>>, size: nat)
    ensures PagesWith(replies, size, Retry) == Pages(Unthrottled(replies), size)
    decreases |replies|
  {
    if replies != [] {
      RetryingSkipsRateLimits(replies[1..], size);
      var rest := Unthrottled(replies[1..]);
      if !(replies[0].Refused? && replies[0].status == 429) {
        assert Unthrottled(replies) == [replies[0]] + rest;
        assert ([replies[0]] + rest)[1..] == rest;
      }
    }
  }

  /** A 429 on the first page loses the whole catalog as written, and none of it with the retry. */
  lemma RateLimitLosesCatalog<T>(p: T)
    ensures PagesWith([Refused(429), Items([p])], PageSize, RetryAsWritten) == []
    ensures PagesWith([Refused(429), Items([p])], PageSize, Retry) == [p]
  {
    var replies: seq<Reply<T>> := [Refused(429), Items([p])];
    assert replies[1..] == [Items([p])];
    assert replies[1..][1..] == [];
  }

  /** The request loop, retrying a 429. */
  method FetchShopifyAll<T>(replies: seq<Reply<T>>) returns (all: seq<T>)
    ensures all == PagesWith(replies, PageSize, Retry)
  {
    all := [];
    var k := 0;
    while k < |replies|
      invariant 0 <= k <= |replies|
      invariant PagesWith(replies, PageSize, Retry) == all + PagesWith(replies[k..], PageSize, Retry)
      decreases |replies| - k
    {
      assert replies[k..][1..] == replies[k + 1..];
      var reply := replies[k];
      k := k + 1;
      if reply.Refused? {
        if reply.status == 429 {
          continue;
        }
        return;
      }
      if reply.items == [] {
        return;
      }
      all := all + reply.items;
      if |reply.items| < PageSize {
        return;
      }
    }
  }

  // ------------------------------------------------------------------
  // main

  /** A store the script knows: its argument, its address and the file its catalog goes to. */
  datatype Brand = Brand(key: string, base: string, file: string)

  const Brands: seq<Brand> := [
    Brand("chazak", "https://www.chazakkinder.com", "chazak_products.json"),
    Brand("enday", "https://www.enday.com", "enday_products.json"),
    Brand("aurora", "https://www.auroragift.com", "aurora_products.json"),
    Brand("colours_craft", "https://colourscrafts.com", "colours_craft_products.json"),
    Brand("microkick", "https://microkickboard.com", "microkick_products.json"),
    Brand("kent", "https://kent.bike", "kent_products.json")]

  /** The brands asked for on the command line, `chazak` when none is. */
  function Requested(args: seq<string>): (r: seq<string>)
    ensures r != []
    ensures args != [] ==> r == args
  {
    if args != [] then args else ["chazak"]
  }

  /** The answers a brand's store gives; a store never reached gives none. */
  function Answers<T>(net: map<string, seq<Reply<T>>>, key: string): seq<Reply<T>>
  {
    if key in net then net[key] else []
  }

  /** The files after the brands `bs` in turn: a requested brand's non-empty download replaces its file. */
  function SaveAll<T>(files: map<string, seq<T>>, bs: seq<Brand>, requested: seq<string>,
                      net: map<string, seq<Reply<T>>>): map<string, seq<T>>
    decreases |bs|
  {
    if bs == [] then files
    else
      var n := |bs| - 1;
      var before := SaveAll(files, bs[..n], requested, net);
      var b := bs[n];
      var products := PagesWith(Answers(net, b.key), PageSize, Retry);
      if b.key in requested && products != [] then before[b.file := products] else before
  }

  /** No two brands share a file. */
  predicate DistinctFiles(bs: seq<Brand>)
  {
    forall i, j :: 0 <= i < j < |bs| ==> bs[i].file != bs[j].file
  }

  /**
   * A file of no brand is untouched; a brand's file holds its download
   * when the brand was asked for and the download is not empty, else it
   * is as it was (absent stays absent).
   */
  lemma {:induction false} SaveAllSpec<T>(files: map<string, seq<T>>, bs: seq<Brand>, requested: seq<string>,
                                          net: map<string, seq<Reply<T>>>, f: string)
    requires DistinctFiles(bs)
    ensures (forall i :: 0 <= i < |bs| ==> bs[i].file != f) ==>
              (f in SaveAll(files, bs, requested, net) <==> f in files)
              && (f in files ==> SaveAll(files, bs, requested, net)[f] == files[f])
    ensures forall i :: 0 <= i < |bs| && bs[i].file == f ==>
              var products := PagesWith(Answers(net, bs[i].key), PageSize, Retry);
              if bs[i].key in requested && products != [] then
                f in SaveAll(files, bs, requested, net) && SaveAll(files, bs, requested, net)[f] == products
              else
                (f in SaveAll(files, bs, requested, net) <==> f in files)
                && (f in files ==> SaveAll(files, bs, requested, net)[f] == files[f])
    decreases |bs|
  {
    if bs != [] {
      var n := |bs| - 1;
      assert DistinctFiles(bs[..n]) by {
        forall i, j | 0 <= i < j < n ensures bs[..n][i].file != bs[..n][j].file {
          assert bs[..n][i] == bs[i] && bs[..n][j] == bs[j];
        }
      }
      SaveAllSpec(files, bs[..n], requested, net, f);
      assert forall i :: 0 <= i < n ==> bs[..n][i] == bs[i];
    }
  }

  /** The known brands have different files. */
  lemma BrandFilesDistinct()
    ensures DistinctFiles(Brands)
  {
  }

  /** `main`: every known brand in turn, fetched and saved when it was asked for. */
  method Run<T>(args: seq<string>, net: map<string, seq<Reply<T>>>, files: map<string, seq<T>>)
    returns (after: map<string, seq<T>>)
    ensures after == SaveAll(files, Brands, Requested(args), net)
  {
    var requested := Requested(args);
    after := files;
    var i := 0;
    while i < |Brands|
      invariant 0 <= i <= |Brands|
      invariant after == SaveAll(files, Brands[..i], requested, net)
      decreases |Brands| - i
    {
      var b := Brands[i];
      assert Brands[..i + 1][..i] == Brands[..i];
      if b.key in requested {
        var products := FetchShopifyAll(Answers(net, b.key));
        if products != [] {
          after := after[b.file := products];
        }
      }
      i := i + 1;
    }
    assert Brands[..|Brands|] == Brands;
  }
}
