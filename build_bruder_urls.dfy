/**
 * The Bruder URL cache: the product links of the shop's assortment pages,
 * keyed by item number (also zero-padded, or without leading zeros), for
 * the Bruder adapter of the brand scraper to look up.
 */
module BuildBruderUrls {
  import opened Wrappers
  import opened Text
  import opened Files
  import opened Overwrites

  const Base: string := "https://www.bruder.de"

  /** The assortment and category pages whose product links are collected. */
  const Pages: seq<string> := [
    "/shop/en/assortment/", "/shop/en/assortment/bworld/", "/shop/en/assortment/forestry/",
    "/shop/en/assortment/agriculture/", "/shop/en/assortment/leisure-time/", "/shop/en/assortment/commercial/",
    "/shop/en/assortment/emergency/", "/shop/en/assortment/construction/", "/shop/en/assortment/roadmax/"]

  // ------------------------------------------------------------------
  // The link pattern

  predicate IsQuote(c: char) { c == '"' || c == '\'' }

  /** The first quote of `s`. */
  function FirstQuote(s: string): (r: Option<nat>)
    ensures r.Some? ==> r.value < |s| && IsQuote(s[r.value]) && forall i :: 0 <= i < r.value ==> !IsQuote(s[i])
    ensures r.None? ==> forall i :: 0 <= i < |s| ==> !IsQuote(s[i])
    decreases |s|
  {
    if s == [] then None
    else if IsQuote(s[0]) then Some(0)
    else match FirstQuote(s[1..])
      case Some(q) => Some(q + 1)
      case None => None
  }

  /** A match: the path (group 1) and the item number (group 2). */
  datatype Link = Link(path: string, item: string)

  /**
   * The rest of a match after `/shop/en/`: `[^"']+/(\d+)["']`. The
   * greedy class runs to the first quote, so the item number is
   * everything after the last slash before it, with something before
   * that slash.
   */
  function PathMatch(t: string): (r: Option<(Link, nat)>)
    ensures r.Some? ==> 1 <= r.value.1 <= |t|
    ensures r.Some? ==> StartsWith(r.value.0.path, "/shop/en/") && IsDigits(r.value.0.item)
                        && EndsWith(r.value.0.path, "/" + r.value.0.item)
  {
    match FirstQuote(t)
    case None => None
    case Some(q) =>
      var body := t[..q];
      match LastIndex(body, '/')
      case None => None
      case Some(j) =>
        if j == 0 || !IsDigits(body[j + 1..]) then None
        else
          var p := "/shop/en/" + body;
          var item := body[j + 1..];
          assert EndsWith(p, "/" + item) by {
            assert body == body[..j] + "/" + item;
            assert p == ("/shop/en/" + body[..j]) + ("/" + item);
          }
          Some((Link(p, item), q + 1))
  }

  /** The host that may come before the path: `(?:https?://www\.bruder\.de)?`. */
  function HostLength(r: string): (n: nat)
    ensures n <= |r|
  {
    if StartsWith(r, "https://www.bruder.de") then 21 else if StartsWith(r, "http://www.bruder.de") then 20 else 0
  }

  /** The match after `href=` and its quote: an optional host, `/shop/en/` and the rest of the path. */
  function AfterHref(r: string): (m: Option<(Link, nat)>)
    ensures m.Some? ==> 1 <= m.value.1 <= |r|
    ensures m.Some? ==> StartsWith(m.value.0.path, "/shop/en/") && IsDigits(m.value.0.item)
                        && EndsWith(m.value.0.path, "/" + m.value.0.item)
  {
    var h := HostLength(r);
    if !StartsWith(r[h..], "/shop/en/") then None
    else
      match PathMatch(r[h + 9..])
      case None => None
      case Some((l, n)) => Some((l, h + 9 + n))
  }

  /**
   * The match of `href=["'](?:https?://www\.bruder\.de)?(/shop/en/[^"']+/(\d+))["']`
   * at the start of `s`, with its length.
   */
  function MatchAt(s: string): (r: Option<(Link, nat)>)
    ensures r.Some? ==> 1 <= r.value.1 <= |s|
    ensures r.Some? ==> StartsWith(r.value.0.path, "/shop/en/") && IsDigits(r.value.0.item)
                        && EndsWith(r.value.0.path, "/" + r.value.0.item)
  {
    if |s| < 6 || s[..5] != "href=" || !IsQuote(s[5]) then None
    else
      match AfterHref(s[6..])
      case None => None
      case Some((l, n)) => Some((l, 6 + n))
  }

  /** `re.finditer`: the matches left to right, each search resuming after the previous match. */
  function Matches(s: string): seq<Link>
    decreases |s|
  {
    if s == [] then []
    else match MatchAt(s)
      case Some((l, n)) => [l] + Matches(s[n..])
      case None => Matches(s[1..])
  }

  /** Every match has a `/shop/en/` path ending in `/` and its all-digit item number. */
  lemma {:induction false} MatchesSpec(s: string)
    ensures forall l :: l in Matches(s) ==>
              StartsWith(l.path, "/shop/en/") && IsDigits(l.item) && EndsWith(l.path, "/" + l.item)
    decreases |s|
  {
    if s != [] {
      match MatchAt(s)
      case Some((l, n)) => MatchesSpec(s[n..]);
      case None => MatchesSpec(s[1..]);
    }
  }

  lemma FirstQuoteExample()
    ensures FirstQuote("cat/t/25\"") == Some(8)
  {
    var t := "cat/t/25\"";
    assert IsQuote(t[8]) && forall i :: 0 <= i < 8 ==> !IsQuote(t[i]);
  }

  lemma LastSlashExample()
    ensures LastIndex("cat/t/25", '/') == Some(5)
  {
    var b := "cat/t/25";
    assert b[5] == '/' && forall j :: 5 < j < 8 ==> b[j] != '/';
  }

  /** The match read off its quote and its last slash. */
  lemma PathMatchOf(t: string, q: nat, j: nat)
    requires FirstQuote(t) == Some(q) && LastIndex(t[..q], '/') == Some(j)
    requires j != 0 && IsDigits(t[..q][j + 1..])
    ensures PathMatch(t) == Some((Link("/shop/en/" + t[..q], t[..q][j + 1..]), q + 1))
  {
  }

  /** The item number is what follows the last slash of the quoted path. */
  lemma PathExample()
    ensures PathMatch("cat/t/25\"") == Some((Link("/shop/en/" + "cat/t/25", "25"), 9))
  {
    var t := "cat/t/25\"";
    var b := "cat/t/25";
    FirstQuoteExample();
    assert t[..8] == b;
    LastSlashExample();
    assert b[6..] == "25";
    assert IsDigits("25");
    PathMatchOf(t, 8, 5);
  }

  /** A quoted path without a slash before its digits is no match. */
  lemma NoCategoryExample()
    ensures PathMatch("25\"").None?
  {
    var d := "25\"";
    assert IsQuote(d[2]) && forall i :: 0 <= i < 2 ==> !IsQuote(d[i]);
    assert FirstQuote(d) == Some(2);
    assert d[..2] == "25";
    assert '/' !in "25";
  }

  /** The optional host is recognised exactly, before a path that starts with a slash. */
  lemma HostLengthOf(host: string, r: string)
    requires host == "" || host == "https://www.bruder.de" || host == "http://www.bruder.de"
    requires |host| < |r| && r[..|host|] == host && r[|host|] == '/'
    ensures HostLength(r) == |host|
  {
    if host == "" {
      assert !StartsWith(r, "https://www.bruder.de") by {
        if |r| >= 21 { assert r[..21][0] == '/'; }
      }
      assert !StartsWith(r, "http://www.bruder.de") by {
        if |r| >= 20 { assert r[..20][0] == '/'; }
      }
    } else if host == "http://www.bruder.de" {
      assert r[4] == ':' by {
        assert r[..|host|][4] == ':';
      }
      assert !StartsWith(r, "https://www.bruder.de") by {
        if |r| >= 21 { assert r[..21][4] == ':'; }
      }
    }
  }

  /** The pieces of a host, `/shop/en/` and a path put together. */
  lemma FrontPieces(host: string, t: string)
    ensures var r := host + "/shop/en/" + t;
            |host| + 9 <= |r| && r[..|host|] == host && r[|host|] == '/'
            && r[|host|..][..9] == "/shop/en/" && r[|host| + 9..] == t
  {
    var front := host + "/shop/en/";
    var r := front + t;
    assert r[..|front|] == front;
    assert front[..|host|] == host && front[|host|..] == "/shop/en/";
    assert r[..|host|] == front[..|host|];
    assert r[|host|] == front[|host|];
    assert r[|host|..][..9] == front[|host|..];
  }

  /** The path after the quote gives its link, with or without the shop's host in front. */
  lemma AfterHrefMatch(host: string, t: string)
    requires host == "" || host == "https://www.bruder.de" || host == "http://www.bruder.de"
    requires PathMatch(t).Some?
    ensures AfterHref(host + "/shop/en/" + t) == Some((PathMatch(t).value.0, |host| + 9 + PathMatch(t).value.1))
  {
    HostRecognised(host, t);
    AfterHostMatch(host, t);
  }

  /** Each of the three hosts is recognised in front of `/shop/en/`. */
  lemma HostRecognised(host: string, t: string)
    requires host == "" || host == "https://www.bruder.de" || host == "http://www.bruder.de"
    ensures HostLength(host + "/shop/en/" + t) == |host|
  {
    FrontPieces(host, t);
    HostLengthOf(host, host + "/shop/en/" + t);
  }

  /** A recognised host, `/shop/en/` and a matching path give the path's link. */
  lemma AfterHostMatch(host: string, t: string)
    requires HostLength(host + "/shop/en/" + t) == |host|
    requires PathMatch(t).Some?
    ensures AfterHref(host + "/shop/en/" + t) == Some((PathMatch(t).value.0, |host| + 9 + PathMatch(t).value.1))
  {
    FrontPieces(host, t);
    AfterHrefOf(host + "/shop/en/" + t, |host|);
  }

  /** After a recognised host and `/shop/en/`, a matching path gives the path's link. */
  lemma AfterHrefOf(r: string, h: nat)
    requires HostLength(r) == h && h + 9 <= |r| && r[h..][..9] == "/shop/en/"
    ensures PathMatch(r[h + 9..]).Some? ==>
              AfterHref(r) == Some((PathMatch(r[h + 9..]).value.0, h + 9 + PathMatch(r[h + 9..]).value.1))
  {
    assert StartsWith(r[h..], "/shop/en/");
    assert r[h + 9..] == r[h..][9..];
  }

  /** An anchor `href=` with either quote gives the link of its path. */
  lemma HrefMatch(q: char, r: string)
    requires IsQuote(q) && AfterHref(r).Some?
    ensures MatchAt("href=" + [q] + r) == Some((AfterHref(r).value.0, 6 + AfterHref(r).value.1))
  {
    var s := "href=" + [q] + r;
    assert s[..5] == "href=" && s[5] == q;
    assert s[6..] == r;
  }

  // ------------------------------------------------------------------
  // Keys

  /**
   * The keys of one link: its item number; a shorter all-digit one also
   * zero-padded to five; a five-character one also without leading
   * zeros, unless that leaves nothing.
   */
  function LinkKeys(item: string): set<string>
  {
    {item}
    + (if |item| < 5 && IsDigits(item) then {ZFill(item, 5)} else {})
    + (if |item| == 5 && LStripCh(item, '0') != "" then {LStripCh(item, '0')} else {})
  }

  /** `url = BASE + path if path.startswith("/") else path` */
  function LinkUrl(l: Link): string
  {
    if StartsWith(l.path, "/") then Base + l.path else l.path
  }

  /** What each link contributes to the page's map. */
  function LinkMap(l: Link): map<string, string>
  {
    Const(LinkKeys(l.item), LinkUrl(l))
  }

  function LinkMaps(ls: seq<Link>): (r: seq<map<string, string>>)
    ensures |r| == |ls| && forall i :: 0 <= i < |ls| ==> r[i] == LinkMap(ls[i])
  {
    seq(|ls|, i requires 0 <= i < |ls| => LinkMap(ls[i]))
  }

  /** `extract_product_links`: later links overwrite earlier ones's keys. */
  function PageLinks(html: string): map<string, string>
  {
    Union(LinkMaps(Matches(html)))
  }

  lemma {:induction false} LStripZerosValue(s: string)
    ensures DigitsValue(LStripCh(s, '0')) == DigitsValue(s)
    decreases |s|
  {
    if |s| > 0 && s[0] == '0' {
      LStripZerosValue(s[1..]);
      assert s == ['0'] + s[1..];
      ZerosValue(['0'], s[1..]);
    }
  }

  lemma {:induction false} LStripDigits(s: string)
    requires IsDigits(s) && LStripCh(s, '0') != ""
    ensures IsDigits(LStripCh(s, '0'))
    decreases |s|
  {
    if s[0] == '0' {
      LStripDigits(s[1..]);
    }
  }

  /** The zero-padded key of a short item is five digits with the item's value. */
  lemma PaddedKey(item: string)
    requires IsDigits(item) && |item| < 5
    ensures IsDigits(ZFill(item, 5)) && |ZFill(item, 5)| == 5 && DigitsValue(ZFill(item, 5)) == DigitsValue(item)
  {
    var z := Repeat('0', 5 - |item|);
    ZerosAreZeros(5 - |item|);
    ZerosValue(z, item);
    assert ZFill(item, 5) == z + item;
    assert forall i :: 0 <= i < |z + item| ==> IsDigit((z + item)[i]) by {
      forall i | 0 <= i < |z + item|
        ensures IsDigit((z + item)[i])
      {
        if i >= |z| {
          assert (z + item)[i] == item[i - |z|];
        }
      }
    }
  }

  /** Every key of an all-digit item is all digits with the item's value. */
  lemma KeysKeepValue(item: string)
    requires IsDigits(item)
    ensures forall k :: k in LinkKeys(item) ==> IsDigits(k) && DigitsValue(k) == DigitsValue(item)
  {
    forall k | k in LinkKeys(item)
      ensures IsDigits(k) && DigitsValue(k) == DigitsValue(item)
    {
      if k == item {
      } else if |item| < 5 && k == ZFill(item, 5) {
        PaddedKey(item);
      } else {
        assert k == LStripCh(item, '0') && k != "";
        LStripZerosValue(item);
        LStripDigits(item);
      }
    }
  }

  /**
   * Every key of a link is an all-digit string naming the same item
   * number, the item itself among them, and a five-digit key is among
   * them exactly when one has the item's value.
   */
  lemma LinkKeysSpec(item: string)
    requires IsDigits(item)
    ensures item in LinkKeys(item)
    ensures forall k :: k in LinkKeys(item) ==> IsDigits(k) && DigitsValue(k) == DigitsValue(item)
    ensures |item| < 5 ==> ZFill(item, 5) in LinkKeys(item) && |ZFill(item, 5)| == 5
    ensures |item| == 5 && DigitsValue(item) > 0 ==> LStripCh(item, '0') in LinkKeys(item)
  {
    KeysKeepValue(item);
    if |item| < 5 {
      PaddedKey(item);
    }
    if |item| == 5 && DigitsValue(item) > 0 {
      LStripZerosValue(item);
    }
  }

  lemma LinkUrlSpec(l: Link)
    requires StartsWith(l.path, "/shop/en/")
    ensures LinkUrl(l) == Base + l.path && StartsWith(LinkUrl(l), Base + "/shop/en/")
  {
    assert l.path[..1] == "/";
    assert (Base + l.path)[..|Base + "/shop/en/"|] == Base + l.path[..9];
  }

  /** Every value of a page's map is a `https://www.bruder.de/shop/en/...` URL. */
  lemma PageLinksValues(html: string)
    ensures forall v :: v in PageLinks(html).Values ==> StartsWith(v, Base + "/shop/en/")
  {
    var ls := Matches(html);
    var ms := LinkMaps(ls);
    MatchesSpec(html);
    forall i, k | 0 <= i < |ms| && k in ms[i]
      ensures StartsWith(ms[i][k], Base + "/shop/en/")
    {
      assert ls[i] in ls;
      LinkUrlSpec(ls[i]);
    }
    UnionValues(ms, v => StartsWith(v, Base + "/shop/en/"));
  }

  /** The map of link `i` gives its keys the link's shop URL. */
  lemma LinkMapAt(ls: seq<Link>, i: nat)
    requires i < |ls| && StartsWith(ls[i].path, "/shop/en/")
    ensures LinkMaps(ls)[i].Keys == LinkKeys(ls[i].item)
    ensures forall k :: k in LinkMaps(ls)[i] ==> LinkMaps(ls)[i][k] == Base + ls[i].path
  {
    LinkUrlSpec(ls[i]);
  }

  /** A key is in a page's map exactly when some link has it among its keys. */
  lemma PageLinksHas(html: string, k: string)
    ensures var ls := Matches(html);
            k in PageLinks(html) <==> exists i :: 0 <= i < |ls| && k in LinkKeys(ls[i].item)
  {
    var ls := Matches(html);
    var ms := LinkMaps(ls);
    UnionKeys(ms, k);
    forall i | 0 <= i < |ls|
      ensures k in ms[i] <==> k in LinkKeys(ls[i].item)
    {
      assert ms[i] == LinkMap(ls[i]);
    }
  }

  /** The last link with a key gives the key its URL. */
  lemma PageLinksLast(html: string, k: string, i: nat)
    requires var ls := Matches(html);
             i < |ls| && k in LinkKeys(ls[i].item) && forall j :: i < j < |ls| ==> k !in LinkKeys(ls[j].item)
    ensures k in PageLinks(html) && PageLinks(html)[k] == Base + Matches(html)[i].path
  {
    var ls := Matches(html);
    var ms := LinkMaps(ls);
    MatchesSpec(html);
    assert ls[i] in ls;
    LinkMapAt(ls, i);
    forall j | i < j < |ms|
      ensures k !in ms[j]
    {
      assert ls[j] in ls;
      LinkMapAt(ls, j);
    }
    UnionAt(ms, k, i);
  }

  /**
   * A key is in a page's map exactly when some link has it among its
   * keys, and the last such link gives its URL.
   */
  lemma PageLinksKeys(html: string, k: string)
    ensures var ls := Matches(html);
            k in PageLinks(html) <==> exists i :: 0 <= i < |ls| && k in LinkKeys(ls[i].item)
    ensures var ls := Matches(html);
            forall i :: 0 <= i < |ls| && k in LinkKeys(ls[i].item) && (forall j :: i < j < |ls| ==> k !in LinkKeys(ls[j].item)) ==>
              k in PageLinks(html) && PageLinks(html)[k] == Base + ls[i].path
  {
    PageLinksHas(html, k);
    var ls := Matches(html);
    forall i | 0 <= i < |ls| && k in LinkKeys(ls[i].item) && (forall j :: i < j < |ls| ==> k !in LinkKeys(ls[j].item))
      ensures k in PageLinks(html) && PageLinks(html)[k] == Base + ls[i].path
    {
      PageLinksLast(html, k, i);
    }
  }

  /** One link's assignments are the update by its map. */
  lemma LinkStep(out: map<string, string>, l: Link, next: map<string, string>)
    requires next == if |l.item| < 5 && IsDigits(l.item) then out[l.item := LinkUrl(l)][ZFill(l.item, 5) := LinkUrl(l)]
                     else if |l.item| == 5 && LStripCh(l.item, '0') != "" then out[l.item := LinkUrl(l)][LStripCh(l.item, '0') := LinkUrl(l)]
                     else out[l.item := LinkUrl(l)]
    ensures next == out + LinkMap(l)
  {
    var m := out + LinkMap(l);
    assert next.Keys == m.Keys;
    forall k | k in m
      ensures next[k] == m[k]
    {
    }
  }

  /** The loop of `extract_product_links`. */
  method ExtractProductLinks(html: string) returns (out: map<string, string>)
    ensures out == PageLinks(html)
  {
    var ls := Matches(html);
    out := map[];
    var i := 0;
    while i < |ls|
      invariant 0 <= i <= |ls|
      invariant out == Union(LinkMaps(ls[..i]))
      decreases |ls| - i
    {
      var l := ls[i];
      var url := LinkUrl(l);
      var next := out[l.item := url];
      if |l.item| < 5 && IsDigits(l.item) {
        next := next[ZFill(l.item, 5) := url];
      } else if |l.item| == 5 && LStripCh(l.item, '0') != "" {
        next := next[LStripCh(l.item, '0') := url];
      }
      LinkStep(out, l, next);
      assert LinkMaps(ls[..i + 1])[..i] == LinkMaps(ls[..i]);
      out := next;
      i := i + 1;
    }
    assert ls[..|ls|] == ls;
  }

  // ------------------------------------------------------------------
  // All pages

  /** A page's links, or nothing when its fetch fails (`fetch` stands for the request and its status check). */
  function FetchedLinks(fetch: string -> Option<string>, path: string): map<string, string>
  {
    match fetch(Base + path)
    case Some(html) => PageLinks(html)
    case None => map[]
  }

  function AllPageLinks(fetch: string -> Option<string>): (r: seq<map<string, string>>)
    ensures |r| == |Pages| && forall i :: 0 <= i < |Pages| ==> r[i] == FetchedLinks(fetch, Pages[i])
  {
    seq(|Pages|, i requires 0 <= i < |Pages| => FetchedLinks(fetch, Pages[i]))
  }

  /** `main`'s loop: `combined.update` with each page that could be fetched. */
  method BuildUrls(fetch: string -> Option<string>) returns (combined: map<string, string>)
    ensures combined == Union(AllPageLinks(fetch))
  {
    var all := AllPageLinks(fetch);
    combined := map[];
    var i := 0;
    while i < |Pages|
      invariant 0 <= i <= |Pages|
      invariant combined == Union(all[..i])
      decreases |Pages| - i
    {
      var links: map<string, string>;
      var html := fetch(Base + Pages[i]);
      if html.Some? {
        links := ExtractProductLinks(html.value);
      } else {
        links := map[];
      }
      assert all[..i + 1][..i] == all[..i];
      combined := combined + links;
      i := i + 1;
    }
    assert all[..|Pages|] == all;
  }

  /**
   * The saved cache holds only Bruder shop URLs, and a key takes the URL
   * of the last page whose links have it.
   */
  lemma CombinedSpec(fetch: string -> Option<string>, k: string)
    ensures forall v :: v in Union(AllPageLinks(fetch)).Values ==> StartsWith(v, Base + "/shop/en/")
    ensures var ps := AllPageLinks(fetch);
            forall i :: 0 <= i < |ps| && k in ps[i] && (forall j :: i < j < |ps| ==> k !in ps[j]) ==>
              k in Union(ps) && Union(ps)[k] == ps[i][k]
  {
    var ps := AllPageLinks(fetch);
    UnionSpec(ps, k);
    forall i, k' | 0 <= i < |ps| && k' in ps[i]
      ensures StartsWith(ps[i][k'], Base + "/shop/en/")
    {
      match fetch(Base + Pages[i])
      case Some(html) =>
        PageLinksValues(html);
        assert ps[i][k'] in PageLinks(html).Values;
      case None =>
    }
    UnionValues(ps, v => StartsWith(v, Base + "/shop/en/"));
  }
}
