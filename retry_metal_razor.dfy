/**
 * The second retry of metal_earth and razor: metal_earth through its
 * autocomplete endpoint with up to four queries, razor through its
 * search with the name's significant words.
 */
module RetryMetalRazor {
  import opened Wrappers
  import opened Text
  import opened Matching
  import opened Retry

  const Filler: set<string> := {
    "the", "a", "an", "and", "or", "of", "for", "with", "by", "in", "to",
    "set", "kit", "pack", "ct", "metal", "earth", "model"}

  const RazorFiller: set<string> := {"the", "a", "and", "of", "for", "with", "razor"}

  const MetalBase: string := "https://www.metalearth.com"
  const RazorBase: string := "https://razor.com"

  /** `extract_keywords`: the significant words of the normalised name, else its first words. */
  function ExtractKeywords(name: string, max: nat): seq<string>
  {
    KeywordsOrWords(Words(Normalize(name)), Filler, max)
  }

  predicate NonEmpty(q: string)
  {
    q != ""
  }

  /**
   * The metal_earth query list for keywords `kw`: the name, the first two
   * keywords (the name again when there are fewer), the second and third,
   * the first, with the empty ones dropped; for non-empty keywords the
   * list is spelled out for each keyword count.
   */
  function MetalQueriesOf(name: string, kw: seq<string>): (r: seq<string>)
    ensures |r| <= 4
    ensures forall q :: q in r ==> q != ""
    ensures name != "" ==> |r| >= 1 && r[0] == name
    ensures name != "" && |kw| < 2 ==> |r| >= 2 && r[1] == name
  {
    var qs := [name,
               if |kw| >= 2 then Join(" ", kw[..2]) else name,
               if |kw| >= 3 then Join(" ", kw[1..3]) else "",
               if |kw| >= 1 then kw[0] else ""];
    var r := Select(qs, NonEmpty);
    assert qs[1..][1..] == qs[2..];
    assert name != "" ==> r == [name] + Select(qs[1..], NonEmpty);
    assert name != "" && |kw| < 2 ==> Select(qs[1..], NonEmpty) == [name] + Select(qs[2..], NonEmpty);
    r
  }

  /** For a name and non-empty keywords, the query list spelled out by the number of keywords. */
  lemma MetalQueriesSpec(name: string, kw: seq<string>)
    requires name != "" && (|kw| > 0 ==> kw[0] != "")
    ensures |kw| >= 3 ==> MetalQueriesOf(name, kw) == [name, kw[0] + " " + kw[1], kw[1] + " " + kw[2], kw[0]]
    ensures |kw| == 2 ==> MetalQueriesOf(name, kw) == [name, kw[0] + " " + kw[1], kw[0]]
    ensures |kw| == 1 ==> MetalQueriesOf(name, kw) == [name, name, kw[0]]
    ensures |kw| == 0 ==> MetalQueriesOf(name, kw) == [name, name]
  {
    var q1 := if |kw| >= 2 then Join(" ", kw[..2]) else name;
    var q2 := if |kw| >= 3 then Join(" ", kw[1..3]) else "";
    var q3 := if |kw| >= 1 then kw[0] else "";
    assert MetalQueriesOf(name, kw) == Select([name, q1, q2, q3], NonEmpty);
    SelectNonEmpty4(name, q1, q2, q3);
    if |kw| >= 2 {
      assert kw[..2] == [kw[0], kw[1]];
      JoinTwo(kw[0], kw[1]);
    }
    if |kw| >= 3 {
      assert kw[1..3] == [kw[1], kw[2]];
      JoinTwo(kw[1], kw[2]);
    }
  }

  lemma JoinTwo(a: string, b: string)
    ensures Join(" ", [a, b]) == a + " " + b
  {
    assert [a, b][1..] == [b];
  }

  /** Keeping the non-empty queries of a list of four. */
  lemma SelectNonEmpty4(a: string, b: string, c: string, d: string)
    ensures Select([a, b, c, d], NonEmpty)
            == (if a != "" then [a] else []) + ((if b != "" then [b] else [])
               + ((if c != "" then [c] else []) + (if d != "" then [d] else [])))
  {
    var qa, qb, qc, qd := (if a != "" then [a] else []), (if b != "" then [b] else []),
                          (if c != "" then [c] else []), (if d != "" then [d] else []);
    assert [d][1..] == [];
    assert Select([d], NonEmpty) == qd + Select([], NonEmpty);
    assert [c, d][1..] == [d];
    assert Select([c, d], NonEmpty) == qc + qd;
    assert [b, c, d][1..] == [c, d];
    assert Select([b, c, d], NonEmpty) == qb + (qc + qd);
    assert [a, b, c, d][1..] == [b, c, d];
    assert Select([a, b, c, d], NonEmpty) == qa + (qb + (qc + qd));
  }

  /** The metal_earth queries, from four keywords. */
  function MetalQueries(name: string): seq<string>
  {
    MetalQueriesOf(name, ExtractKeywords(name, 4))
  }

  /** The razor queries: the name, then the first two and the first of its significant words. */
  function RazorQueries(name: string): seq<string>
  {
    ShortQueries(name, SigWords(Words(Normalize(name)), RazorFiller))
  }

  /**
   * The razor queries after the name are made of the name's first one or
   * two significant words, none of them filler ("razor" included) or two
   * letters or fewer.
   */
  lemma RazorQueriesDropFiller(name: string, words: seq<string>)
    ensures var sig := SigWords(words, RazorFiller);
            var r := ShortQueries(name, sig);
            && (|r| >= 2 ==> sig[0] in words && sig[0] !in RazorFiller && |sig[0]| > 2 && r[|r| - 1] == sig[0])
            && (|r| == 3 ==> sig[1] in words && sig[1] !in RazorFiller && |sig[1]| > 2 && r[1] == sig[0] + " " + sig[1])
  {
    var sig := SigWords(words, RazorFiller);
    if |sig| >= 1 {
      assert sig[0] in sig;
    }
    if |sig| >= 2 {
      assert sig[1] in sig;
    }
  }

  function MetalAttempt(web: Web): (string, string) -> Option<Entry>
  {
    Completer(web, MetalBase)
  }

  function RazorAttempt(web: Web): (string, string) -> Option<Entry>
  {
    Searcher(web, ProductPath, ProductPath, PageExtractor())
  }

  /** The new rows of both sites are for sheet rows with a non-empty UPC that had no result. */
  lemma NewRowsOfEachSite(m: Site, r: Site)
    ensures forall e :: e in NewRows(m, MetalQueries, MetalAttempt(m.web)) ==> e.upc != "" && e.upc !in Done(m.existing)
    ensures forall e :: e in NewRows(r, RazorQueries, RazorAttempt(r.web)) ==> e.upc != "" && e.upc !in Done(r.existing)
  {
    CompleterKeepsUpc(m.web, MetalBase);
    PageExtractorKeepsUpc();
    SearcherKeepsUpc(r.web, ProductPath, ProductPath, PageExtractor());
    NewRowsAreMissing(m.rows, m.existing, MetalQueries, MetalAttempt(m.web));
    NewRowsAreMissing(r.rows, r.existing, RazorQueries, RazorAttempt(r.web));
  }

  /** `main`: metal_earth, then razor; the total is the sum of their new rows. */
  method Run(m: Site, r: Site) returns (files: seq<Option<seq<Entry>>>, total: nat)
    ensures |files| == 2
    ensures files[0] == (if Missing(m.rows, m.existing) == [] then None else Some(m.existing + NewRows(m, MetalQueries, MetalAttempt(m.web))))
    ensures files[1] == (if Missing(r.rows, r.existing) == [] then None else Some(r.existing + NewRows(r, RazorQueries, RazorAttempt(r.web))))
    ensures total == |NewRows(m, MetalQueries, MetalAttempt(m.web))| + |NewRows(r, RazorQueries, RazorAttempt(r.web))|
  {
    var w0, n0 := RetrySite(m.existing, m.rows, MetalQueries, MetalAttempt(m.web));
    var w1, n1 := RetrySite(r.existing, r.rows, RazorQueries, RazorAttempt(r.web));
    files := [w0, w1];
    total := n0 + n1;
  }
}
