/**
 * The extracted-CSV validator: a file is rightful when its rows carry more
 * than one distinct title, and a row has good data when its title,
 * description and image URL are all filled. The exit code is 0 exactly
 * when every file looked at is rightful.
 */
module ValidateExtracted {
  import opened Wrappers
  import opened Text
  import opened Sheet

  /** A cell, stripped; a missing cell reads as empty. */
  function Field(r: Row, col: string): string
  {
    Strip(Cell(r, col))
  }

  /** `has_good_data`: title, description and image URL all non-blank. */
  predicate HasGoodData(r: Row)
  {
    Field(r, "title") != "" && Field(r, "description") != "" && Field(r, "image_url") != ""
  }

  predicate HasTitle(r: Row) { Field(r, "title") != "" }
  predicate HasDescription(r: Row) { Field(r, "description") != "" }
  predicate HasImage(r: Row) { Field(r, "image_url") != "" }
  predicate HasDimensions(r: Row) { Field(r, "dimensions") != "" }

  /** The distinct non-empty stripped titles of a file. */
  function Titles(rows: seq<Row>): set<string>
  {
    set r | r in rows && HasTitle(r) :: Field(r, "title")
  }

  /** A file is rightful when it has more than one distinct title. */
  predicate Rightful(rows: seq<Row>)
  {
    |Titles(rows)| > 1
  }

  /** Every title in the set is the title of a row, and every row's non-empty title is in it. */
  lemma TitlesSpec(rows: seq<Row>)
    ensures forall t :: t in Titles(rows) <==> t != "" && exists i :: 0 <= i < |rows| && Field(rows[i], "title") == t
  {
    forall t | t != "" && exists i :: 0 <= i < |rows| && Field(rows[i], "title") == t
      ensures t in Titles(rows)
    {
      var i :| 0 <= i < |rows| && Field(rows[i], "title") == t;
      assert rows[i] in rows && HasTitle(rows[i]);
    }
  }

  /** A set with two elements has at least two. */
  lemma TwoMembers<T>(s: set<T>, a: T, b: T)
    requires a in s && b in s && a != b
    ensures |s| > 1
  {
    var t := s - {a};
    assert b in t;
    assert s == t + {a};
  }

  /** A set of more than one element holds something besides any given member. */
  lemma OtherMember<T>(s: set<T>, a: T) returns (b: T)
    requires a in s && |s| > 1
    ensures b in s && b != a
  {
    var t := s - {a};
    assert s == t + {a};
    assert t != {};
    b :| b in t;
  }

  /** A file is rightful exactly when two of its rows have different non-empty titles. */
  lemma RightfulSpec(rows: seq<Row>)
    ensures Rightful(rows) <==>
            exists i, j :: 0 <= i < |rows| && 0 <= j < |rows| && HasTitle(rows[i]) && HasTitle(rows[j])
                           && Field(rows[i], "title") != Field(rows[j], "title")
  {
    var s := Titles(rows);
    TitlesSpec(rows);
    if |s| > 1 {
      var a :| a in s;
      var b := OtherMember(s, a);
      var i :| 0 <= i < |rows| && Field(rows[i], "title") == a;
      var j :| 0 <= j < |rows| && Field(rows[j], "title") == b;
      assert HasTitle(rows[i]) && HasTitle(rows[j]);
    }
    if exists i, j :: 0 <= i < |rows| && 0 <= j < |rows| && HasTitle(rows[i]) && HasTitle(rows[j])
                      && Field(rows[i], "title") != Field(rows[j], "title") {
      var i, j :| 0 <= i < |rows| && 0 <= j < |rows| && HasTitle(rows[i]) && HasTitle(rows[j])
                  && Field(rows[i], "title") != Field(rows[j], "title");
      TwoMembers(s, Field(rows[i], "title"), Field(rows[j], "title"));
    }
  }

  /** An empty CSV, or one whose rows all share one title, is not rightful. */
  lemma SameTitleNotRightful(rows: seq<Row>, t: string)
    requires forall i :: 0 <= i < |rows| ==> !HasTitle(rows[i]) || Field(rows[i], "title") == t
    ensures !Rightful(rows)
  {
    RightfulSpec(rows);
  }

  /** The line printed for one file. */
  datatype Report = Report(rows: nat, unique: nat, rightful: bool,
                           title: nat, desc: nat, image: nat, dims: nat, good: nat)

  /** The counters of one file; an empty file has every count 0 and is not rightful. */
  function ReportOf(rows: seq<Row>): (rep: Report)
    ensures rep.rightful == Rightful(rows)
  {
    assert rows == [] ==> Titles(rows) == {};
    if rows == [] then Report(0, 0, false, 0, 0, 0, 0, 0)
    else Report(|rows|, |Titles(rows)|, Rightful(rows),
                Count(rows, HasTitle), Count(rows, HasDescription), Count(rows, HasImage),
                Count(rows, HasDimensions), Count(rows, HasGoodData))
  }

  /**
   * No more rows have good data than have any one of the three fields,
   * and none of those counts exceeds the rows; the report of an empty file
   * agrees with what the general case would give.
   */
  lemma ReportBounds(rows: seq<Row>)
    ensures var rep := ReportOf(rows);
            rep.good <= rep.title && rep.good <= rep.desc && rep.good <= rep.image
            && rep.title <= rep.rows && rep.desc <= rep.rows && rep.image <= rep.rows && rep.dims <= rep.rows
            && rep.rows == |rows| && rep.rightful == Rightful(rows) && rep.unique == |Titles(rows)|
            && rep.unique <= rep.title
  {
    CountMono(rows, HasGoodData, HasTitle);
    CountMono(rows, HasGoodData, HasDescription);
    CountMono(rows, HasGoodData, HasImage);
    if rows == [] {
      assert Titles(rows) == {};
    } else {
      TitlesCount(rows);
    }
  }

  /** There are no more distinct titles than rows with a title. */
  lemma {:induction false} TitlesCount(rows: seq<Row>)
    ensures |Titles(rows)| <= Count(rows, HasTitle)
    decreases |rows|
  {
    if rows != [] {
      var n := |rows| - 1;
      var p := rows[..n];
      TitlesCount(p);
      assert rows == p + [rows[n]];
      TitlesSnoc(p, rows[n]);
    }
  }

  /** One more row adds its title, when it has one, to the titles. */
  lemma TitlesSnoc(p: seq<Row>, last: Row)
    ensures Titles(p + [last]) == Titles(p) + (if HasTitle(last) then {Field(last, "title")} else {})
  {
    var rows := p + [last];
    forall t | t in Titles(rows)
      ensures t in Titles(p) + (if HasTitle(last) then {Field(last, "title")} else {})
    {
      var r :| r in rows && HasTitle(r) && Field(r, "title") == t;
      if r != last {
        assert r in p;
      }
    }
    forall t | t in Titles(p)
      ensures t in Titles(rows)
    {
      var r :| r in p && HasTitle(r) && Field(r, "title") == t;
      assert r in rows;
    }
    if HasTitle(last) {
      assert last in rows;
    }
  }

  /** Every row is counted for good data exactly when every row has title, description and image. */
  lemma AllGood(rows: seq<Row>)
    ensures Count(rows, HasGoodData) == |rows| <==> forall i :: 0 <= i < |rows| ==> HasGoodData(rows[i])
  {
    CountSpec(rows, HasGoodData);
  }

  /** The files looked at: those of the named site when one is given, else all. */
  function Chosen(files: seq<(string, Table)>, site: Option<string>): (r: seq<(string, Table)>)
    ensures site.Some? && site.value != "" ==> forall f :: f in r <==> f in files && f.0 == site.value
    ensures site.None? || site.value == "" ==> r == files
  {
    if site.Some? && site.value != "" then Select(files, (f: (string, Table)) => f.0 == site.value) else files
  }

  lemma AppendReport(chosen: seq<(string, Table)>, reports: seq<Report>, rep: Report)
    requires |reports| < |chosen| && rep == ReportOf(chosen[|reports|].1.rows)
    requires forall k :: 0 <= k < |reports| ==> reports[k] == ReportOf(chosen[k].1.rows)
    ensures forall k :: 0 <= k < |reports| + 1 ==> (reports + [rep])[k] == ReportOf(chosen[k].1.rows)
  {
  }

  /**
   * `main`: `hasDir` says whether the extracted folder exists and `files`
   * lists its CSVs as (stem, contents) in the order the loop visits them.
   * The exit code is 0 exactly when the folder exists, some file is looked
   * at, and every file looked at is rightful.
   */
  method Run(hasDir: bool, files: seq<(string, Table)>, site: Option<string>) returns (code: int, reports: seq<Report>)
    ensures code == 0 <==> hasDir && Chosen(files, site) != []
                            && forall k :: 0 <= k < |Chosen(files, site)| ==> Rightful(Chosen(files, site)[k].1.rows)
    ensures hasDir ==> |reports| == |Chosen(files, site)|
                       && forall k :: 0 <= k < |reports| ==> reports[k] == ReportOf(Chosen(files, site)[k].1.rows)
  {
    reports := [];
    if !hasDir {
      return 1, reports;
    }
    var chosen := Chosen(files, site);
    if chosen == [] {
      return 1, reports;
    }
    var allRightful := true;
    var i := 0;
    while i < |chosen|
      invariant 0 <= i <= |chosen|
      invariant allRightful <==> forall k :: 0 <= k < i ==> Rightful(chosen[k].1.rows)
      invariant |reports| == i && forall k :: 0 <= k < i ==> reports[k] == ReportOf(chosen[k].1.rows)
      decreases |chosen| - i
    {
      var rep := ReportOf(chosen[i].1.rows);
      if !rep.rightful {
        allRightful := false;
      }
      AppendReport(chosen, reports, rep);
      reports := reports + [rep];
      i := i + 1;
    }
    code := if allRightful then 0 else 1;
  }
}
