/** A spreadsheet row as `csv.DictReader` yields it: column name to cell text. */
module Sheet {
  import opened Text
  import opened Wrappers

  type Row = map<string, string>

  /** A whole sheet: the reader's field names and its rows. */
  datatype Table = Table(fields: seq<string>, rows: seq<Row>)

  /** `row.get(col) or ""`: a missing column reads as the empty string. */
  function Cell(row: Row, col: string): string
  {
    if col in row then row[col] else ""
  }

  /** `(row.get(c1) or row.get(c2) or ... or "")`: the first non-empty cell. */
  function FirstFilled(row: Row, cols: seq<string>): (r: string)
    ensures r == "" <==> forall k :: 0 <= k < |cols| ==> Cell(row, cols[k]) == ""
    ensures r != "" ==> exists k :: 0 <= k < |cols| && r == Cell(row, cols[k])
                          && forall j :: 0 <= j < k ==> Cell(row, cols[j]) == ""
    decreases |cols|
  {
    if |cols| == 0 then ""
    else if Cell(row, cols[0]) != "" then Cell(row, cols[0])
    else
      var r := FirstFilled(row, cols[1..]);
      assert r != "" ==> exists k :: 1 <= k < |cols| && r == Cell(row, cols[k])
                           && forall j :: 0 <= j < k ==> Cell(row, cols[j]) == "" by {
        if r != "" {
          var k :| 0 <= k < |cols[1..]| && r == Cell(row, cols[1..][k])
                   && forall j :: 0 <= j < k ==> Cell(row, cols[1..][j]) == "";
          assert forall j :: 0 <= j < k + 1 ==> Cell(row, cols[j]) == "" by {
            forall j | 0 <= j < k + 1 ensures Cell(row, cols[j]) == "" {
              if j > 0 { assert cols[j] == cols[1..][j - 1]; }
            }
          }
        }
      }
      assert r == "" ==> forall k :: 0 <= k < |cols| ==> Cell(row, cols[k]) == "" by {
        if r == "" {
          forall k | 0 <= k < |cols| ensures Cell(row, cols[k]) == "" {
            if k > 0 { assert cols[k] == cols[1..][k - 1]; }
          }
        }
      }
      r
  }

  /**
   * The first column whose stripped cell has at least `n` characters,
   * stripped; "" when there is none.
   */
  function FirstStripped(row: Row, cols: seq<string>, n: nat): (r: string)
    requires n >= 1
    ensures r == "" || |r| >= n
    ensures r == "" <==> forall k :: 0 <= k < |cols| ==> |Strip(Cell(row, cols[k]))| < n
    ensures r != "" ==> exists k :: 0 <= k < |cols| && r == Strip(Cell(row, cols[k]))
                          && forall j :: 0 <= j < k ==> |Strip(Cell(row, cols[j]))| < n
    decreases |cols|
  {
    if |cols| == 0 then ""
    else if |Strip(Cell(row, cols[0]))| >= n then Strip(Cell(row, cols[0]))
    else
      var r := FirstStripped(row, cols[1..], n);
      assert r != "" ==> exists k :: 1 <= k < |cols| && r == Strip(Cell(row, cols[k]))
                           && forall j :: 0 <= j < k ==> |Strip(Cell(row, cols[j]))| < n by {
        if r != "" {
          var k :| 0 <= k < |cols[1..]| && r == Strip(Cell(row, cols[1..][k]))
                   && forall j :: 0 <= j < k ==> |Strip(Cell(row, cols[1..][j]))| < n;
          assert forall j :: 0 <= j < k + 1 ==> |Strip(Cell(row, cols[j]))| < n by {
            forall j | 0 <= j < k + 1 ensures |Strip(Cell(row, cols[j]))| < n {
              if j > 0 { assert cols[j] == cols[1..][j - 1]; }
            }
          }
        }
      }
      assert r == "" ==> forall k :: 0 <= k < |cols| ==> |Strip(Cell(row, cols[k]))| < n by {
        if r == "" {
          forall k | 0 <= k < |cols| ensures |Strip(Cell(row, cols[k]))| < n {
            if k > 0 { assert cols[k] == cols[1..][k - 1]; }
          }
        }
      }
      r
  }

  /** The value `f` gives the first row for which it gives one. */
  function FirstOf<T>(rows: seq<Row>, f: Row -> Option<T>): Option<T>
    decreases |rows|
  {
    if rows == [] then None
    else if f(rows[0]).Some? then f(rows[0])
    else FirstOf(rows[1..], f)
  }

  /** What `FirstOf` finds is the value of the row at the returned index, before which `f` gives nothing. */
  lemma {:induction false} FirstOfIsFirst<T>(rows: seq<Row>, f: Row -> Option<T>) returns (k: nat)
    requires FirstOf(rows, f).Some?
    ensures k < |rows| && FirstOf(rows, f) == f(rows[k])
    ensures forall j :: 0 <= j < k ==> f(rows[j]).None?
    decreases |rows|
  {
    if f(rows[0]).Some? {
      k := 0;
    } else {
      var k' := FirstOfIsFirst(rows[1..], f);
      assert forall j :: 1 <= j < k' + 1 ==> rows[j] == rows[1..][j - 1];
      k := k' + 1;
    }
  }

  /** Nothing is found exactly when `f` gives nothing for every row. */
  lemma {:induction false} FirstOfNone<T>(rows: seq<Row>, f: Row -> Option<T>)
    ensures FirstOf(rows, f).None? <==> forall j :: 0 <= j < |rows| ==> f(rows[j]).None?
    decreases |rows|
  {
    if rows != [] {
      FirstOfNone(rows[1..], f);
      assert forall j :: 1 <= j < |rows| ==> rows[j] == rows[1..][j - 1];
    }
  }

  /** The rows among `rows` that satisfy `p`. */
  function Count(rows: seq<Row>, p: Row -> bool): (n: nat)
    ensures n <= |rows|
    decreases |rows|
  {
    if rows == [] then 0 else Count(rows[..|rows| - 1], p) + (if p(rows[|rows| - 1]) then 1 else 0)
  }

  /** Every row counts exactly when the count is the number of rows, and none when it is 0. */
  lemma {:induction false} CountSpec(rows: seq<Row>, p: Row -> bool)
    ensures Count(rows, p) == |rows| <==> forall i :: 0 <= i < |rows| ==> p(rows[i])
    ensures Count(rows, p) == 0 <==> forall i :: 0 <= i < |rows| ==> !p(rows[i])
    decreases |rows|
  {
    if rows != [] {
      var n := |rows| - 1;
      CountSpec(rows[..n], p);
      assert forall i :: 0 <= i < n ==> rows[..n][i] == rows[i];
    }
  }

  /** A weaker test counts at least as many rows. */
  lemma {:induction false} CountMono(rows: seq<Row>, p: Row -> bool, q: Row -> bool)
    requires forall r :: p(r) ==> q(r)
    ensures Count(rows, p) <= Count(rows, q)
    decreases |rows|
  {
    if rows != [] {
      CountMono(rows[..|rows| - 1], p, q);
    }
  }
}
