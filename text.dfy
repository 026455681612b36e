/**
 * Python string operations over `seq<char>`, in the forms the scripts use.
 * Letters and digits are ASCII; whitespace is the set that Python's
 * `str.isspace` and the regex class `\s` accept.
 */
module Text {

  // ------------------------------------------------------------------
  // Character classes

  /** `str.isspace()` and the regex class `\s`. */
  predicate IsSpace(c: char)
  {
    c == ' ' || '\t' <= c <= '\r' || '\U{1C}' <= c <= '\U{1F}' || c == '\U{85}' || c == '\U{A0}'
    || c == '\U{1680}' || '\U{2000}' <= c <= '\U{200A}' || c == '\U{2028}' || c == '\U{2029}'
    || c == '\U{202F}' || c == '\U{205F}' || c == '\U{3000}'
  }

  predicate IsDigit(c: char) { '0' <= c <= '9' }
  predicate IsLowerAlpha(c: char) { 'a' <= c <= 'z' }
  predicate IsUpperAlpha(c: char) { 'A' <= c <= 'Z' }
  predicate NotUpper(c: char) { !IsUpperAlpha(c) }
  predicate IsAlnum(c: char) { IsDigit(c) || IsLowerAlpha(c) || IsUpperAlpha(c) }

  /** The regex class `\w`: letters, digits and underscore. */
  predicate IsWordChar(c: char) { IsAlnum(c) || c == '_' }

  /** The class `[a-z0-9 ]` that the name normalisers keep. */
  predicate IsNormChar(c: char) { IsLowerAlpha(c) || IsDigit(c) || c == ' ' }

  function LowerChar(c: char): char
  {
    if IsUpperAlpha(c) then (c as int + 32) as char else c
  }

  /** `str.lower()` */
  function Lower(s: string): string
  {
    seq(|s|, i requires 0 <= i < |s| => LowerChar(s[i]))
  }

  /** Every character of `s` satisfies `p`. */
  predicate All(s: string, p: char -> bool)
  {
    forall i :: 0 <= i < |s| ==> p(s[i])
  }

  /** A prefix of a string whose characters satisfy `p` satisfies `p`. */
  lemma AllTake(s: string, n: nat, p: char -> bool)
    requires All(s, p)
    ensures All(Take(s, n), p)
  {
    if n < |s| {
      assert forall i :: 0 <= i < n ==> s[..n][i] == s[i];
    }
  }

  /** No two neighbouring characters of `s` are both spaces. */
  predicate NoDoubleSpace(s: string)
  {
    forall i :: 0 < i < |s| ==> !(IsSpace(s[i - 1]) && IsSpace(s[i]))
  }

  /** `s` neither starts nor ends with whitespace. */
  predicate NoEdgeSpace(s: string)
  {
    |s| == 0 || (!IsSpace(s[0]) && !IsSpace(s[|s| - 1]))
  }

  /**
   * The shape every whitespace-normalising helper produces: no edge
   * whitespace, no two whitespace characters in a row, and the only
   * whitespace character is the plain space.
   */
  predicate SingleSpaced(s: string)
  {
    NoEdgeSpace(s) && NoDoubleSpace(s) && forall i :: 0 <= i < |s| && IsSpace(s[i]) ==> s[i] == ' '
  }

  // ------------------------------------------------------------------
  // Prefixes, suffixes and substrings

  /** `s.startswith(p)` */
  predicate StartsWith(s: string, p: string)
  {
    |p| <= |s| && s[..|p|] == p
  }

  /** `s.endswith(p)` */
  predicate EndsWith(s: string, p: string)
  {
    |p| <= |s| && s[|s| - |p|..] == p
  }

  /** `p in s` */
  predicate Contains(s: string, p: string)
    decreases |s|
  {
    StartsWith(s, p) || (|s| > 0 && Contains(s[1..], p))
  }

  /** `any(p in s for p in pats)` */
  predicate ContainsAny(s: string, pats: seq<string>)
  {
    exists i :: 0 <= i < |pats| && Contains(s, pats[i])
  }

  /** `a or b` on strings: `a` unless it is empty. */
  function OrElse(a: string, b: string): string
  {
    if a != "" then a else b
  }

  /** `s[:n]` for a non-negative `n`. */
  function Take<T>(s: seq<T>, n: nat): seq<T>
  {
    if n < |s| then s[..n] else s
  }

  /** `[x for x in xs if p(x)]` */
  function Select<T(!new)>(xs: seq<T>, p: T -> bool): (r: seq<T>)
    ensures |r| <= |xs|
    ensures forall x :: x in r <==> x in xs && p(x)
    decreases |xs|
  {
    if xs == [] then [] else (if p(xs[0]) then [xs[0]] else []) + Select(xs[1..], p)
  }

  /** `a` is `b` with some items left out, the others kept in order. */
  predicate IsSubseq<T(==)>(a: seq<T>, b: seq<T>)
    decreases |b|
  {
    a == [] || (b != [] && ((a[0] == b[0] && IsSubseq(a[1..], b[1..])) || IsSubseq(a, b[1..])))
  }

  lemma {:induction false} SubseqSelf<T>(a: seq<T>)
    ensures IsSubseq(a, a)
    decreases |a|
  {
    if a != [] {
      SubseqSelf(a[1..]);
    }
  }

  lemma {:induction false} SelectSubseq<T(!new)>(xs: seq<T>, p: T -> bool)
    ensures IsSubseq(Select(xs, p), xs)
    decreases |xs|
  {
    if xs != [] {
      SelectSubseq(xs[1..], p);
      var rest := Select(xs[1..], p);
      if p(xs[0]) {
        assert Select(xs, p) == [xs[0]] + rest;
        assert ([xs[0]] + rest)[1..] == rest;
      } else {
        assert Select(xs, p) == rest;
        if rest != [] {
          assert IsSubseq(rest, xs);
        }
      }
    }
  }

  // ------------------------------------------------------------------
  // Character-level rewriting

  /** Keeps the characters that satisfy `keep`, in order: `re.sub` of the others by "". */
  function Filter(s: string, keep: char -> bool): string
  {
    if s == [] then [] else (if keep(s[0]) then [s[0]] else []) + Filter(s[1..], keep)
  }

  /** Replaces every character by `f` of it. */
  function MapChars(s: string, f: char -> char): string
  {
    seq(|s|, i requires 0 <= i < |s| => f(s[i]))
  }

  /** Drops the leading characters that satisfy `p`. */
  function DropWhile(s: string, p: char -> bool): (r: string)
    ensures |r| <= |s| && r == s[|s| - |r|..]
    ensures |r| == 0 || !p(r[0])
    ensures |s| > 0 && p(s[0]) ==> |r| < |s|
    decreases |s|
  {
    if |s| > 0 && p(s[0]) then DropWhile(s[1..], p) else s
  }

  /** Replaces every maximal run of characters satisfying `p` by the single character `rep`. */
  function CollapseRuns(s: string, p: char -> bool, rep: char): string
    decreases |s|
  {
    if |s| == 0 then []
    else if p(s[0]) then [rep] + CollapseRuns(DropWhile(s, p), p, rep)
    else [s[0]] + CollapseRuns(s[1..], p, rep)
  }

  /** `s.replace(pat, rep)`: every occurrence, scanning left to right without overlaps. */
  function ReplaceAll(s: string, pat: string, rep: string): string
    requires |pat| > 0
    decreases |s|
  {
    if |s| < |pat| then s
    else if s[..|pat|] == pat then rep + ReplaceAll(s[|pat|..], pat, rep)
    else [s[0]] + ReplaceAll(s[1..], pat, rep)
  }

  // ------------------------------------------------------------------
  // Stripping

  function LStrip(s: string): string
    decreases |s|
  {
    if |s| > 0 && IsSpace(s[0]) then LStrip(s[1..]) else s
  }

  function RStrip(s: string): string
    decreases |s|
  {
    if |s| > 0 && IsSpace(s[|s| - 1]) then RStrip(s[..|s| - 1]) else s
  }

  /** `s.strip()` */
  function Strip(s: string): string
  {
    RStrip(LStrip(s))
  }

  /** `s.lstrip(c)` for one character. */
  function LStripCh(s: string, c: char): string
    decreases |s|
  {
    if |s| > 0 && s[0] == c then LStripCh(s[1..], c) else s
  }

  /** `s.rstrip(c)` for one character. */
  function RStripCh(s: string, c: char): string
    decreases |s|
  {
    if |s| > 0 && s[|s| - 1] == c then RStripCh(s[..|s| - 1], c) else s
  }

  /** `s.strip(c)` for one character. */
  function StripCh(s: string, c: char): string
  {
    RStripCh(LStripCh(s, c), c)
  }

  /** `re.sub(r"\s+", " ", s).strip()` */
  function SquashSpaces(s: string): string
  {
    Strip(CollapseRuns(s, IsSpace, ' '))
  }

  // ------------------------------------------------------------------
  // Splitting and joining

  /** The longest prefix of `s` holding no whitespace. */
  function TakeWord(s: string): (w: string)
    ensures |w| <= |s| && w == s[..|w|]
    ensures forall i :: 0 <= i < |w| ==> !IsSpace(w[i])
    ensures |w| == |s| || IsSpace(s[|w|])
    decreases |s|
  {
    if |s| == 0 || IsSpace(s[0]) then [] else [s[0]] + TakeWord(s[1..])
  }

  /** `s.split()`: the maximal runs of non-whitespace, in order. */
  function Words(s: string): seq<string>
    decreases |s|
  {
    if |s| == 0 then []
    else if IsSpace(s[0]) then Words(s[1..])
    else
      var w := TakeWord(s);
      [w] + Words(s[|w|..])
  }

  /** `sep.join(ws)` */
  function Join(sep: string, ws: seq<string>): string
    decreases |ws|
  {
    if |ws| == 0 then "" else if |ws| == 1 then ws[0] else ws[0] + sep + Join(sep, ws[1..])
  }

  /** `s.split(c)[0]`: everything before the first `c`. */
  function Before(s: string, c: char): string
    decreases |s|
  {
    if |s| == 0 || s[0] == c then [] else [s[0]] + Before(s[1..], c)
  }

  /** `s.split(c)[-1]`: everything after the last `c`. */
  function AfterLast(s: string, c: char): string
    decreases |s|
  {
    if |s| == 0 then []
    else if s[|s| - 1] == c then []
    else AfterLast(s[..|s| - 1], c) + [s[|s| - 1]]
  }

  /** `s.count(c)` for one character. */
  function CountCh(s: string, c: char): nat
    decreases |s|
  {
    if |s| == 0 then 0 else (if s[0] == c then 1 else 0) + CountCh(s[1..], c)
  }

  // ------------------------------------------------------------------
  // Digits

  /** `s.isdigit()` over ASCII digits. */
  predicate IsDigits(s: string)
  {
    |s| > 0 && All(s, IsDigit)
  }

  function Repeat(c: char, n: nat): string
    decreases n
  {
    if n == 0 then "" else [c] + Repeat(c, n - 1)
  }

  /** `s.zfill(n)` for a string without a sign. */
  function ZFill(s: string, n: nat): string
  {
    if |s| >= n then s else Repeat('0', n - |s|) + s
  }

  /** `str(int(s))` for a digit string: leading zeros dropped, "0" for all zeros. */
  function IntText(s: string): string
  {
    var t := LStripCh(s, '0');
    if t == "" then "0" else t
  }

  function DigitChar(d: nat): char
    requires d < 10
  {
    ('0' as int + d) as char
  }

  /** The value of a string of decimal digits, read from the left. */
  function DigitsValue(s: string): nat
    decreases |s|
  {
    if s == [] then 0
    else DigitsValue(s[..|s| - 1]) * 10 + (if IsDigit(s[|s| - 1]) then s[|s| - 1] as int - '0' as int else 0)
  }

  /** `str(n)` for a non-negative integer: decimal digits without a leading zero that read back as `n`. */
  function NatText(n: nat): (r: string)
    ensures IsDigits(r)
    ensures |r| > 1 ==> r[0] != '0'
    ensures DigitsValue(r) == n
    decreases n
  {
    if n < 10 then [DigitChar(n)]
    else
      var r := NatText(n / 10) + [DigitChar(n % 10)];
      assert r[..|r| - 1] == NatText(n / 10);
      r
  }

  // ------------------------------------------------------------------
  // Lemmas

  lemma {:induction false} LStripShape(s: string)
    ensures |LStrip(s)| <= |s| && LStrip(s) == s[|s| - |LStrip(s)|..]
    ensures |LStrip(s)| == 0 || !IsSpace(LStrip(s)[0])
    ensures forall i :: 0 <= i < |s| - |LStrip(s)| ==> IsSpace(s[i])
    decreases |s|
  {
    if |s| > 0 && IsSpace(s[0]) {
      LStripShape(s[1..]);
    }
  }

  lemma {:induction false} RStripShape(s: string)
    ensures |RStrip(s)| <= |s| && RStrip(s) == s[..|RStrip(s)|]
    ensures |RStrip(s)| == 0 || !IsSpace(RStrip(s)[|RStrip(s)| - 1])
    ensures forall i :: |RStrip(s)| <= i < |s| ==> IsSpace(s[i])
    decreases |s|
  {
    if |s| > 0 && IsSpace(s[|s| - 1]) {
      RStripShape(s[..|s| - 1]);
    }
  }

  /** RStrip never reintroduces a leading space. */
  lemma {:induction false} RStripKeepsHead(s: string)
    requires |s| == 0 || !IsSpace(s[0])
    ensures |RStrip(s)| == 0 || !IsSpace(RStrip(s)[0])
  {
    RStripShape(s);
  }

  /**
   * `strip()` removes exactly the edge whitespace: the result is a slice
   * `s[a..b]` with whitespace outside it and no whitespace on its edges.
   */
  lemma StripSlice(s: string) returns (a: nat, b: nat)
    ensures a <= b <= |s| && Strip(s) == s[a..b]
    ensures forall i :: 0 <= i < a ==> IsSpace(s[i])
    ensures forall i :: b <= i < |s| ==> IsSpace(s[i])
    ensures NoEdgeSpace(Strip(s))
  {
    var l := LStrip(s);
    LStripShape(s);
    RStripShape(l);
    RStripKeepsHead(l);
    var r := RStrip(l);
    a := |s| - |l|;
    b := a + |r|;
    SliceOfSuffix(s, a, l, r);
    forall i | b <= i < |s| ensures IsSpace(s[i]) {
      assert s[i] == l[i - a];
    }
  }

  /** A prefix `r` of the suffix `s[a..]` is the slice `s[a..a + |r|]`. */
  lemma SliceOfSuffix(s: string, a: nat, l: string, r: string)
    requires a <= |s| && l == s[a..] && |r| <= |l| && r == l[..|r|]
    ensures r == s[a..a + |r|]
    ensures forall i :: a + |r| <= i < |s| ==> s[i] == l[i - a]
  {
  }

  /** `strip()` leaves no whitespace on either edge. */
  lemma StripNoEdge(s: string)
    ensures NoEdgeSpace(Strip(s))
  {
    var a, b := StripSlice(s);
  }

  /** `strip()` twice is `strip()` once. */
  lemma {:induction false} StripIdempotent(s: string)
    ensures Strip(Strip(s)) == Strip(s)
  {
    var a, b := StripSlice(s);
    StripOfNoEdge(Strip(s));
  }

  /** A string without edge whitespace is its own `strip()`. */
  lemma StripOfNoEdge(s: string)
    requires NoEdgeSpace(s)
    ensures Strip(s) == s
  {
  }

  /** Stripping keeps only characters of the input, so any property of all characters survives. */
  lemma StripAll(s: string, p: char -> bool)
    requires All(s, p)
    ensures All(Strip(s), p)
  {
    var a, b := StripSlice(s);
    assert forall i :: 0 <= i < |Strip(s)| ==> Strip(s)[i] == s[a + i];
  }

  lemma StripNoDouble(s: string)
    requires NoDoubleSpace(s)
    ensures NoDoubleSpace(Strip(s))
  {
    var a, b := StripSlice(s);
    assert forall i :: 0 <= i < |Strip(s)| ==> Strip(s)[i] == s[a + i];
  }

  lemma {:induction false} FilterAll(s: string, keep: char -> bool)
    ensures All(Filter(s, keep), keep)
    ensures |Filter(s, keep)| <= |s|
    decreases |s|
  {
    if s != [] {
      FilterAll(s[1..], keep);
    }
  }

  /** Filtering only drops characters: it is the identity when every character is kept. */
  lemma {:induction false} FilterKeepsAll(s: string, keep: char -> bool)
    requires All(s, keep)
    ensures Filter(s, keep) == s
    decreases |s|
  {
    if s != [] {
      FilterKeepsAll(s[1..], keep);
    }
  }

  lemma {:induction false} FilterAppend(s: string, t: string, keep: char -> bool)
    ensures Filter(s + t, keep) == Filter(s, keep) + Filter(t, keep)
    decreases |s|
  {
    if s == [] {
      assert s + t == t;
    } else {
      assert (s + t)[0] == s[0];
      assert (s + t)[1..] == s[1..] + t;
      FilterAppend(s[1..], t, keep);
      var h := if keep(s[0]) then [s[0]] else [];
      assert Filter(s + t, keep) == h + Filter(s[1..] + t, keep);
      assert Filter(s, keep) == h + Filter(s[1..], keep);
    }
  }

  /** `DropWhile` removes only characters satisfying `p`. */
  lemma {:induction false} DropWhileDrops(s: string, p: char -> bool)
    ensures forall i :: 0 <= i < |s| - |DropWhile(s, p)| ==> p(s[i])
    decreases |s|
  {
    if |s| > 0 && p(s[0]) {
      DropWhileDrops(s[1..], p);
    }
  }

  lemma {:induction false} CollapseRunsHead(s: string, p: char -> bool, rep: char)
    ensures |CollapseRuns(s, p, rep)| <= |s|
    ensures |s| > 0 ==> |CollapseRuns(s, p, rep)| > 0 && CollapseRuns(s, p, rep)[0] == if p(s[0]) then rep else s[0]
    decreases |s|
  {
    if |s| == 0 {
    } else if p(s[0]) {
      CollapseRunsHead(DropWhile(s, p), p, rep);
    } else {
      CollapseRunsHead(s[1..], p, rep);
    }
  }

  /** After collapsing, no two neighbouring characters are of class `p`, and each one that is equals `rep`. */
  lemma {:induction false} CollapseRunsShape(s: string, p: char -> bool, rep: char)
    requires p(rep)
    ensures forall i :: 0 < i < |CollapseRuns(s, p, rep)| ==>
              !(p(CollapseRuns(s, p, rep)[i - 1]) && p(CollapseRuns(s, p, rep)[i]))
    ensures forall i :: 0 <= i < |CollapseRuns(s, p, rep)| && p(CollapseRuns(s, p, rep)[i]) ==>
              CollapseRuns(s, p, rep)[i] == rep
    decreases |s|
  {
    if |s| == 0 {
    } else if p(s[0]) {
      var d := DropWhile(s, p);
      CollapseRunsShape(d, p, rep);
      CollapseRunsHead(d, p, rep);
      var r := CollapseRuns(d, p, rep);
      assert CollapseRuns(s, p, rep) == [rep] + r;
      assert |r| > 0 ==> !p(r[0]);
    } else {
      CollapseRunsShape(s[1..], p, rep);
      var r := CollapseRuns(s[1..], p, rep);
      assert CollapseRuns(s, p, rep) == [s[0]] + r;
    }
  }

  /** Collapsing keeps every property that holds of all input characters and of `rep`. */
  lemma {:induction false} CollapseRunsAll(s: string, p: char -> bool, rep: char, q: char -> bool)
    requires All(s, q) && q(rep)
    ensures All(CollapseRuns(s, p, rep), q)
    decreases |s|
  {
    if |s| == 0 {
    } else if p(s[0]) {
      var d := DropWhile(s, p);
      assert All(d, q) by {
        forall i | 0 <= i < |d| ensures q(d[i]) { assert d[i] == s[|s| - |d| + i]; }
      }
      CollapseRunsAll(d, p, rep, q);
    } else {
      assert All(s[1..], q) by {
        forall i | 0 <= i < |s[1..]| ensures q(s[1..][i]) { assert s[1..][i] == s[i + 1]; }
      }
      CollapseRunsAll(s[1..], p, rep, q);
    }
  }

  /** Collapsing changes nothing when no two characters of class `p` are neighbours and `rep` is the only one. */
  lemma {:induction false} CollapseRunsIdle(s: string, p: char -> bool, rep: char)
    requires forall i :: 0 < i < |s| ==> !(p(s[i - 1]) && p(s[i]))
    requires forall i :: 0 <= i < |s| && p(s[i]) ==> s[i] == rep
    ensures CollapseRuns(s, p, rep) == s
    decreases |s|
  {
    if |s| > 0 {
      var t := s[1..];
      IdleTail(s, p, rep);
      CollapseRunsIdle(t, p, rep);
      assert s == [s[0]] + t;
      if p(s[0]) {
        assert |t| == 0 || !p(t[0]) by {
          if |t| > 0 { assert t[0] == s[1]; }
        }
        assert DropWhile(s, p) == t;
        assert CollapseRuns(s, p, rep) == [rep] + CollapseRuns(t, p, rep);
      } else {
        assert CollapseRuns(s, p, rep) == [s[0]] + CollapseRuns(t, p, rep);
      }
    }
  }

  /** What `CollapseRunsIdle` asks of a string holds of its tail. */
  lemma IdleTail(s: string, p: char -> bool, rep: char)
    requires |s| > 0
    requires forall i :: 0 < i < |s| ==> !(p(s[i - 1]) && p(s[i]))
    requires forall i :: 0 <= i < |s| && p(s[i]) ==> s[i] == rep
    ensures forall i :: 0 < i < |s[1..]| ==> !(p(s[1..][i - 1]) && p(s[1..][i]))
    ensures forall i :: 0 <= i < |s[1..]| && p(s[1..][i]) ==> s[1..][i] == rep
  {
    var t := s[1..];
    forall i | 0 < i < |t|
      ensures !(p(t[i - 1]) && p(t[i]))
    {
      assert t[i - 1] == s[i] && t[i] == s[i + 1];
    }
    forall i | 0 <= i < |t| && p(t[i])
      ensures t[i] == rep
    {
      assert t[i] == s[i + 1];
    }
  }

  /** Both facts about a word the splitter produces. */
  predicate IsWord(w: string)
  {
    |w| > 0 && forall i :: 0 <= i < |w| ==> !IsSpace(w[i])
  }

  lemma {:induction false} WordsAreWords(s: string)
    ensures forall k :: 0 <= k < |Words(s)| ==> IsWord(Words(s)[k])
    decreases |s|
  {
    if |s| == 0 {
    } else if IsSpace(s[0]) {
      WordsAreWords(s[1..]);
    } else {
      var w := TakeWord(s);
      WordsAreWords(s[|w|..]);
    }
  }

  lemma TakeWordOfWord(w: string, t: string)
    requires IsWord(w)
    requires |t| == 0 || IsSpace(t[0])
    ensures TakeWord(w + t) == w
    decreases |w|
  {
    if |w| > 1 {
      assert (w + t)[1..] == w[1..] + t;
      TakeWordOfWord(w[1..], t);
    }
  }

  /** Splitting a space-joined list of words gives the words back. */
  lemma {:induction false} WordsOfJoin(ws: seq<string>)
    requires forall k :: 0 <= k < |ws| ==> IsWord(ws[k])
    ensures Words(Join(" ", ws)) == ws
    decreases |ws|
  {
    if |ws| == 0 {
    } else if |ws| == 1 {
      TakeWordOfWord(ws[0], "");
      assert ws[0] + "" == ws[0];
      assert ws[0][|ws[0]|..] == "";
    } else {
      var rest := Join(" ", ws[1..]);
      var s := ws[0] + " " + rest;
      assert s == ws[0] + (" " + rest);
      TakeWordOfWord(ws[0], " " + rest);
      assert s[|ws[0]|..] == " " + rest;
      assert Words(" " + rest) == Words(rest) by {
        assert (" " + rest)[1..] == rest;
      }
      WordsOfJoin(ws[1..]);
    }
  }

  /** Joining words with single spaces yields a single-spaced string. */
  lemma {:induction false} JoinWordsSingleSpaced(ws: seq<string>)
    requires forall k :: 0 <= k < |ws| ==> IsWord(ws[k])
    ensures SingleSpaced(Join(" ", ws))
    ensures |ws| > 0 ==> StartsWith(Join(" ", ws), ws[0])
    decreases |ws|
  {
    if |ws| > 1 {
      JoinWordsSingleSpaced(ws[1..]);
      var w := ws[0];
      var rest := Join(" ", ws[1..]);
      var s := w + " " + rest;
      assert |rest| > 0 && !IsSpace(rest[0]) by {
        assert rest[..|ws[1]|] == ws[1];
        assert rest[0] == ws[1][0];
      }
      assert forall i :: 0 <= i < |s| ==> s[i] == if i < |w| then w[i] else if i == |w| then ' ' else rest[i - |w| - 1];
      assert s[..|w|] == w;
    }
  }

  /** `" ".join(s.split())` is single-spaced and a fixed point of itself. */
  lemma NormWsProperties(s: string)
    ensures SingleSpaced(Join(" ", Words(s)))
    ensures Words(Join(" ", Words(s))) == Words(s)
  {
    WordsAreWords(s);
    JoinWordsSingleSpaced(Words(s));
    WordsOfJoin(Words(s));
  }

  lemma {:induction false} ReplaceAllAbsent(s: string, pat: string, rep: string)
    requires |pat| > 0
    requires !Contains(s, pat)
    ensures ReplaceAll(s, pat, rep) == s
    decreases |s|
  {
    if |s| >= |pat| {
      assert !StartsWith(s, pat);
      ReplaceAllAbsent(s[1..], pat, rep);
    }
  }

  lemma {:induction false} ContainsTake(s: string, p: string, n: nat)
    requires Contains(Take(s, n), p)
    ensures Contains(s, p)
    decreases |s|
  {
    if n < |s| {
      var t := s[..n];
      if StartsWith(t, p) {
        assert s[..|p|] == t[..|p|];
      } else {
        assert |t| > 0 && Contains(t[1..], p);
        assert t[1..] == Take(s[1..], n - 1);
        ContainsTake(s[1..], p, n - 1);
      }
    }
  }

  /** `p in s` holds as soon as `p` occurs at some position. */
  lemma {:induction false} ContainsAt(s: string, p: string, i: nat)
    requires i + |p| <= |s| && s[i..i + |p|] == p
    ensures Contains(s, p)
    decreases i
  {
    if i > 0 {
      assert s[1..][i - 1..i - 1 + |p|] == s[i..i + |p|];
      ContainsAt(s[1..], p, i - 1);
    }
  }

  /** An occurrence has a position. */
  lemma {:induction false} ContainsIndex(s: string, p: string) returns (i: nat)
    requires Contains(s, p)
    ensures i + |p| <= |s| && s[i..i + |p|] == p
    decreases |s|
  {
    if StartsWith(s, p) {
      i := 0;
    } else {
      var j := ContainsIndex(s[1..], p);
      assert s[1..][j..j + |p|] == s[j + 1..j + 1 + |p|];
      i := j + 1;
    }
  }

  /** A string shorter than `p` does not contain it. */
  lemma {:induction false} ContainsShortNot(s: string, p: string)
    requires |s| < |p|
    ensures !Contains(s, p)
    decreases |s|
  {
    if |s| > 0 {
      ContainsShortNot(s[1..], p);
    }
  }

  /** Characters `p` does not use, put in front, create no occurrence of `p`. */
  lemma {:induction false} ContainsPrefixForeign(a: string, b: string, p: string)
    requires |p| > 0 && forall c :: c in a ==> c !in p
    requires !Contains(b, p)
    ensures !Contains(a + b, p)
    decreases |a|
  {
    if |a| == 0 {
      assert a + b == b;
    } else {
      assert (a + b)[0] == a[0] && p[0] in p;
      assert (a + b)[1..] == a[1..] + b;
      ContainsPrefixForeign(a[1..], b, p);
    }
  }

  /** Every character of the output is one of the input or of the replacement. */
  lemma {:induction false} ReplaceAllChars(s: string, pat: string, rep: string)
    requires |pat| > 0
    ensures forall c :: c in ReplaceAll(s, pat, rep) ==> c in s || c in rep
    decreases |s|
  {
    if |s| >= |pat| {
      if s[..|pat|] == pat {
        ReplaceAllChars(s[|pat|..], pat, rep);
        assert forall c :: c in s[|pat|..] ==> c in s;
      } else {
        ReplaceAllChars(s[1..], pat, rep);
        assert forall c :: c in s[1..] ==> c in s;
      }
    }
  }

  /**
   * A prefix without characters of a non-empty replacement that the output
   * does not start with was not at the input's start either.
   */
  lemma {:induction false} ReplaceAllPrefix(t: string, pat: string, rep: string, q: string)
    requires |pat| > 0 && rep != "" && forall c :: c in q ==> c !in rep
    ensures !StartsWith(t, q) ==> !StartsWith(ReplaceAll(t, pat, rep), q)
    decreases |q|
  {
    var o := ReplaceAll(t, pat, rep);
    if |q| > 0 && |t| >= |pat| {
      if t[..|pat|] == pat {
        assert o[0] == rep[0] && rep[0] in rep && q[0] in q;
      } else {
        var r := ReplaceAll(t[1..], pat, rep);
        assert o == [t[0]] + r;
        ReplaceAllPrefix(t[1..], pat, rep, q[1..]);
        if t[0] == q[0] {
          assert |q| <= |t| ==> t[..|q|] == [t[0]] + t[1..][..|q| - 1];
          assert |q| <= |o| ==> o[..|q|] == [t[0]] + r[..|q| - 1];
        }
      }
    }
  }

  /** A replacement without characters of `pat` leaves no occurrence of `pat`. */
  lemma {:induction false} ReplaceAllClears(s: string, pat: string, rep: string)
    requires |pat| > 1 && rep != "" && forall c :: c in rep ==> c !in pat
    ensures !Contains(ReplaceAll(s, pat, rep), pat)
    decreases |s|
  {
    if |s| < |pat| {
      ContainsShortNot(s, pat);
    } else if s[..|pat|] == pat {
      ReplaceAllClears(s[|pat|..], pat, rep);
      ContainsPrefixForeign(rep, ReplaceAll(s[|pat|..], pat, rep), pat);
    } else {
      var r := ReplaceAll(s[1..], pat, rep);
      ReplaceAllClears(s[1..], pat, rep);
      ReplaceAllPrefix(s[1..], pat, rep, pat[1..]);
      var o := [s[0]] + r;
      assert o[1..] == r;
      if s[0] == pat[0] {
        assert s[..|pat|] == [s[0]] + s[1..][..|pat| - 1];
        assert !StartsWith(s[1..], pat[1..]);
        if |pat| <= |o| {
          ConsPrefix(s[0], r, |pat|);
        }
      }
    }
  }

  /** A prefix of `[x] + r` of length `n > 0` is `x` and a prefix of `r`. */
  lemma ConsPrefix(x: char, r: string, n: nat)
    requires 1 <= n <= |r| + 1
    ensures ([x] + r)[..n] == [x] + r[..n - 1]
  {
  }

  /** A replacement without characters of `q` brings in no occurrence of `q`. */
  lemma {:induction false} ReplaceAllKeeps(s: string, pat: string, rep: string, q: string)
    requires |pat| > 0 && rep != "" && |q| > 1 && forall c :: c in rep ==> c !in q
    requires !Contains(s, q)
    ensures !Contains(ReplaceAll(s, pat, rep), q)
    decreases |s|
  {
    if |s| >= |pat| {
      if s[..|pat|] == pat {
        NotContainsDrop(s, q, |pat|);
        ReplaceAllKeeps(s[|pat|..], pat, rep, q);
        ContainsPrefixForeign(rep, ReplaceAll(s[|pat|..], pat, rep), q);
      } else {
        var r := ReplaceAll(s[1..], pat, rep);
        ReplaceAllKeeps(s[1..], pat, rep, q);
        ReplaceAllPrefix(s[1..], pat, rep, q[1..]);
        var o := [s[0]] + r;
        assert o[1..] == r;
        if s[0] == q[0] {
          assert |q| <= |s| ==> s[..|q|] == [s[0]] + s[1..][..|q| - 1];
          assert !StartsWith(s[1..], q[1..]);
          assert |q| <= |o| ==> o[..|q|] == [s[0]] + r[..|q| - 1];
        }
      }
    }
  }

  /** A string that does not contain `q` has no suffix that does. */
  lemma {:induction false} NotContainsDrop(s: string, q: string, k: nat)
    requires k <= |s| && !Contains(s, q)
    ensures !Contains(s[k..], q)
    decreases k
  {
    if k > 0 {
      NotContainsDrop(s[1..], q, k - 1);
      assert s[1..][k - 1..] == s[k..];
    }
  }

  /** Stripping brings in no occurrence. */
  lemma StripKeeps(t: string, q: string)
    ensures Contains(Strip(t), q) ==> Contains(t, q)
  {
    var a, b := StripSlice(t);
    if Contains(Strip(t), q) {
      var i := ContainsIndex(Strip(t), q);
      var u := t[a..b];
      forall k | 0 <= k < |q|
        ensures t[a + i..a + i + |q|][k] == q[k]
      {
        assert u[i..i + |q|][k] == u[i + k] == t[a + i + k];
      }
      assert t[a + i..a + i + |q|] == q;
      ContainsAt(t, q, a + i);
    }
  }

  lemma {:induction false} LowerOfNorm(s: string)
    requires All(s, IsNormChar)
    ensures Lower(s) == s
  {
  }

  lemma StripIsIdentity(s: string)
    requires SingleSpaced(s)
    ensures Strip(s) == s
  {
    StripOfNoEdge(s);
  }

  /** Squashing whitespace yields a single-spaced string. */
  lemma SquashSpacesShape(s: string)
    ensures SingleSpaced(SquashSpaces(s))
  {
    var c := CollapseRuns(s, IsSpace, ' ');
    CollapseRunsShape(s, IsSpace, ' ');
    StripNoDouble(c);
    var a, b := StripSlice(c);
    assert forall i :: 0 <= i < |Strip(c)| ==> Strip(c)[i] == c[a + i];
  }

  /** A single-spaced string is its own squashed form. */
  lemma SquashSpacesIdle(s: string)
    requires SingleSpaced(s)
    ensures SquashSpaces(s) == s
  {
    CollapseRunsIdle(s, IsSpace, ' ');
    StripIsIdentity(s);
  }

  /** Collapsing leaves only `rep` and characters of `s` outside class `p`, so a property they all have survives. */
  lemma {:induction false} CollapseRunsReplaces(s: string, p: char -> bool, rep: char, q: char -> bool)
    requires forall i :: 0 <= i < |s| && !p(s[i]) ==> q(s[i])
    requires q(rep)
    ensures All(CollapseRuns(s, p, rep), q)
    decreases |s|
  {
    if |s| == 0 {
    } else if p(s[0]) {
      var d := DropWhile(s, p);
      assert forall i :: 0 <= i < |d| ==> d[i] == s[|s| - |d| + i];
      CollapseRunsReplaces(d, p, rep, q);
    } else {
      assert forall i :: 0 <= i < |s[1..]| ==> s[1..][i] == s[i + 1];
      CollapseRunsReplaces(s[1..], p, rep, q);
    }
  }

  /** Collapsing never turns a non-empty string into an empty one. */
  lemma CollapseRunsEmpty(s: string, p: char -> bool, rep: char)
    ensures CollapseRuns(s, p, rep) == [] <==> s == []
  {
    CollapseRunsHead(s, p, rep);
  }

  /** A match inside a shorter prefix is a match inside a longer one. */
  lemma ContainsMono(s: string, p: string, m: nat, n: nat)
    requires m <= n && Contains(Take(s, m), p)
    ensures Contains(Take(s, n), p)
  {
    assert Take(Take(s, n), m) == Take(s, m);
    ContainsTake(Take(s, n), p, m);
  }

  /** Lower-casing both sides keeps a match. */
  lemma {:induction false} ContainsLower(s: string, p: string)
    requires Contains(s, p)
    ensures Contains(Lower(s), Lower(p))
    decreases |s|
  {
    if StartsWith(s, p) {
      assert Lower(s)[..|p|] == Lower(p);
    } else {
      assert Lower(s)[1..] == Lower(s[1..]);
      ContainsLower(s[1..], p);
    }
  }

  /** A string without the first character of `p` cannot contain `p`. */
  lemma {:induction false} ContainsNeedsHead(s: string, p: string)
    requires |p| > 0 && forall i :: 0 <= i < |s| ==> s[i] != p[0]
    ensures !Contains(s, p)
    decreases |s|
  {
    if |s| > 0 {
      assert |p| <= |s| ==> s[..|p|][0] == s[0];
      ContainsNeedsHead(s[1..], p);
    }
  }

  /** A stretch holding no first character of the pattern is copied through unchanged. */
  lemma {:induction false} ReplaceAllSkip(s: string, t: string, pat: string, rep: string)
    requires |pat| > 0 && forall i :: 0 <= i < |s| ==> s[i] != pat[0]
    ensures ReplaceAll(s + t, pat, rep) == s + ReplaceAll(t, pat, rep)
    decreases |s|
  {
    var u := s + t;
    if |s| == 0 {
      assert u == t;
    } else if |u| < |pat| {
      ReplaceAllShort(u, pat, rep);
      ReplaceAllShort(t, pat, rep);
    } else {
      assert u[..|pat|] != pat by { assert u[..|pat|][0] == s[0]; }
      ReplaceAllStep(u, pat, rep);
      assert u[0] == s[0] && u[1..] == s[1..] + t;
      ReplaceAllSkip(s[1..], t, pat, rep);
      ConsAppend(s, ReplaceAll(t, pat, rep));
    }
  }

  /** Without a match at the start, the first character is copied. */
  lemma ReplaceAllStep(u: string, pat: string, rep: string)
    requires 0 < |pat| <= |u| && u[..|pat|] != pat
    ensures ReplaceAll(u, pat, rep) == [u[0]] + ReplaceAll(u[1..], pat, rep)
  {
  }

  lemma ConsAppend(s: string, r: string)
    requires |s| > 0
    ensures [s[0]] + (s[1..] + r) == s + r
  {
    assert s == [s[0]] + s[1..];
  }

  /** A text shorter than the pattern is left alone. */
  lemma ReplaceAllShort(s: string, pat: string, rep: string)
    requires 0 < |pat| && |s| < |pat|
    ensures ReplaceAll(s, pat, rep) == s
  {
  }

  /** An occurrence of the pattern at the start is replaced. */
  lemma ReplaceAllHead(t: string, pat: string, rep: string)
    requires |pat| > 0
    ensures ReplaceAll(pat + t, pat, rep) == rep + ReplaceAll(t, pat, rep)
  {
    assert (pat + t)[..|pat|] == pat;
    assert (pat + t)[|pat|..] == t;
  }

  /**
   * A different placeholder `q` (neither a prefix of the other) whose
   * later characters never start the pattern is copied through.
   */
  lemma ReplaceAllMiss(q: string, t: string, pat: string, rep: string)
    requires |pat| > 0 && |q| > 0 && !StartsWith(q, pat) && !StartsWith(pat, q)
    requires forall i :: 1 <= i < |q| ==> q[i] != pat[0]
    ensures ReplaceAll(q + t, pat, rep) == q + ReplaceAll(t, pat, rep)
  {
    var u := q + t;
    if |u| < |pat| {
      ReplaceAllShort(u, pat, rep);
      ReplaceAllShort(t, pat, rep);
    } else {
      HeadMismatch(q, t, pat);
      ReplaceAllStep(u, pat, rep);
      assert u[0] == q[0] && u[1..] == q[1..] + t;
      ReplaceAllSkip(q[1..], t, pat, rep);
      ConsAppend(q, ReplaceAll(t, pat, rep));
    }
  }

  /** Two strings neither of which starts the other: `q + t` does not start with `pat`. */
  lemma HeadMismatch(q: string, t: string, pat: string)
    requires |pat| > 0 && |q| > 0 && !StartsWith(q, pat) && !StartsWith(pat, q) && |pat| <= |q + t|
    ensures (q + t)[..|pat|] != pat
  {
    var u := q + t;
    if |pat| <= |q| {
      assert u[..|pat|] == q[..|pat|];
    } else {
      assert u[..|pat|][..|q|] == q;
      assert pat[..|q|] != q;
    }
  }

  /** Replacing in a string that is exactly the pattern gives the replacement. */
  lemma ReplaceAllWhole(pat: string, rep: string)
    requires |pat| > 0
    ensures ReplaceAll(pat, pat, rep) == rep
  {
    assert pat[|pat|..] == "";
    assert rep + "" == rep;
  }

  /** `Before` returns a prefix without `c`, ending at the first `c` when there is one. */
  lemma {:induction false} BeforeDrops(s: string, c: char)
    ensures |Before(s, c)| <= |s| && Before(s, c) == s[..|Before(s, c)|]
    ensures forall i :: 0 <= i < |Before(s, c)| ==> Before(s, c)[i] != c
    ensures |Before(s, c)| < |s| ==> s[|Before(s, c)|] == c
    decreases |s|
  {
    if |s| > 0 && s[0] != c {
      BeforeDrops(s[1..], c);
    }
  }

  /** `rstrip` returns a prefix. */
  lemma {:induction false} RStripChPrefix(s: string, c: char)
    ensures |RStripCh(s, c)| <= |s| && RStripCh(s, c) == s[..|RStripCh(s, c)|]
    decreases |s|
  {
    if |s| > 0 && s[|s| - 1] == c {
      RStripChPrefix(s[..|s| - 1], c);
    }
  }

  /** Joining the first `n` words gives a prefix of joining them all, shorter when words are left out. */
  lemma {:induction false} JoinPrefix(ws: seq<string>, n: nat)
    requires 1 <= n <= |ws|
    requires forall k :: 0 <= k < |ws| ==> |ws[k]| > 0
    ensures StartsWith(Join(" ", ws), Join(" ", ws[..n]))
    ensures n < |ws| ==> |Join(" ", ws[..n])| < |Join(" ", ws)|
    decreases n
  {
    if n == 1 {
      assert Join(" ", ws[..1]) == ws[0];
      if |ws| > 1 {
        assert Join(" ", ws) == ws[0] + " " + Join(" ", ws[1..]);
        assert Join(" ", ws)[..|ws[0]|] == ws[0];
      }
    } else {
      assert ws[..n][1..] == ws[1..][..n - 1];
      JoinPrefix(ws[1..], n - 1);
      var p := Join(" ", ws[1..][..n - 1]);
      var r := Join(" ", ws[1..]);
      assert Join(" ", ws[..n]) == ws[0] + " " + p;
      assert Join(" ", ws) == ws[0] + " " + r;
      assert r[..|p|] == p;
      assert (ws[0] + " " + r)[..|ws[0] + " " + p|] == ws[0] + " " + p;
    }
  }

  /** A single-spaced string is the space-join of its words. */
  lemma {:induction false} JoinOfWords(s: string)
    requires SingleSpaced(s)
    ensures Join(" ", Words(s)) == s
    decreases |s|
  {
    if |s| > 0 {
      var w := TakeWord(s);
      assert |w| > 0 by { assert !IsSpace(s[0]); }
      if |w| == |s| {
        assert s[|w|..] == "";
        assert Words(s) == [w];
        assert w == s;
      } else {
        var rest := FirstWordSplit(s);
        JoinOfWords(rest);
        assert Words(rest) != [] by {
          assert Words(rest) == [TakeWord(rest)] + Words(rest[|TakeWord(rest)|..]);
        }
        assert Join(" ", [w] + Words(rest)) == w + " " + Join(" ", Words(rest)) by {
          assert ([w] + Words(rest))[1..] == Words(rest);
        }
      }
    }
  }

  /** A single-spaced string longer than its first word is that word, a space, and a single-spaced rest. */
  lemma FirstWordSplit(s: string) returns (rest: string)
    requires SingleSpaced(s) && |s| > 0 && |TakeWord(s)| < |s|
    ensures SingleSpaced(rest) && |rest| > 0 && !IsSpace(rest[0])
    ensures s == TakeWord(s) + " " + rest
    ensures Words(s) == [TakeWord(s)] + Words(rest)
  {
    var w := TakeWord(s);
    assert |w| > 0 by { assert !IsSpace(s[0]); }
    rest := SpaceSplit(s, |w|);
    WordsAfterSpace(s[|w|..]);
    assert s[|w|..][1..] == rest;
  }

  /** A single-spaced string around an inner space: the part before, one ' ', and a single-spaced rest. */
  lemma SpaceSplit(s: string, n: nat) returns (rest: string)
    requires SingleSpaced(s) && 0 < n < |s| && IsSpace(s[n])
    ensures rest == s[n + 1..] && SingleSpaced(rest) && |rest| > 0 && !IsSpace(rest[0])
    ensures s == s[..n] + " " + rest
  {
    assert s[n] == ' ';
    assert n + 1 < |s| by { assert !IsSpace(s[|s| - 1]); }
    rest := s[n + 1..];
    assert !IsSpace(s[n + 1]) by { assert !(IsSpace(s[n]) && IsSpace(s[n + 1])); }
    SingleSpacedFrom(s, n + 1);
    assert s == s[..n] + [s[n]] + s[n + 1..];
  }

  /** A single-spaced string from a non-space character on is single-spaced. */
  lemma SingleSpacedFrom(s: string, k: nat)
    requires SingleSpaced(s) && k < |s| && !IsSpace(s[k])
    ensures SingleSpaced(s[k..])
  {
    assert forall i :: 0 <= i < |s| - k ==> s[k..][i] == s[k + i];
  }

  /** `re.sub(r"\s+", " ", s).strip()` has the words of `s`. */
  lemma {:induction false} SquashSpacesWords(s: string)
    ensures Words(SquashSpaces(s)) == Words(s)
  {
    var c := CollapseRuns(s, IsSpace, ' ');
    WordsCollapseFrom([], s);
    EmptyPrefix(c);
    EmptyPrefix(s);
    assert Words(c) == Words(s);
    WordsLStrip(c);
    WordsRStrip(LStrip(c));
    assert SquashSpaces(s) == RStrip(LStrip(c));
  }

  lemma EmptyPrefix(s: string)
    ensures [] + s == s
  {
  }

  /** Collapsing the whitespace runs after a word (or nothing) keeps the words. */
  lemma {:induction false} WordsCollapseFrom(p: string, s: string)
    requires p == [] || IsWord(p)
    ensures Words(p + CollapseRuns(s, IsSpace, ' ')) == Words(p + s)
    decreases |s|
  {
    if |s| == 0 {
      assert CollapseRuns(s, IsSpace, ' ') == s;
    } else if IsSpace(s[0]) {
      var d := DropWhile(s, IsSpace);
      WordsCollapseFrom([], d);
      assert [] + CollapseRuns(d, IsSpace, ' ') == CollapseRuns(d, IsSpace, ' ') && [] + d == d;
      WordsCollapseRun(p, s);
    } else {
      assert IsWord(p + [s[0]]);
      WordsCollapseFrom(p + [s[0]], s[1..]);
      WordsCollapseChar(p, s);
    }
  }

  /** The step of `WordsCollapseFrom` at a non-space character, given the words after it. */
  lemma {:induction false} WordsCollapseChar(p: string, s: string)
    requires |s| > 0 && !IsSpace(s[0])
    requires Words(p + [s[0]] + CollapseRuns(s[1..], IsSpace, ' ')) == Words(p + [s[0]] + s[1..])
    ensures Words(p + CollapseRuns(s, IsSpace, ' ')) == Words(p + s)
  {
    var t := CollapseRuns(s[1..], IsSpace, ' ');
    assert CollapseRuns(s, IsSpace, ' ') == [s[0]] + t;
    ConsAssoc(p, s[0], t);
    ConsAssoc(p, s[0], s[1..]);
    assert [s[0]] + s[1..] == s;
  }

  lemma JoinAssoc(a: string, b: string, c: string)
    ensures a + b + c == a + (b + c)
  {
  }

  lemma ConsAssoc(p: string, x: char, t: string)
    ensures p + ([x] + t) == p + [x] + t
  {
  }

  /** The step of `WordsCollapseFrom` at a whitespace run, given the words of the collapsed rest. */
  lemma {:induction false} WordsCollapseRun(p: string, s: string)
    requires p == [] || IsWord(p)
    requires |s| > 0 && IsSpace(s[0])
    requires Words(CollapseRuns(DropWhile(s, IsSpace), IsSpace, ' ')) == Words(DropWhile(s, IsSpace))
    ensures Words(p + CollapseRuns(s, IsSpace, ' ')) == Words(p + s)
  {
    var cd := CollapseRuns(DropWhile(s, IsSpace), IsSpace, ' ');
    var c := CollapseRuns(s, IsSpace, ' ');
    assert c == [' '] + cd;
    WordsDropSpaces(s);
    WordsAfterSpace(c);
    assert c[1..] == cd;
    if p == [] {
      assert p + c == c && p + s == s;
    } else {
      WordThenSpace(p, c);
      WordThenSpace(p, s);
    }
  }

  /** A word followed by whitespace splits off as the first word. */
  lemma {:induction false} WordThenSpace(p: string, x: string)
    requires IsWord(p) && |x| > 0 && IsSpace(x[0])
    ensures Words(p + x) == [p] + Words(x)
  {
    TakeWordOfWord(p, x);
    assert (p + x)[|p|..] == x;
    assert (p + x)[0] == p[0];
  }

  /** Leading whitespace carries no words. */
  lemma {:induction false} WordsDropSpaces(s: string)
    ensures Words(DropWhile(s, IsSpace)) == Words(s)
    decreases |s|
  {
    if |s| > 0 && IsSpace(s[0]) {
      WordsDropSpaces(s[1..]);
    }
  }

  lemma {:induction false} WordsLStrip(s: string)
    ensures Words(LStrip(s)) == Words(s)
    decreases |s|
  {
    if |s| > 0 && IsSpace(s[0]) {
      WordsLStrip(s[1..]);
    }
  }

  lemma {:induction false} WordsRStrip(s: string)
    ensures Words(RStrip(s)) == Words(s)
  {
    RStripShape(s);
    var y := RStrip(s);
    var z := s[|y|..];
    assert s == y + z;
    WordsSpaceTail(y, z);
  }

  /** Trailing whitespace carries no words. */
  lemma {:induction false} WordsSpaceTail(y: string, z: string)
    requires forall i :: 0 <= i < |z| ==> IsSpace(z[i])
    ensures Words(y + z) == Words(y)
    decreases |y|
  {
    if |y| == 0 {
      EmptyPrefix(z);
      WordsAllSpace(z);
    } else if IsSpace(y[0]) {
      WordsSpaceTail(y[1..], z);
      assert (y + z)[1..] == y[1..] + z;
      WordsAfterSpace(y + z);
      WordsAfterSpace(y);
    } else {
      var w := TakeWord(y);
      WordsSpaceTail(y[|w|..], z);
      WordsWordStep(y, z);
    }
  }

  /** The step of `WordsSpaceTail` at a word, given the words after it. */
  lemma {:induction false} WordsWordStep(y: string, z: string)
    requires |y| > 0 && !IsSpace(y[0])
    requires z == [] || IsSpace(z[0])
    requires Words(y[|TakeWord(y)|..] + z) == Words(y[|TakeWord(y)|..])
    ensures Words(y + z) == Words(y)
  {
    var w := TakeWord(y);
    TakeWordAppend(y, z);
    assert (y + z)[0] == y[0];
    assert (y + z)[|w|..] == y[|w|..] + z;
  }

  /** A string of whitespace has no words. */
  lemma {:induction false} WordsAllSpace(z: string)
    requires forall i :: 0 <= i < |z| ==> IsSpace(z[i])
    ensures Words(z) == []
    decreases |z|
  {
    if |z| > 0 {
      WordsAllSpace(z[1..]);
    }
  }

  /** Whitespace after `y` does not lengthen its first word. */
  lemma {:induction false} TakeWordAppend(y: string, z: string)
    requires z == [] || IsSpace(z[0])
    ensures TakeWord(y + z) == TakeWord(y)
    decreases |y|
  {
    if |y| == 0 {
      assert y + z == z;
    } else if !IsSpace(y[0]) {
      TakeWordAppend(y[1..], z);
      assert (y + z)[0] == y[0];
      assert (y + z)[1..] == y[1..] + z;
      assert TakeWord(y + z) == [y[0]] + TakeWord(y[1..] + z);
    } else {
      assert (y + z)[0] == y[0];
    }
  }

  /** A leading space does not change the words. */
  lemma WordsAfterSpace(s: string)
    requires |s| > 0 && IsSpace(s[0])
    ensures Words(s) == Words(s[1..])
  {
  }

  /** What comes before the first `c` of `a + [c] + rest` is `a`, when `a` has no `c`. */
  lemma {:induction false} BeforeOfJoin(a: string, c: char, rest: string)
    requires c !in a
    ensures Before(a + [c] + rest, c) == a
    decreases |a|
  {
    if a != [] {
      assert (a + [c] + rest)[1..] == a[1..] + [c] + rest;
      BeforeOfJoin(a[1..], c, rest);
    }
  }

  /** A string without `c` is its own `split(c)[0]`. */
  lemma {:induction false} BeforeAbsent(s: string, c: char)
    requires c !in s
    ensures Before(s, c) == s
    decreases |s|
  {
    if s != [] {
      BeforeAbsent(s[1..], c);
    }
  }

  /** Before the first `c`, a prefix without `c` is kept whole. */
  lemma {:induction false} BeforeAppend(a: string, b: string, c: char)
    requires c !in a
    ensures Before(a + b, c) == a + Before(b, c)
    decreases |a|
  {
    if a != [] {
      assert a[0] in a && (a + b)[0] == a[0];
      assert (a + b)[1..] == a[1..] + b;
      assert forall x :: x in a[1..] ==> x in a;
      BeforeAppend(a[1..], b, c);
      calc {
        Before(a + b, c);
        [a[0]] + Before(a[1..] + b, c);
        [a[0]] + (a[1..] + Before(b, c));
        { assert a == [a[0]] + a[1..]; }
        a + Before(b, c);
      }
    } else {
      assert a + b == b;
    }
  }
}
