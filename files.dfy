/**
 * Names of downloaded image files: the characters a file name keeps, the
 * name, stem and suffix of a URL's path, the decimal row numbers that
 * prefix some names, and the reuse of an image already in the folder,
 * which the folder's sorted listing decides.
 */
module Files {
  import opened Wrappers
  import opened Text
  import Url
  import Order

  // ------------------------------------------------------------------
  // Sanitising

  /** The class `[\w.-]` a file name keeps. */
  predicate IsNameChar(c: char) { IsWordChar(c) || c == '.' || c == '-' }

  function Underscore(c: char): char
  {
    if IsNameChar(c) then c else '_'
  }

  /** `re.sub(r"[^\w.-]", "_", s)`: same length, only name characters, the others turned into "_". */
  function Sanitize(s: string): (r: string)
    ensures |r| == |s| && All(r, IsNameChar)
    ensures forall i :: 0 <= i < |s| ==> r[i] == (if IsNameChar(s[i]) then s[i] else '_')
  {
    MapChars(s, Underscore)
  }

  /** A name made only of name characters is left as it is, so sanitising twice changes nothing. */
  lemma SanitizeIdle(s: string)
    requires All(s, IsNameChar)
    ensures Sanitize(s) == s
  {
  }

  /** Sanitising keeps the length, so cutting before or after it gives the same name. */
  lemma SanitizeTake(s: string, n: nat)
    ensures Sanitize(Take(s, n)) == Take(Sanitize(s), n)
  {
  }

  lemma SanitizeIdempotent(s: string)
    ensures Sanitize(Sanitize(s)) == Sanitize(s)
  {
    SanitizeIdle(Sanitize(s));
  }

  // ------------------------------------------------------------------
  // The path of a URL

  predicate IsSchemeChar(c: char) { IsAlnum(c) || c == '+' || c == '-' || c == '.' }

  /** The scheme: the text before the first ':' when it is a letter, then letters, digits, "+-."; "" otherwise. */
  function SchemeOf(u: string): (s: string)
    ensures s == "" || (|s| < |u| && s == u[..|s|] && u[|s|] == ':')
  {
    var s := Before(u, ':');
    BeforeDrops(u, ':');
    if 0 < |s| < |u| && (IsLowerAlpha(s[0]) || IsUpperAlpha(s[0])) && All(s, IsSchemeChar) then s else ""
  }

  /** What follows `scheme:` when the URL has a scheme. */
  function DropScheme(u: string): (r: string)
    ensures |r| <= |u|
  {
    var s := SchemeOf(u);
    if s != "" then u[|s| + 1..] else u
  }

  /** `uses_params`: the schemes whose paths `urlparse` splits `;params` from (compared in lower case). */
  const ParamSchemes: set<string> :=
    {"", "ftp", "hdl", "prospero", "http", "imap", "https", "shttp", "rtsp", "rtspu", "sip", "sips", "mms", "sftp", "tel"}

  predicate UsesParams(url: string) { Lower(SchemeOf(url)) in ParamSchemes }

  predicate EndsNetloc(c: char) { c == '/' || c == '?' || c == '#' }

  /** What follows a `//host` part: from the first of "/?#" after it. */
  function DropNetloc(s: string): string
  {
    if StartsWith(s, "//") then DropWhile(s[2..], c => !EndsNetloc(c)) else s
  }

  /**
   * `_splitparams(path)[0]`: the path cut at the first ';' of its last
   * segment (of the whole path when it has no '/').
   */
  function CutParams(p: string): (r: string)
    ensures |r| <= |p| && r == p[..|r|]
    ensures ';' !in AfterLast(r, '/')
    ensures ';' !in AfterLast(p, '/') ==> r == p
  {
    CutParamsParts(p);
    p[..|p| - |AfterLast(p, '/')|] + Before(AfterLast(p, '/'), ';')
  }

  lemma CutParamsParts(p: string)
    ensures |AfterLast(p, '/')| <= |p|
    ensures var r := p[..|p| - |AfterLast(p, '/')|] + Before(AfterLast(p, '/'), ';');
            |r| <= |p| && r == p[..|r|] && ';' !in AfterLast(r, '/') && (';' !in AfterLast(p, '/') ==> r == p)
  {
    var seg := AfterLast(p, '/');
    AfterLastSplit(p, '/');
    var head := p[..|p| - |seg|];
    assert head + seg == p;
    CutSegment(head, seg);
  }

  /** Cutting the last segment `seg` (after `head`) at its first ';'. */
  lemma CutSegment(head: string, seg: string)
    requires head == [] || head[|head| - 1] == '/'
    requires '/' !in seg
    ensures var r := head + Before(seg, ';');
            |r| <= |head + seg| && r == (head + seg)[..|r|] && ';' !in AfterLast(r, '/')
            && (';' !in seg ==> r == head + seg)
  {
    var cut := Before(seg, ';');
    BeforeDrops(seg, ';');
    assert cut == seg[..|cut|];
    assert head + cut == (head + seg)[..|head| + |cut|];
    assert '/' !in cut;
    assert ';' !in cut;
    AfterLastAppend(head, cut, '/');
    if ';' !in seg {
      BeforeAbsent(seg, ';');
    }
  }

  /**
   * `urlparse(url).path`: without the scheme, the `//host` part, the query
   * and the fragment, and, for the schemes of `uses_params`, without the
   * `;params` of the last segment.
   */
  function UrlPath(url: string): (r: string)
    ensures '?' !in r && '#' !in r
    ensures UsesParams(url) ==> ';' !in AfterLast(r, '/')
  {
    var p := Url.StripQueryFragment(DropNetloc(DropScheme(url)));
    assert forall i :: 0 <= i < |p| ==> p[i] != '?' && p[i] != '#';
    if UsesParams(url) then CutParams(p) else p
  }

  /** The `;params` of the last segment go: `dir/seg;params` becomes `dir/seg`. */
  lemma CutParamsOfSegment(dir: string, seg: string, params: string)
    requires '/' !in seg && ';' !in seg && '/' !in params
    ensures CutParams(dir + "/" + seg + ";" + params) == dir + "/" + seg
  {
    var head := dir + "/";
    var last := seg + ";" + params;
    assert '/' !in last;
    AfterLastAppend(head, last, '/');
    assert dir + "/" + seg + ";" + params == head + last;
    BeforeOfJoin(seg, ';', params);
    assert dir + "/" + seg == head + seg;
  }

  /** What follows the last `c` is a suffix without `c`, preceded by a `c` when it is not all of `s`. */
  lemma {:induction false} AfterLastSplit(s: string, c: char)
    ensures |AfterLast(s, c)| <= |s| && AfterLast(s, c) == s[|s| - |AfterLast(s, c)|..]
    ensures c !in AfterLast(s, c)
    ensures |AfterLast(s, c)| < |s| ==> s[|s| - |AfterLast(s, c)| - 1] == c
    decreases |s|
  {
    if |s| > 0 && s[|s| - 1] != c {
      var t := s[..|s| - 1];
      var a := AfterLast(t, c);
      AfterLastSplit(t, c);
      assert AfterLast(s, c) == a + [s[|s| - 1]];
      assert s == t + [s[|s| - 1]];
      assert s[|s| - |a| - 1..] == t[|t| - |a|..] + [s[|s| - 1]];
      assert |a| < |t| ==> s[|s| - |a| - 2] == t[|t| - |a| - 1];
    }
  }

  /** After nothing or a `c`, a piece without `c` is all that follows the last `c`. */
  lemma {:induction false} AfterLastAppend(a: string, x: string, c: char)
    requires a == [] || a[|a| - 1] == c
    requires c !in x
    ensures AfterLast(a + x, c) == x
    decreases |x|
  {
    if |x| == 0 {
      assert a + x == a;
    } else {
      assert (a + x)[..|a + x| - 1] == a + x[..|x| - 1];
      AfterLastAppend(a, x[..|x| - 1], c);
      assert x[..|x| - 1] + [x[|x| - 1]] == x;
    }
  }

  // ------------------------------------------------------------------
  // Name, stem and suffix

  /** The last position of `c` in `s`. */
  function LastIndex(s: string, c: char): (r: Option<nat>)
    ensures r.None? ==> forall j :: 0 <= j < |s| ==> s[j] != c
    ensures r.Some? ==> r.value < |s| && s[r.value] == c && forall j :: r.value < j < |s| ==> s[j] != c
    decreases |s|
  {
    if |s| == 0 then None
    else if s[|s| - 1] == c then Some(|s| - 1)
    else LastIndex(s[..|s| - 1], c)
  }

  /**
   * `PurePath(path).name`: the last component once trailing slashes and
   * "." components are dropped; "" for a path without components.
   */
  function BaseName(path: string): (r: string)
    ensures '/' !in r
    decreases |path|
  {
    var t := RStripCh(path, '/');
    RStripChPrefix(path, '/');
    var n := AfterLast(t, '/');
    AfterLastDrops(t, '/');
    if n == "." then BaseName(t[..|t| - 1]) else n
  }

  /** `AfterLast` returns a suffix without `c`. */
  lemma {:induction false} AfterLastDrops(s: string, c: char)
    ensures |AfterLast(s, c)| <= |s| && AfterLast(s, c) == s[|s| - |AfterLast(s, c)|..]
    ensures c !in AfterLast(s, c)
    decreases |s|
  {
    if |s| > 0 && s[|s| - 1] != c {
      AfterLastDrops(s[..|s| - 1], c);
    }
  }

  /** The position of the dot that starts the suffix: the last dot, when it is neither first nor last. */
  function SuffixDot(name: string): (r: Option<nat>)
    ensures r.Some? ==> 0 < r.value < |name| - 1 && name[r.value] == '.'
  {
    match LastIndex(name, '.')
    case Some(i) => if 0 < i < |name| - 1 then Some(i) else None
    case None => None
  }

  /** `PurePath(name).suffix` */
  function Suffix(name: string): string
  {
    match SuffixDot(name)
    case Some(i) => name[i..]
    case None => ""
  }

  /** `PurePath(name).stem` */
  function Stem(name: string): string
  {
    match SuffixDot(name)
    case Some(i) => name[..i]
    case None => name
  }

  /**
   * A name is its stem followed by its suffix; a suffix is a dot, at least
   * one other character and no further dot, and the stem is never empty
   * when there is one.
   */
  lemma StemSuffix(name: string)
    ensures Stem(name) + Suffix(name) == name
    ensures Suffix(name) == "" || (|Suffix(name)| >= 2 && Suffix(name)[0] == '.' && '.' !in Suffix(name)[1..] && Stem(name) != "")
    ensures Suffix(name) == "" ==> Stem(name) == name
  {
    match SuffixDot(name)
    case Some(i) =>
      var j := LastIndex(name, '.').value;
      assert j == i;
      assert forall k :: 0 <= k < |name[i..][1..]| ==> name[i..][1..][k] == name[i + 1 + k];
    case None =>
  }

  // ------------------------------------------------------------------
  // Decimal numbers in names

  /** Leading zeros do not change the value. */
  lemma {:induction false} ZerosValue(z: string, s: string)
    requires All(z, c => c == '0')
    ensures DigitsValue(z + s) == DigitsValue(s)
    decreases |s|, |z|
  {
    if s == [] {
      assert z + s == z;
      if z != [] {
        ZerosValue(z[..|z| - 1], []);
        assert z[..|z| - 1] + [] == z[..|z| - 1];
      }
    } else {
      ZerosValue(z, s[..|s| - 1]);
      assert (z + s)[..|z + s| - 1] == z + s[..|s| - 1];
    }
  }

  /** `f"{n:04d}"`: the decimal digits of `n`, zero-padded to four. */
  function Pad4(n: nat): (r: string)
    ensures IsDigits(r) && |r| >= 4
    ensures DigitsValue(r) == n
  {
    var t := NatText(n);
    assert |t| < 4 ==> DigitsValue(ZFill(t, 4)) == n && IsDigits(ZFill(t, 4)) && |ZFill(t, 4)| == 4 by {
      if |t| < 4 {
        ZerosAreZeros(4 - |t|);
        ZerosValue(Repeat('0', 4 - |t|), t);
      }
    }
    ZFill(t, 4)
  }

  lemma {:induction false} ZerosAreZeros(k: nat)
    ensures |Repeat('0', k)| == k && All(Repeat('0', k), c => c == '0')
    decreases k
  {
    if k > 0 {
      ZerosAreZeros(k - 1);
    }
  }

  // ------------------------------------------------------------------
  // Reusing an image already in the folder

  /** The suffixes of an image that may be reused, compared lower-cased. */
  const ImageSuffixes: set<string> := {".jpg", ".jpeg", ".png", ".gif", ".webp"}

  /**
   * A file that `glob(base + "*")` lists with an image suffix. The bases
   * are sanitised and never empty, so the pattern has no wildcard but its
   * final `*` and matches exactly the names that start with the base (a
   * base that starts with a dot lets the pattern see hidden files, as a
   * name starting with such a base is one).
   */
  predicate Reusable(name: string, base: string)
  {
    StartsWith(name, base) && Lower(Suffix(name)) in ImageSuffixes
  }

  /** Python's `<=` on strings. */
  predicate LexLe(a: string, b: string)
  {
    a == b || Order.Less(a, b)
  }

  /**
   * The loop over `sorted(folder.glob(base + "*"))` that returns the first
   * name with an image suffix: the least such name, or none.
   */
  method FirstReusable(dir: set<string>, base: string) returns (r: Option<string>)
    ensures r.None? <==> forall p :: p in dir ==> !Reusable(p, base)
    ensures r.Some? ==> r.value in dir && Reusable(r.value, base)
                        && forall p :: p in dir && Reusable(p, base) ==> LexLe(r.value, p)
  {
    var left := dir;
    r := None;
    while left != {}
      invariant left <= dir
      invariant r.None? ==> forall p :: p in dir && p !in left ==> !Reusable(p, base)
      invariant r.Some? ==> r.value in dir && Reusable(r.value, base)
                            && forall p :: p in dir && p !in left && Reusable(p, base) ==> LexLe(r.value, p)
      decreases left
    {
      var p :| p in left;
      if Reusable(p, base) && (r.None? || !LexLe(r.value, p)) {
        if r.Some? {
          var q0 := r.value;
          Order.LessTotal(q0, p);
          forall q | q in dir && q !in left && Reusable(q, base)
            ensures LexLe(p, q)
          {
            if q != q0 {
              Order.LessTransitive(p, q0, q);
            }
          }
        }
        r := Some(p);
      }
      left := left - {p};
    }
  }

  /** The least reusable name is unique, so any listing order that is sorted finds the same file. */
  lemma ReusableLeastIsUnique(dir: set<string>, base: string, a: string, b: string)
    requires a in dir && Reusable(a, base) && forall p :: p in dir && Reusable(p, base) ==> LexLe(a, p)
    requires b in dir && Reusable(b, base) && forall p :: p in dir && Reusable(p, base) ==> LexLe(b, p)
    ensures a == b
  {
    if a != b {
      Order.LessAsymmetric(a, b);
    }
  }

  /** `f"{base}_{n}.jpg"` */
  function Numbered(base: string, n: nat): (r: string)
    ensures StartsWith(r, base + "_") && EndsWith(r, ".jpg")
  {
    var r := base + "_" + NatText(n) + ".jpg";
    assert r[..|base + "_"|] == base + "_";
    assert r[|r| - 4..] == ".jpg";
    r
  }

  /** Different numbers give different names. */
  lemma NumberedInjective(base: string, m: nat, n: nat)
    requires Numbered(base, m) == Numbered(base, n)
    ensures m == n
  {
    var x := Numbered(base, m);
    assert x[|base| + 1..|x| - 4] == NatText(m);
    var y := Numbered(base, n);
    assert y[|base| + 1..|y| - 4] == NatText(n);
  }

  /**
   * The `while` loop that counts from 2 to the first `{base}_{n}.jpg` the
   * folder does not hold; it ends because the folder holds finitely many
   * names.
   */
  method FreeNumber(dir: set<string>, base: string) returns (n: nat)
    ensures n >= 2 && Numbered(base, n) !in dir
    ensures forall m :: 2 <= m < n ==> Numbered(base, m) in dir
  {
    n := 2;
    ghost var seen: set<string> := {};
    while Numbered(base, n) in dir
      invariant n >= 2
      invariant forall m :: 2 <= m < n ==> Numbered(base, m) in dir
      invariant seen <= dir
      invariant forall x :: x in seen ==> exists m :: 2 <= m < n && x == Numbered(base, m)
      decreases dir - seen
    {
      if Numbered(base, n) in seen {
        var m :| 2 <= m < n && Numbered(base, n) == Numbered(base, m);
        NumberedInjective(base, m, n);
        assert false;
      }
      seen := seen + {Numbered(base, n)};
      n := n + 1;
    }
  }
}
