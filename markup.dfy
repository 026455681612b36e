/**
 * Tag stripping as the scripts do it, with the regular expression
 * `<[^>]+>`: a "<", at least one character other than ">", then the
 * first ">" after it. Each tag becomes one space; a "<" that opens no
 * tag stays.
 */
module Markup {
  import opened Text

  /** The position of the first `c` in a string that holds one. */
  function IndexOf(t: string, c: char): (n: nat)
    requires c in t
    ensures n < |t| && t[n] == c
    ensures forall i :: 0 <= i < n ==> t[i] != c
    decreases |t|
  {
    if t[0] == c then 0
    else
      assert c in t[1..] by { var k :| 0 <= k < |t| && t[k] == c; assert t[1..][k - 1] == c; }
      1 + IndexOf(t[1..], c)
  }

  /** A tag starts at the head of `s`. */
  predicate TagAtHead(s: string)
  {
    |s| > 1 && s[0] == '<' && s[1] != '>' && '>' in s[2..]
  }

  /** `re.sub(r"<[^>]+>", " ", s)`, scanning left to right. */
  function StripTags(s: string): string
    decreases |s|
  {
    if |s| == 0 then ""
    else if TagAtHead(s) then
      var n := IndexOf(s[2..], '>');
      " " + StripTags(s[n + 3..])
    else [s[0]] + StripTags(s[1..])
  }

  /** No tag starts anywhere in `s`: `re.search(r"<[^>]+>", s)` finds nothing. */
  predicate NoTag(s: string)
  {
    forall i :: 0 <= i < |s| ==> !TagAtHead(s[i..])
  }

  /** Every character of the output is a space or a character of the input. */
  lemma {:induction false} StripTagsChars(s: string)
    ensures forall x :: x in StripTags(s) ==> x == ' ' || x in s
    decreases |s|
  {
    if |s| > 0 {
      if TagAtHead(s) {
        var n := IndexOf(s[2..], '>');
        StripTagsChars(s[n + 3..]);
        assert forall x :: x in s[n + 3..] ==> x in s;
      } else {
        StripTagsChars(s[1..]);
        assert forall x :: x in s[1..] ==> x in s;
      }
    }
  }

  /** A string that does not start with "<" keeps its first character. */
  lemma StripTagsHead(s: string)
    requires |s| > 0 && s[0] != '<'
    ensures StripTags(s) == [s[0]] + StripTags(s[1..])
  {
  }

  /** Suffixes of a string without tags have none either. */
  lemma NoTagTail(s: string)
    requires |s| > 0 && NoTag(s)
    ensures NoTag(s[1..])
  {
    forall i | 0 <= i < |s[1..]|
      ensures !TagAtHead(s[1..][i..])
    {
      assert s[1..][i..] == s[i + 1..];
    }
  }

  /** A "<" with no tag start prepended to a tag-free string leaves it tag-free when no ">" follows. */
  lemma NoTagCons(c: char, r: string)
    requires NoTag(r)
    requires c == '<' ==> |r| == 0 || r[0] == '>' || '>' !in r[1..]
    ensures NoTag([c] + r)
  {
    var t := [c] + r;
    forall i | 0 <= i < |t|
      ensures !TagAtHead(t[i..])
    {
      if i == 0 {
        if c == '<' && |r| > 0 && r[0] != '>' {
          assert t[2..] == r[1..];
        }
      } else {
        assert t[i..] == r[i - 1..];
      }
    }
  }

  /** `StripTags` leaves no tag behind. */
  lemma {:induction false} StripTagsNoTag(s: string)
    ensures NoTag(StripTags(s))
    decreases |s|
  {
    if |s| > 0 {
      if TagAtHead(s) {
        var n := IndexOf(s[2..], '>');
        StripTagsNoTag(s[n + 3..]);
        NoTagCons(' ', StripTags(s[n + 3..]));
      } else {
        var r := StripTags(s[1..]);
        StripTagsNoTag(s[1..]);
        if s[0] == '<' && |s| > 1 && s[1] != '>' {
          // no ">" after the "<": the rest keeps its first character and gains no ">"
          assert '>' !in s[2..];
          assert r == [s[1]] + StripTags(s[2..]);
          assert s[1..][1..] == s[2..];
          StripTagsChars(s[2..]);
          assert r[1..] == StripTags(s[2..]);
          assert '>' !in r[1..];
        }
        if s[0] == '<' && |s| > 1 && s[1] == '>' {
          StripTagsHead(s[1..]);
        }
        NoTagCons(s[0], r);
      }
    }
  }

  /** Characters without a "<", put in front of a tag-free string, keep it tag-free. */
  lemma {:induction false} NoTagPrepend(a: string, r: string)
    requires '<' !in a && NoTag(r)
    ensures NoTag(a + r)
    decreases |a|
  {
    if |a| == 0 {
      assert a + r == r;
    } else {
      NoTagPrepend(a[1..], r);
      assert a + r == [a[0]] + (a[1..] + r);
      NoTagCons(a[0], a[1..] + r);
    }
  }

  /** Every suffix of a tag-free string is tag-free. */
  lemma NoTagDrop(s: string, k: nat)
    requires k <= |s| && NoTag(s)
    ensures NoTag(s[k..])
  {
    forall i | 0 <= i < |s[k..]|
      ensures !TagAtHead(s[k..][i..])
    {
      assert s[k..][i..] == s[k + i..];
    }
  }

  /**
   * Replacing a pattern without angle brackets by text without them
   * leaves a tag-free string tag-free: a "<" that had a ">" right after
   * it keeps it, and one with no ">" after it gains none.
   */
  lemma {:induction false} ReplaceAllNoTag(s: string, pat: string, rep: string)
    requires |pat| > 0 && '<' !in pat && '>' !in pat && '<' !in rep && '>' !in rep
    requires NoTag(s)
    ensures NoTag(ReplaceAll(s, pat, rep))
    decreases |s|
  {
    if |s| >= |pat| {
      if s[..|pat|] == pat {
        NoTagDrop(s, |pat|);
        ReplaceAllNoTag(s[|pat|..], pat, rep);
        NoTagPrepend(rep, ReplaceAll(s[|pat|..], pat, rep));
      } else {
        var r := ReplaceAll(s[1..], pat, rep);
        NoTagDrop(s, 1);
        ReplaceAllNoTag(s[1..], pat, rep);
        assert ReplaceAll(s, pat, rep) == [s[0]] + r;
        if s[0] == '<' && |s| > 1 {
          assert s[0..] == s && !TagAtHead(s);
          if s[1] == '>' {
            assert s[1..] == [s[1]] + s[2..];
            ReplaceAllSkip([s[1]], s[2..], pat, rep);
            assert r[0] == '>';
          } else {
            assert '>' !in s[1..] by {
              assert s[1..] == [s[1]] + s[2..];
            }
            ReplaceAllChars(s[1..], pat, rep);
            assert '>' !in r;
            if |r| > 0 {
              assert forall c :: c in r[1..] ==> c in r;
            }
          }
        }
        NoTagCons(s[0], r);
      }
    }
  }

  /** A tag in a slice is a tag from the same position on in the whole string. */
  lemma TagAtHeadSlice(s: string, a: nat, b: nat, i: nat)
    requires a <= b <= |s| && i < b - a
    ensures TagAtHead(s[a..b][i..]) ==> TagAtHead(s[a + i..])
  {
    var u := s[a..b][i..];
    var w := s[a + i..];
    if TagAtHead(u) {
      assert u[0] == w[0] && u[1] == w[1];
      var k :| 0 <= k < |u[2..]| && u[2..][k] == '>';
      assert w[2..][k] == '>';
    }
  }

  /** Stripping a tag-free string leaves it tag-free. */
  lemma StripNoTag(t: string)
    requires NoTag(t)
    ensures NoTag(Strip(t))
  {
    var a, b := StripSlice(t);
    forall i | 0 <= i < |Strip(t)|
      ensures !TagAtHead(Strip(t)[i..])
    {
      TagAtHeadSlice(t, a, b, i);
    }
  }

  /** A string without tags is its own `StripTags`. */
  lemma {:induction false} StripTagsIdle(s: string)
    requires NoTag(s)
    ensures StripTags(s) == s
    decreases |s|
  {
    if |s| > 0 {
      assert s[0..] == s;
      NoTagTail(s);
      StripTagsIdle(s[1..]);
    }
  }

  /** Stripping twice is stripping once. */
  lemma StripTagsIdempotent(s: string)
    ensures StripTags(StripTags(s)) == StripTags(s)
  {
    StripTagsNoTag(s);
    StripTagsIdle(StripTags(s));
  }

  /** The catalog description: tags to spaces, whitespace squashed, cut at 500 characters. */
  function CleanText(html: string): (r: string)
    ensures |r| <= 500 && |r| <= |SquashSpaces(StripTags(html))|
    ensures r == SquashSpaces(StripTags(html))[..|r|]
    ensures |SquashSpaces(StripTags(html))| <= 500 ==> r == SquashSpaces(StripTags(html))
  {
    Take(SquashSpaces(StripTags(html)), 500)
  }
}
