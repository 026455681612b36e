/**
 * The character-level core of the URL slugs: keep word characters,
 * whitespace and hyphens, then turn every run of hyphens and whitespace
 * into one hyphen.
 */
module Slugs {
  import opened Text

  /** The class `[\w\s-]` that the slug filters keep. */
  predicate IsSlugKeep(c: char) { IsWordChar(c) || IsSpace(c) || c == '-' }

  /** The class `[-\s]` whose runs become one hyphen. */
  predicate IsDashOrSpace(c: char) { c == '-' || IsSpace(c) }

  /** The characters a lower-cased slug is made of: `[a-z0-9_-]`. */
  predicate IsSlugChar(c: char) { IsLowerAlpha(c) || IsDigit(c) || c == '_' || c == '-' }

  /** No two neighbouring characters of `s` are both `c`. */
  predicate NoAdjacent(s: string, c: char)
  {
    forall i :: 0 < i < |s| ==> !(s[i - 1] == c && s[i] == c)
  }

  /** `re.sub(r"[-\s]+", "-", re.sub(r"[^\w\s-]", "", s))` */
  function Hyphenate(s: string): string
  {
    CollapseRuns(Filter(s, IsSlugKeep), IsDashOrSpace, '-')
  }

  /** A hyphenated string holds only word characters and single hyphens, and is empty only when nothing was kept. */
  lemma HyphenateShape(s: string)
    ensures All(Hyphenate(s), c => IsWordChar(c) || c == '-')
    ensures NoAdjacent(Hyphenate(s), '-')
    ensures Hyphenate(s) == [] <==> Filter(s, IsSlugKeep) == []
  {
    var f := Filter(s, IsSlugKeep);
    FilterAll(s, IsSlugKeep);
    CollapseRunsReplaces(f, IsDashOrSpace, '-', c => IsWordChar(c) || c == '-');
    CollapseRunsShape(f, IsDashOrSpace, '-');
    CollapseRunsEmpty(f, IsDashOrSpace, '-');
  }

  /** A string of slug characters with single hyphens is its own hyphenation. */
  lemma HyphenateIdle(s: string)
    requires All(s, IsSlugChar) && NoAdjacent(s, '-')
    ensures Hyphenate(s) == s
  {
    FilterKeepsAll(s, IsSlugKeep);
    CollapseRunsIdle(s, IsDashOrSpace, '-');
  }

  /** Lower-casing word characters and hyphens gives slug characters and keeps hyphens where they were. */
  lemma LowerSlugChars(s: string)
    requires All(s, c => IsWordChar(c) || c == '-') && NoAdjacent(s, '-')
    ensures All(Lower(s), IsSlugChar) && NoAdjacent(Lower(s), '-')
  {
    assert forall i :: 0 <= i < |s| ==> (Lower(s)[i] == '-' <==> s[i] == '-');
  }

  /** Any prefix keeps both shape facts. */
  lemma TakeSlugChars(s: string, n: nat)
    requires All(s, IsSlugChar) && NoAdjacent(s, '-')
    ensures All(Take(s, n), IsSlugChar) && NoAdjacent(Take(s, n), '-')
  {
  }
}
