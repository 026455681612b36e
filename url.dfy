/** `urllib.parse.quote_plus` with its default safe set. */
module Url {
  import opened Text

  const HexDigits: string := "0123456789ABCDEF"

  /** `u.split("?")[0].split("#")[0]`: the URL without query and fragment. */
  function StripQueryFragment(u: string): (r: string)
    ensures forall i :: 0 <= i < |r| ==> r[i] != '?' && r[i] != '#'
  {
    BeforeDrops(u, '?');
    BeforeDrops(Before(u, '?'), '#');
    Before(Before(u, '?'), '#')
  }

  /** The characters `quote_plus` never escapes: ASCII letters, digits and `_.-~`. */
  predicate IsUnreserved(c: char)
  {
    IsAlnum(c) || c == '_' || c == '.' || c == '-' || c == '~'
  }

  /** The characters that can appear in a quoted string. */
  predicate IsQuotedChar(c: char)
  {
    IsUnreserved(c) || c == '+' || c == '%'
  }

  /** The UTF-8 bytes of one character. */
  function Utf8(c: char): (bytes: seq<nat>)
    ensures 1 <= |bytes| <= 4
    ensures forall k :: 0 <= k < |bytes| ==> bytes[k] < 256
  {
    var n := c as int;
    if n < 0x80 then [n]
    else if n < 0x800 then [0xC0 + n / 64, 0x80 + n % 64]
    else if n < 0x10000 then [0xE0 + n / 4096, 0x80 + (n / 64) % 64, 0x80 + n % 64]
    else [0xF0 + n / 262144, 0x80 + (n / 4096) % 64, 0x80 + (n / 64) % 64, 0x80 + n % 64]
  }

  /** `%XX` for each byte, upper-case hex. */
  function Percent(bytes: seq<nat>): string
    requires forall k :: 0 <= k < |bytes| ==> bytes[k] < 256
    decreases |bytes|
  {
    if |bytes| == 0 then ""
    else ['%', HexDigits[bytes[0] / 16], HexDigits[bytes[0] % 16]] + Percent(bytes[1..])
  }

  function QuoteChar(c: char): string
  {
    if IsUnreserved(c) then [c] else if c == ' ' then "+" else Percent(Utf8(c))
  }

  /** `quote_plus(s)` */
  function QuotePlus(s: string): string
    decreases |s|
  {
    if |s| == 0 then "" else QuoteChar(s[0]) + QuotePlus(s[1..])
  }

  lemma {:induction false} PercentChars(bytes: seq<nat>)
    requires forall k :: 0 <= k < |bytes| ==> bytes[k] < 256
    ensures All(Percent(bytes), IsQuotedChar)
    ensures |Percent(bytes)| == 3 * |bytes|
    decreases |bytes|
  {
    if |bytes| > 0 {
      PercentChars(bytes[1..]);
    }
  }

  /** A quoted string holds only unreserved characters, `+` and `%`: no space, no brace, no slash. */
  lemma {:induction false} QuotePlusChars(s: string)
    ensures All(QuotePlus(s), IsQuotedChar)
    decreases |s|
  {
    if |s| > 0 {
      QuotePlusChars(s[1..]);
      var c := s[0];
      if !IsUnreserved(c) && c != ' ' {
        PercentChars(Utf8(c));
      }
      assert All(QuoteChar(c), IsQuotedChar);
      var a := QuoteChar(c);
      var b := QuotePlus(s[1..]);
      assert forall i :: 0 <= i < |a + b| ==> (a + b)[i] == if i < |a| then a[i] else b[i - |a|];
    }
  }

  /** Text made only of unreserved characters is left as it is. */
  lemma {:induction false} QuotePlusUnreserved(s: string)
    requires All(s, IsUnreserved)
    ensures QuotePlus(s) == s
    decreases |s|
  {
    if |s| > 0 {
      QuotePlusUnreserved(s[1..]);
      assert [s[0]] + s[1..] == s;
    }
  }

  /** Quoting works character by character: a concatenation is quoted piece by piece. */
  lemma {:induction false} QuotePlusAppend(a: string, b: string)
    ensures QuotePlus(a + b) == QuotePlus(a) + QuotePlus(b)
    decreases |a|
  {
    if |a| > 0 {
      assert (a + b)[0] == a[0] && (a + b)[1..] == a[1..] + b;
      QuotePlusAppend(a[1..], b);
      calc {
        QuotePlus(a + b);
        QuoteChar(a[0]) + QuotePlus(a[1..] + b);
        QuoteChar(a[0]) + (QuotePlus(a[1..]) + QuotePlus(b));
        (QuoteChar(a[0]) + QuotePlus(a[1..])) + QuotePlus(b);
      }
    } else {
      assert a + b == b;
    }
  }

  /** Every space becomes `+`, whatever surrounds it. */
  lemma QuotePlusSpace(a: string, b: string)
    ensures QuotePlus(a + " " + b) == QuotePlus(a) + "+" + QuotePlus(b)
  {
    QuotePlusAppend(a, " " + b);
    QuotePlusAppend(" ", b);
    assert a + " " + b == a + (" " + b);
    assert QuotePlus(" ") == "+" by { assert " "[1..] == ""; }
  }
}
