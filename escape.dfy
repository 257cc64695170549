/** The two escapers of the feed route (app/rss.xml/route.ts): `escapeXml`
    for XML text such as `<link>` and `<guid>`, and `escapeHtml` for text
    placed inside generated HTML. Both are chains of global one-character
    replaces; each is shown equal to a per-character rewriting, from which
    the properties follow. */
module RssEscape {
  import opened Text

  const Amp := "&amp;"
  const Lt := "&lt;"
  const Gt := "&gt;"
  const Quot := "&quot;"
  const Apos := "&apos;"

  predicate IsEntity(t: string) {
    t == Amp || t == Lt || t == Gt || t == Quot || t == Apos
  }

  /** An entity reference is inert against every other one: the only `&`
      is the first character and none is a prefix of another. */
  lemma EntityInert(e: string, pat: string)
    requires IsEntity(e) && IsEntity(pat) && e != pat
    ensures Inert(e, pat)
  {
    if e[1] != pat[1] {
      NotPrefixAt(e, pat, 1);
    } else {
      NotPrefixAt(e, pat, 2);
    }
  }

  /** A character after the first `k` replaces of `escapeXml`. */
  function Escaped(c: char, k: nat): string {
    if k >= 1 && c == '&' then Amp
    else if k >= 2 && c == '<' then Lt
    else if k >= 3 && c == '>' then Gt
    else if k >= 4 && c == '"' then Quot
    else if k >= 5 && c == '\'' then Apos
    else [c]
  }

  function EscapedAt(k: nat): char -> string {
    c => Escaped(c, k)
  }

  /** What `escapeXml` turns one character into. */
  function XmlEntity(c: char): string {
    Escaped(c, 5)
  }

  /** What `escapeHtml` turns one character into. */
  function HtmlEntity(c: char): string {
    Escaped(c, 3)
  }

  /** The one-character pattern of the `k`-th replace, and its entity. */
  function EscapePattern(k: nat): string
    requires 1 <= k <= 5
  {
    ["&<>\"'"[k - 1]]
  }

  function EscapeEntity(k: nat): string
    requires 1 <= k <= 5
  {
    [Amp, Lt, Gt, Quot, Apos][k - 1]
  }

  lemma EscapeTokenInert(c: char, k: nat)
    requires 1 <= k <= 5
    ensures Escaped(c, k - 1) == EscapePattern(k) || Inert(Escaped(c, k - 1), EscapePattern(k))
  {
  }

  /** One replace of the chain, on text written through its first `k - 1`
      steps. */
  lemma EscapeStep(s: string, k: nat)
    requires 1 <= k <= 5
    ensures ReplaceAll(Concat(Map(EscapedAt(k - 1), s)), EscapePattern(k), EscapeEntity(k)) == Concat(Map(EscapedAt(k), s))
  {
    var pat, f := EscapePattern(k), EscapedAt(k - 1);
    forall c ensures f(c) == pat || Inert(f(c), pat) {
      EscapeTokenInert(c, k);
    }
    ReplaceAllMap(s, EscapedAt(k - 1), EscapedAt(k), pat, EscapeEntity(k));
  }

  /** `escapeXml(value)` */
  function EscapeXml(s: string): string {
    ReplaceAll(ReplaceAll(ReplaceAll(ReplaceAll(ReplaceAll(s, "&", Amp), "<", Lt), ">", Gt), "\"", Quot), "'", Apos)
  }

  /** `escapeHtml(value)` */
  function EscapeHtml(s: string): string {
    ReplaceAll(ReplaceAll(ReplaceAll(s, "&", Amp), "<", Lt), ">", Gt)
  }

  /** The three replaces of `escapeHtml` rewrite each character on its
      own. */
  lemma EscapeHtmlChain(s: string)
    ensures EscapeHtml(s) == Concat(Map(EscapedAt(3), s))
  {
    ConcatChars(s);
    assert Map(EscapedAt(0), s) == Chars(s);
    EscapeStep(s, 1);
    EscapeStep(s, 2);
    EscapeStep(s, 3);
  }

  /** `escapeXml` is `escapeHtml` followed by the two quote replaces. */
  lemma EscapeXmlChain(s: string)
    ensures EscapeXml(s) == Concat(Map(EscapedAt(5), s))
  {
    EscapeHtmlChain(s);
    assert EscapeXml(s) == ReplaceAll(ReplaceAll(EscapeHtml(s), "\"", Quot), "'", Apos);
    EscapeStep(s, 4);
    EscapeStep(s, 5);
  }

  function XmlTokens(s: string): (r: seq<string>)
    ensures |r| == |s|
    ensures forall i :: 0 <= i < |s| ==> r[i] == XmlEntity(s[i])
  {
    Map(EscapedAt(5), s)
  }

  function HtmlTokens(s: string): (r: seq<string>)
    ensures |r| == |s|
    ensures forall i :: 0 <= i < |s| ==> r[i] == HtmlEntity(s[i])
  {
    Map(EscapedAt(3), s)
  }

  /** The chain of replaces rewrites each character on its own: `&` first,
      so that the `&` of the later entities is not escaped again. */
  lemma EscapeXmlPerChar(s: string)
    ensures EscapeXml(s) == Concat(XmlTokens(s))
  {
    EscapeXmlChain(s);
  }

  /** Only `&`, `<` and `>` are rewritten; quotes and every other character
      pass through. */
  lemma EscapeHtmlPerChar(s: string)
    ensures EscapeHtml(s) == Concat(HtmlTokens(s))
  {
    EscapeHtmlChain(s);
  }

  /** A character after the first `k` replaces of `UnescapeXml`. */
  function Decoded(c: char, k: nat): string {
    if (k >= 1 && c == '\'') || (k >= 2 && c == '"') || (k >= 3 && c == '>') || (k >= 4 && c == '<') || (k >= 5 && c == '&')
    then [c] else XmlEntity(c)
  }

  function DecodedAt(k: nat): char -> string {
    c => Decoded(c, k)
  }

  function DecodeEntity(k: nat): string
    requires 1 <= k <= 5
  {
    [Apos, Quot, Gt, Lt, Amp][k - 1]
  }

  function DecodeChar(k: nat): string
    requires 1 <= k <= 5
  {
    ["'\"><&"[k - 1]]
  }

  lemma DecodeTokenInert(c: char, k: nat)
    requires 1 <= k <= 5
    ensures Decoded(c, k - 1) == DecodeEntity(k) || Inert(Decoded(c, k - 1), DecodeEntity(k))
  {
    var t, pat := Decoded(c, k - 1), DecodeEntity(k);
    if t != [c] {
      assert IsEntity(t) && IsEntity(pat);
      if t != pat {
        EntityInert(t, pat);
      }
    }
  }

  lemma DecodeStep(s: string, k: nat)
    requires 1 <= k <= 5
    ensures ReplaceAll(Concat(Map(DecodedAt(k - 1), s)), DecodeEntity(k), DecodeChar(k)) == Concat(Map(DecodedAt(k), s))
  {
    var pat, f := DecodeEntity(k), DecodedAt(k - 1);
    forall c ensures f(c) == pat || Inert(f(c), pat) {
      DecodeTokenInert(c, k);
    }
    ReplaceAllMap(s, DecodedAt(k - 1), DecodedAt(k), pat, DecodeChar(k));
  }

  /** Entities are decoded in the reverse order of the escaping, `&amp;`
      last, so that an escaped entity name is not decoded twice. */
  function UnescapeXml(s: string): string {
    ReplaceAll(ReplaceAll(ReplaceAll(ReplaceAll(ReplaceAll(s, Apos, "'"), Quot, "\""), Gt, ">"), Lt, "<"), Amp, "&")
  }

  /** Decoding the escaped text gives back the original. */
  lemma UnescapeEscapeXml(s: string)
    ensures UnescapeXml(EscapeXml(s)) == s
  {
    EscapeXmlPerChar(s);
    assert Map(DecodedAt(0), s) == XmlTokens(s);
    DecodeChain(s);
    assert Map(DecodedAt(5), s) == Chars(s);
    ConcatChars(s);
  }

  /** The five replaces of `UnescapeXml`, one decoding step each. */
  lemma DecodeChain(s: string)
    ensures UnescapeXml(Concat(Map(DecodedAt(0), s))) == Concat(Map(DecodedAt(5), s))
  {
    DecodeStep(s, 1);
    DecodeStep(s, 2);
    DecodeStep(s, 3);
    DecodeStep(s, 4);
    DecodeStep(s, 5);
  }

  /** An entity reference `escapeXml` emits starts at index `k`. */
  predicate XmlEntityAt(r: string, k: nat) {
    OccursAt(r, Amp, k) || OccursAt(r, Lt, k) || OccursAt(r, Gt, k) || OccursAt(r, Quot, k) || OccursAt(r, Apos, k)
  }

  /** A token `escapeXml` emits: an entity reference, or one character
      other than `&`. */
  predicate XmlToken(t: string) {
    IsEntity(t) || (|t| == 1 && t[0] != '&')
  }

  lemma AmpersandShift(t: string, rest: string, j: nat)
    requires j < |rest| && XmlEntityAt(rest, j)
    ensures XmlEntityAt(t + rest, |t| + j)
  {
    if OccursAt(rest, Amp, j) {
      OccursAtShift(t, rest, Amp, j);
    } else if OccursAt(rest, Lt, j) {
      OccursAtShift(t, rest, Lt, j);
    } else if OccursAt(rest, Gt, j) {
      OccursAtShift(t, rest, Gt, j);
    } else if OccursAt(rest, Quot, j) {
      OccursAtShift(t, rest, Quot, j);
    } else {
      OccursAtShift(t, rest, Apos, j);
    }
  }

  /** Every `&` of `r` begins an entity reference. */
  predicate AmpersandsEscaped(r: string) {
    forall k :: 0 <= k < |r| && r[k] == '&' ==> XmlEntityAt(r, k)
  }

  lemma {:induction false} TokensAmpersands(ts: seq<string>)
    requires forall i :: 0 <= i < |ts| ==> XmlToken(ts[i])
    ensures AmpersandsEscaped(Concat(ts))
  {
    if ts != [] {
      var t, rest := ts[0], Concat(ts[1..]);
      TokensAmpersands(ts[1..]);
      assert AmpersandsEscaped(rest);
      forall k | 0 <= k < |t + rest| && (t + rest)[k] == '&' ensures XmlEntityAt(t + rest, k) {
        if k < |t| {
          assert k == 0 && (t + rest)[..|t|] == t;
        } else {
          var j := k - |t|;
          assert rest[j] == '&';
          AmpersandShift(t, rest, j);
        }
      }
    }
  }

  lemma XmlTokensAreTokens(s: string)
    ensures forall i :: 0 <= i < |s| ==> XmlToken(XmlTokens(s)[i])
  {
  }

  /** The escaped text holds no `<`, `>`, `"` or `'`. */
  lemma EscapeXmlNoMarkup(s: string)
    ensures var r := EscapeXml(s); '<' !in r && '>' !in r && '"' !in r && '\'' !in r
  {
    EscapeXmlPerChar(s);
    XmlTokensAvoid(s, '<');
    XmlTokensAvoid(s, '>');
    XmlTokensAvoid(s, '"');
    XmlTokensAvoid(s, '\'');
  }

  lemma XmlTokensAvoid(s: string, c: char)
    requires c == '<' || c == '>' || c == '"' || c == '\''
    ensures c !in Concat(XmlTokens(s))
  {
    var ts := XmlTokens(s);
    forall i | 0 <= i < |ts| ensures c !in ts[i] {
      assert ts[i] == XmlEntity(s[i]);
    }
    ConcatAvoids(ts, c);
  }

  /** Every `&` of the escaped text begins one of the five entity
      references. */
  lemma EscapeXmlAmpersands(s: string)
    ensures AmpersandsEscaped(EscapeXml(s))
  {
    EscapeXmlPerChar(s);
    XmlTokensAreTokens(s);
    TokensAmpersands(XmlTokens(s));
  }

  /** Text with none of `&`, `<`, `>` comes back unchanged. */
  lemma EscapeHtmlUnchanged(s: string)
    requires '&' !in s && '<' !in s && '>' !in s
    ensures EscapeHtml(s) == s
  {
    assert s + [] == s;
    ReplaceAllPassThrough(s, [], "&", Amp);
    ReplaceAllPassThrough(s, [], "<", Lt);
    ReplaceAllPassThrough(s, [], ">", Gt);
  }

  /** The escaped text holds no `<` or `>`. */
  lemma EscapeHtmlSafe(s: string)
    ensures '<' !in EscapeHtml(s) && '>' !in EscapeHtml(s)
  {
    EscapeHtmlPerChar(s);
    ConcatAvoids(HtmlTokens(s), '<');
    ConcatAvoids(HtmlTokens(s), '>');
  }
}
