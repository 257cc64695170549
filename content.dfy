/** `formatContent` of the feed route (app/rss.xml/route.ts): a post body
    turned into HTML paragraphs for `<content:encoded>`. Blank bodies give
    the empty string; otherwise line endings are normalised, the text is
    split at blank lines, and each block is escaped and has its remaining
    line breaks written as `<br/>`. */
module RssContent {
  import opened Text
  import opened RssEscape

  predicate IsNewline(c: char) {
    c == '\n'
  }

  /** No two line feeds in a row. */
  predicate NoBlankLine(b: string) {
    forall i :: 0 <= i < |b| - 1 ==> !(b[i] == '\n' && b[i + 1] == '\n')
  }

  /** No three line feeds in a row. */
  predicate NoTripleNewline(s: string) {
    forall i :: 0 <= i < |s| - 2 ==> !(s[i] == '\n' && s[i + 1] == '\n' && s[i + 2] == '\n')
  }

  /** `s.split(/\n{2,}/)`: the text between the runs of two or more line
      feeds, each run matched whole. */
  function SplitBlocks(s: string): (r: seq<string>)
    ensures |r| >= 1 && r[0] <= s
    ensures forall i :: 0 <= i < |r| ==> NoBlankLine(r[i])
    decreases |s|
  {
    if s == [] then [[]]
    else if "\n\n" <= s then [[]] + SplitBlocks(DropWhile(s, IsNewline))
    else
      var r := SplitBlocks(s[1..]);
      var b := [s[0]] + r[0];
      assert NoBlankLine(b) by {
        if |r[0]| > 0 {
          assert r[0][0] == s[1];
        }
        assert forall i :: 1 <= i < |b| ==> b[i] == r[0][i - 1];
      }
      [b] + r[1..]
  }

  lemma JoinPrepend(c: char, r: seq<string>, sep: string)
    requires |r| >= 1
    ensures Join([[c] + r[0]] + r[1..], sep) == [c] + Join(r, sep)
  {
    var r' := [[c] + r[0]] + r[1..];
    if |r| > 1 {
      assert r'[1..] == r[1..];
    }
  }

  lemma TailNoTriple(s: string, k: nat)
    requires k <= |s| && NoTripleNewline(s)
    ensures NoTripleNewline(s[k..])
  {
    assert forall i :: 0 <= i < |s| - k ==> s[k..][i] == s[i + k];
  }

  /** A blank line of exactly two line feeds is dropped whole. */
  lemma DropBlankLine(s: string)
    requires "\n\n" <= s && NoTripleNewline(s)
    ensures DropWhile(s, IsNewline) == s[2..]
  {
    assert s[0] == '\n' && s[1] == '\n';
    var rest := s[2..];
    assert rest == [] || rest[0] != '\n';
    assert s[1..][1..] == rest;
  }

  /** Where no run of line feeds is longer than two, joining the blocks
      with a blank line gives back the text. */
  lemma {:induction false} SplitBlocksJoin(s: string)
    requires NoTripleNewline(s)
    ensures Join(SplitBlocks(s), "\n\n") == s
    decreases |s|
  {
    if s == [] {
    } else if "\n\n" <= s {
      TailNoTriple(s, 2);
      SplitBlocksJoin(s[2..]);
      JoinBlankLine(s);
    } else {
      TailNoTriple(s, 1);
      SplitBlocksJoin(s[1..]);
      JoinChar(s);
    }
  }

  /** The step of `SplitBlocksJoin` over a blank line. */
  lemma JoinBlankLine(s: string)
    requires "\n\n" <= s && NoTripleNewline(s)
    requires Join(SplitBlocks(s[2..]), "\n\n") == s[2..]
    ensures Join(SplitBlocks(s), "\n\n") == s
  {
    var rest := s[2..];
    DropBlankLine(s);
    assert SplitBlocks(s) == [[]] + SplitBlocks(rest);
    assert s == "\n\n" + rest;
  }

  /** The step of `SplitBlocksJoin` over a character of a block. */
  lemma JoinChar(s: string)
    requires s != [] && !("\n\n" <= s)
    requires Join(SplitBlocks(s[1..]), "\n\n") == s[1..]
    ensures Join(SplitBlocks(s), "\n\n") == s
  {
    JoinPrepend(s[0], SplitBlocks(s[1..]), "\n\n");
    assert s == [s[0]] + s[1..];
  }

  /** What a block character becomes in the paragraph body. */
  function LineToken(c: char): string {
    if c == '\n' then "<br/>" else HtmlEntity(c)
  }

  /** `escapeHtml(block).replace(/\n/g, "<br/>")` */
  function ParagraphBody(b: string): string {
    ReplaceAll(EscapeHtml(b), "\n", "<br/>")
  }

  /** The paragraph body rewrites each character on its own. */
  lemma ParagraphBodyPerChar(b: string)
    ensures ParagraphBody(b) == Concat(Map(LineToken, b))
  {
    EscapeHtmlChain(b);
    var f := EscapedAt(3);
    forall c ensures f(c) == "\n" || Inert(f(c), "\n") {
    }
    ReplaceAllMap(b, f, LineToken, "\n", "<br/>");
  }

  /** A token of a paragraph body: the line break, or text without `<`. */
  predicate BodyToken(t: string) {
    t == "<br/>" || '<' !in t
  }

  /** Every `<` of `r` begins a `<br/>`. */
  predicate OnlyBreakTags(r: string) {
    forall k :: 0 <= k < |r| && r[k] == '<' ==> OccursAt(r, "<br/>", k)
  }

  lemma {:induction false} TokensOnlyBreakTags(ts: seq<string>)
    requires forall i :: 0 <= i < |ts| ==> BodyToken(ts[i])
    ensures OnlyBreakTags(Concat(ts))
  {
    if ts != [] {
      var t, rest := ts[0], Concat(ts[1..]);
      TokensOnlyBreakTags(ts[1..]);
      assert OnlyBreakTags(rest);
      forall k | 0 <= k < |t + rest| && (t + rest)[k] == '<' ensures OccursAt(t + rest, "<br/>", k) {
        if k < |t| {
          assert t[k] == '<' && t == "<br/>";
          assert k == 0 && (t + rest)[..|t|] == t;
        } else {
          var j := k - |t|;
          assert rest[j] == '<';
          OccursAtShift(t, rest, "<br/>", j);
        }
      }
    }
  }

  /** A paragraph body holds no line feed, and its only tag is `<br/>`. */
  lemma ParagraphBodyClean(b: string)
    ensures '\n' !in ParagraphBody(b)
    ensures OnlyBreakTags(ParagraphBody(b))
  {
    ReplaceAllRemovesChar(EscapeHtml(b), '\n', "<br/>");
    ParagraphBodyPerChar(b);
    var ts := Map(LineToken, b);
    forall i | 0 <= i < |ts| ensures BodyToken(ts[i]) {
      assert ts[i] == LineToken(b[i]);
    }
    TokensOnlyBreakTags(ts);
  }

  function Paragraph(b: string): string {
    "<p>" + ParagraphBody(b) + "</p>"
  }

  /** `blocks.map(...).join("")` */
  function Paragraphs(bs: seq<string>): (r: string)
    ensures bs != [] ==> |r| >= 7 && r[..3] == "<p>" && r[|r| - 4..] == "</p>"
    ensures '\n' !in r
  {
    if bs == [] then []
    else
      ParagraphBodyClean(bs[0]);
      Paragraph(bs[0]) + Paragraphs(bs[1..])
  }

  /** The length of the text before the first `</p>` of `t`, or all of it. */
  function BodyLength(t: string): (n: nat)
    ensures n <= |t|
    decreases |t|
  {
    if t == [] || "</p>" <= t then 0 else 1 + BodyLength(t[1..])
  }

  /** Reads the paragraph bodies back out of a run of paragraphs: every
      `<p>` opens a body that ends at the next `</p>`. */
  function Unparagraphs(r: string): seq<string>
    decreases |r|
  {
    if !("<p>" <= r) then []
    else
      var t := r[3..];
      var n := BodyLength(t);
      if n + 4 <= |t| then [t[..n]] + Unparagraphs(t[n + 4..]) else [t[..n]]
  }

  /** The paragraph body of every block, in order. */
  function ParagraphBodies(bs: seq<string>): seq<string> {
    seq(|bs|, i requires 0 <= i < |bs| => ParagraphBody(bs[i]))
  }

  /** A body whose only tag is `<br/>` ends at the `</p>` that follows it. */
  lemma {:induction false} BodyLengthAt(b: string, rest: string)
    requires OnlyBreakTags(b)
    ensures BodyLength(b + "</p>" + rest) == |b|
    decreases |b|
  {
    var t := b + "</p>" + rest;
    if b == [] {
      assert t == "</p>" + rest;
    } else {
      assert t[0] == b[0];
      if b[0] == '<' {
        assert OccursAt(b, "<br/>", 0);
        assert t[1] == b[1] == 'b';
      }
      assert !("</p>" <= t);
      assert t[1..] == b[1..] + "</p>" + rest;
      forall k | 0 <= k < |b[1..]| && b[1..][k] == '<' ensures OccursAt(b[1..], "<br/>", k) {
        assert OccursAt(b, "<br/>", k + 1);
        assert b[1..][k..k + 5] == b[k + 1..k + 6];
      }
      BodyLengthAt(b[1..], rest);
    }
  }

  /** A paragraph whose body's only tag is `<br/>` is read back whole. */
  lemma UnparagraphsCons(b: string, rest: string)
    requires OnlyBreakTags(b)
    ensures Unparagraphs("<p>" + b + "</p>" + rest) == [b] + Unparagraphs(rest)
  {
    var t := b + "</p>" + rest;
    var r := "<p>" + b + "</p>" + rest;
    assert r == "<p>" + t;
    assert "<p>" <= r && r[3..] == t;
    BodyLengthAt(b, rest);
    assert t[..|b|] == b && t[|b| + 4..] == rest;
  }

  /** The paragraphs are read back as the bodies of their blocks, one per
      block. */
  lemma {:induction false} UnparagraphsParagraphs(bs: seq<string>)
    ensures Unparagraphs(Paragraphs(bs)) == ParagraphBodies(bs)
  {
    if bs != [] {
      var b := ParagraphBody(bs[0]);
      var rest := Paragraphs(bs[1..]);
      ParagraphBodyClean(bs[0]);
      UnparagraphsParagraphs(bs[1..]);
      assert Paragraphs(bs) == "<p>" + b + "</p>" + rest;
      UnparagraphsCons(b, rest);
      ParagraphBodiesCons(bs);
    }
  }

  lemma ParagraphBodiesCons(bs: seq<string>)
    requires bs != []
    ensures ParagraphBodies(bs) == [ParagraphBody(bs[0])] + ParagraphBodies(bs[1..])
  {
    var ps, qs := ParagraphBodies(bs), ParagraphBodies(bs[1..]);
    assert forall i :: 1 <= i < |ps| ==> ps[i] == qs[i - 1];
  }

  /** `content.replace(/\r\n/g, "\n")` */
  function NormalizeNewlines(s: string): string {
    ReplaceAll(s, "\r\n", "\n")
  }

  /** `formatContent(content)`: empty exactly for blank content, otherwise a
      run of paragraphs with no line feed left. */
  function FormatContent(content: string): (r: string)
    ensures r == [] <==> AllSpace(content)
    ensures r != [] ==> |r| >= 7 && r[..3] == "<p>" && r[|r| - 4..] == "</p>"
    ensures '\n' !in r
  {
    if Trim(content) == [] then []
    else Paragraphs(SplitBlocks(NormalizeNewlines(content)))
  }

  /** Content that is not blank gives one paragraph per block of its
      normalised text, and each paragraph's body is its block rewritten
      character by character. */
  lemma FormatContentBlocks(content: string)
    ensures var bs := SplitBlocks(NormalizeNewlines(content));
      var ps := Unparagraphs(FormatContent(content));
      && (AllSpace(content) ==> ps == [])
      && (!AllSpace(content) ==> ps == ParagraphBodies(bs) && |ps| == |bs|)
      && (!AllSpace(content) ==> forall i :: 0 <= i < |bs| ==> ps[i] == Concat(Map(LineToken, bs[i])))
  {
    var bs := SplitBlocks(NormalizeNewlines(content));
    if !AllSpace(content) {
      UnparagraphsParagraphs(bs);
      forall i | 0 <= i < |bs| ensures ParagraphBodies(bs)[i] == Concat(Map(LineToken, bs[i])) {
        ParagraphBodyPerChar(bs[i]);
      }
    }
  }
}
