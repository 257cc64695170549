/** `wrapCdata` of the feed route (app/rss.xml/route.ts): text placed in a
    CDATA section, each embedded `]]>` split across two sections so that no
    section ends early. */
module RssCdata {
  import opened Text

  const Open := "<![CDATA["
  const Close := "]]>"

  /** What every `]]>` of the value is replaced with: the first two
      characters close the current section, the `>` opens the next. */
  const Split := "]]]]><![CDATA[>"

  /** `wrapCdata(value)` */
  function WrapCdata(v: string): (r: string)
    ensures |r| >= |Open| + |Close|
    ensures r[..|Open|] == Open && r[|r| - |Close|..] == Close
  {
    Open + ReplaceAll(v, Close, Split) + Close
  }

  /** One CDATA section with body `b`. */
  function Section(b: string): string {
    Open + b + Close
  }

  function Sections(bs: seq<string>): string {
    if bs == [] then [] else Section(bs[0]) + Sections(bs[1..])
  }

  /** The bodies of the sections `wrapCdata` emits, once `pre` is already
      in the open section and `s` is still to be scanned. */
  function BodiesFrom(pre: string, s: string): (r: seq<string>)
    ensures |r| >= 1
    decreases |s|
  {
    if s == [] then [pre]
    else if Close <= s then [pre + "]]"] + BodiesFrom(">", s[|Close|..])
    else BodiesFrom(pre + [s[0]], s[1..])
  }

  function Bodies(v: string): (r: seq<string>)
    ensures |r| >= 1
  {
    BodiesFrom([], v)
  }

  lemma {:induction false} WrapFrom(pre: string, s: string)
    ensures Open + pre + ReplaceAll(s, Close, Split) + Close == Sections(BodiesFrom(pre, s))
    decreases |s|
  {
    if s == [] {
      assert Sections([pre]) == Section(pre) + Sections([]);
    } else if Close <= s {
      WrapFrom(">", s[|Close|..]);
      WrapFromClose(pre, s);
    } else {
      WrapFrom(pre + [s[0]], s[1..]);
      WrapFromChar(pre, s);
    }
  }

  /** The step of `WrapFrom` over a character that starts no `]]>`: it
      joins the open section. */
  lemma WrapFromChar(pre: string, s: string)
    requires s != [] && !(Close <= s)
    requires Open + (pre + [s[0]]) + ReplaceAll(s[1..], Close, Split) + Close == Sections(BodiesFrom(pre + [s[0]], s[1..]))
    ensures Open + pre + ReplaceAll(s, Close, Split) + Close == Sections(BodiesFrom(pre, s))
  {
    var r := ReplaceAll(s[1..], Close, Split);
    assert ReplaceAll(s, Close, Split) == [s[0]] + r;
    assert BodiesFrom(pre, s) == BodiesFrom(pre + [s[0]], s[1..]);
    Shift(Open, pre, [s[0]], r, Close);
  }

  lemma Shift(o: string, p: string, x: string, r: string, c: string)
    ensures o + p + (x + r) + c == o + (p + x) + r + c
  {
  }

  /** The step of `WrapFrom` over a `]]>`: the open section is closed and
      the rest goes on in a new one that starts with `>`. */
  lemma WrapFromClose(pre: string, s: string)
    requires Close <= s
    requires var rest := s[|Close|..];
      Open + ">" + ReplaceAll(rest, Close, Split) + Close == Sections(BodiesFrom(">", rest))
    ensures Open + pre + ReplaceAll(s, Close, Split) + Close == Sections(BodiesFrom(pre, s))
  {
    var rest := s[|Close|..];
    var bs := BodiesFrom(pre, s);
    assert bs == [pre + "]]"] + BodiesFrom(">", rest);
    var r := ReplaceAll(rest, Close, Split);
    assert ReplaceAll(s, Close, Split) == Split + r;
    SplitParts();
    Regroup(Open, pre, "]]", Close, ">", r);
    assert Sections(bs) == Section(pre + "]]") + Sections(BodiesFrom(">", rest));
  }

  lemma SplitParts()
    ensures Split == "]]" + Close + Open + ">"
  {
  }

  lemma Regroup(o: string, p: string, d: string, c: string, g: string, r: string)
    ensures o + p + (d + c + o + g + r) + c == (o + (p + d) + c) + (o + g + r + c)
  {
  }

  lemma {:induction false} BodiesConcat(pre: string, s: string)
    ensures Concat(BodiesFrom(pre, s)) == pre + s
    decreases |s|
  {
    var bs := BodiesFrom(pre, s);
    if s == [] {
      assert Concat(bs) == pre + Concat([]);
    } else if Close <= s {
      var rest := s[|Close|..];
      BodiesConcat(">", rest);
      assert bs[0] == pre + "]]" && bs[1..] == BodiesFrom(">", rest);
      assert s == "]]" + ">" + rest;
    } else {
      BodiesConcat(pre + [s[0]], s[1..]);
      assert pre + s == (pre + [s[0]]) + s[1..];
    }
  }

  /** No `]]>` starts in `pre`, counting the text that follows it. */
  predicate NoCloseBefore(pre: string, s: string) {
    forall k: nat :: k < |pre| ==> !OccursAt(pre + s, Close, k)
  }

  /** A prefix of `t` holds no `]]>` when none starts early enough in `t`
      to fit in it. */
  lemma PrefixFree(b: string, t: string)
    requires b <= t
    requires forall k: nat :: k + |Close| <= |b| ==> !OccursAt(t, Close, k)
    ensures !Contains(b, Close)
  {
    forall k: nat | k <= |b| ensures !OccursAt(b, Close, k) {
      if OccursAt(b, Close, k) {
        assert t[k..k + 3] == b[k..k + 3];
        assert OccursAt(t, Close, k);
      }
    }
  }

  lemma {:induction false} BodiesFree(pre: string, s: string)
    requires NoCloseBefore(pre, s)
    ensures forall i :: 0 <= i < |BodiesFrom(pre, s)| ==> !Contains(BodiesFrom(pre, s)[i], Close)
    decreases |s|
  {
    var bs := BodiesFrom(pre, s);
    if s == [] {
      assert pre + s == pre && pre[|pre|..] == [];
      PrefixFree(pre, pre);
    } else if Close <= s {
      var rest := s[|Close|..];
      assert (">" + rest)[0] == '>';
      assert NoCloseBefore(">", rest);
      BodiesFree(">", rest);
      var b := pre + "]]";
      assert (pre + s)[..|b|] == b;
      PrefixFree(b, pre + s);
      assert bs == [b] + BodiesFrom(">", rest);
    } else {
      var pre', s' := pre + [s[0]], s[1..];
      assert pre' + s' == pre + s;
      assert !OccursAt(pre + s, Close, |pre|);
      assert NoCloseBefore(pre', s');
      BodiesFree(pre', s');
    }
  }

  /** The sections `wrapCdata` emits: the output is their serialisation,
      their bodies concatenate to the value, and no body holds `]]>`. */
  lemma WrapCdataSections(v: string)
    ensures WrapCdata(v) == Sections(Bodies(v))
    ensures Concat(Bodies(v)) == v
    ensures forall i :: 0 <= i < |Bodies(v)| ==> !Contains(Bodies(v)[i], Close)
  {
    WrapFrom([], v);
    assert Open + [] == Open;
    BodiesConcat([], v);
    BodiesFree([], v);
  }

  lemma {:induction false} BodiesFromFree(pre: string, s: string)
    requires !Contains(s, Close)
    ensures BodiesFrom(pre, s) == [pre + s]
    decreases |s|
  {
    if s == [] {
      assert pre + s == pre;
    } else {
      assert !OccursAt(s, Close, 0);
      assert !(Close <= s);
      assert !Contains(s[1..], Close) by {
        forall k: nat | k <= |s[1..]| && OccursAt(s[1..], Close, k) ensures false {
          assert s[1..][k..k + 3] == s[k + 1..k + 4];
          assert OccursAt(s, Close, k + 1);
        }
      }
      BodiesFromFree(pre + [s[0]], s[1..]);
      assert (pre + [s[0]]) + s[1..] == pre + s;
      assert BodiesFrom(pre, s) == BodiesFrom(pre + [s[0]], s[1..]);
    }
  }

  /** A value without `]]>` goes into a single section as it is. */
  lemma WrapCdataFree(v: string)
    requires !Contains(v, Close)
    ensures WrapCdata(v) == Open + v + Close
  {
    WrapCdataSections(v);
    BodiesFromFree([], v);
    assert Sections([v]) == Section(v) + Sections([]);
  }
}
