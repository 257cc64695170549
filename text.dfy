/** The JavaScript string primitives the site relies on, stated over
    `seq<char>`: whitespace and `trim`, ASCII case mapping, `includes`,
    `endsWith`, global literal `replace`, `join`, and the order that stands
    in for `localeCompare`. */
module Text {

  /** The characters JavaScript counts as WhiteSpace or LineTerminator: what
      the regular expression class `\s` matches and what `trim` removes. */
  predicate IsSpace(c: char) {
    || c == ' ' || c == '\t' || c == '\n' || c == '\r' || c == '\U{000B}' || c == '\U{000C}'
    || c == '\U{00A0}' || c == '\U{1680}' || ('\U{2000}' <= c <= '\U{200A}')
    || c == '\U{2028}' || c == '\U{2029}' || c == '\U{202F}' || c == '\U{205F}'
    || c == '\U{3000}' || c == '\U{FEFF}'
  }

  predicate AllSpace(s: string) {
    forall i :: 0 <= i < |s| ==> IsSpace(s[i])
  }

  /** `s.trimStart()` */
  function TrimStart(s: string): (r: string)
    ensures |r| <= |s| && r == s[|s| - |r|..]
    ensures AllSpace(s[..|s| - |r|])
    ensures r == [] || !IsSpace(r[0])
  {
    if s != [] && IsSpace(s[0]) then
      var t := s[1..];
      var r := TrimStart(t);
      assert s[|s| - |r|..] == t[|t| - |r|..];
      assert s[..|s| - |r|] == [s[0]] + t[..|t| - |r|];
      r
    else s
  }

  /** `s.trimEnd()` */
  function TrimEnd(s: string): (r: string)
    ensures |r| <= |s| && r == s[..|r|]
    ensures AllSpace(s[|r|..])
    ensures r == [] || !IsSpace(r[|r| - 1])
  {
    if s != [] && IsSpace(s[|s| - 1]) then
      var p := s[..|s| - 1];
      var r := TrimEnd(p);
      assert s[..|r|] == p[..|r|];
      assert s[|r|..] == p[|r|..] + [s[|s| - 1]];
      r
    else s
  }

  lemma TrimStartEmpty(s: string)
    ensures TrimStart(s) == [] <==> AllSpace(s)
  {
    var t := TrimStart(s);
    if t == [] {
      assert s[..|s|] == s;
    } else {
      assert t[0] == s[|s| - |t|];
    }
  }

  lemma TrimEndEmpty(s: string)
    ensures TrimEnd(s) == [] <==> AllSpace(s)
  {
    var r := TrimEnd(s);
    if r == [] {
      assert s[0..] == s;
    } else {
      assert r[|r| - 1] == s[|r| - 1];
    }
  }

  lemma TrimBlank(s: string)
    ensures TrimEnd(TrimStart(s)) == [] <==> AllSpace(s)
  {
    var t := TrimStart(s);
    TrimStartEmpty(s);
    TrimEndEmpty(t);
    assert AllSpace(t) ==> t == [];
  }

  lemma TrimEdges(s: string)
    ensures var r := TrimEnd(TrimStart(s)); r == [] || (!IsSpace(r[0]) && !IsSpace(r[|r| - 1]))
  {
    var t := TrimStart(s);
    var r := TrimEnd(t);
    assert r != [] ==> r[0] == t[0];
  }

  lemma TrimMembers(s: string)
    ensures forall c :: c in TrimEnd(TrimStart(s)) ==> c in s
  {
    var t := TrimStart(s);
    SliceMembers(s, |s| - |t|, |s|);
    SliceMembers(t, 0, |TrimEnd(t)|);
  }

  /** `s.trim()`: the text between the leading and the trailing whitespace. */
  function Trim(s: string): (r: string)
    ensures r == [] <==> AllSpace(s)
    ensures r == [] || (!IsSpace(r[0]) && !IsSpace(r[|r| - 1]))
    ensures forall c :: c in r ==> c in s
  {
    TrimBlank(s);
    TrimEdges(s);
    TrimMembers(s);
    TrimEnd(TrimStart(s))
  }

  /** `r` is the slice of `s` at `k` with only whitespace on either side. */
  predicate TrimmedAt(s: string, r: string, k: nat) {
    k + |r| <= |s| && r == s[k..k + |r|] && AllSpace(s[..k]) && AllSpace(s[k + |r|..])
  }

  /** `trim` returns the slice of the text between its leading and its
      trailing whitespace. */
  lemma TrimSlice(s: string)
    ensures exists k :: TrimmedAt(s, Trim(s), k)
  {
    var t := TrimStart(s);
    var r := TrimEnd(t);
    var k := |s| - |t|;
    assert s[k + |r|..] == t[|r|..];
    assert r == s[k..k + |r|];
    assert TrimmedAt(s, Trim(s), k);
  }

  lemma SliceMembers(s: string, k: nat, j: nat)
    requires k <= j <= |s|
    ensures forall c :: c in s[k..j] ==> c in s
  {
  }

  /** Text without leading or trailing whitespace is its own trim. */
  lemma TrimUnchanged(s: string)
    requires s == [] || (!IsSpace(s[0]) && !IsSpace(s[|s| - 1]))
    ensures Trim(s) == s
  {
  }

  predicate IsAsciiUpper(c: char) { 'A' <= c <= 'Z' }
  predicate IsAsciiLower(c: char) { 'a' <= c <= 'z' }

  /** `toLowerCase` on one character (ASCII letters only). */
  function ToLowerChar(c: char): char {
    if IsAsciiUpper(c) then (c as int + 32) as char else c
  }

  /** `toUpperCase` on one character (ASCII letters only). */
  function ToUpperChar(c: char): char {
    if IsAsciiLower(c) then (c as int - 32) as char else c
  }

  /** `s.toLowerCase()` */
  function ToLower(s: string): (r: string)
    ensures |r| == |s|
    ensures forall i :: 0 <= i < |s| ==> r[i] == ToLowerChar(s[i])
  {
    seq(|s|, i requires 0 <= i < |s| => ToLowerChar(s[i]))
  }

  lemma ToLowerAppend(a: string, b: string)
    ensures ToLower(a + b) == ToLower(a) + ToLower(b)
  {
    assert forall i :: 0 <= i < |a + b| ==> ToLower(a + b)[i] == (ToLower(a) + ToLower(b))[i];
  }

  lemma ToLowerIdempotent(s: string)
    ensures ToLower(ToLower(s)) == ToLower(s)
  {
  }

  /** Lower-casing neither makes nor removes whitespace. */
  lemma SpaceLower(c: char)
    ensures IsSpace(ToLowerChar(c)) <==> IsSpace(c)
  {
  }

  lemma ToLowerDrop(s: string, k: nat)
    requires k <= |s|
    ensures ToLower(s)[k..] == ToLower(s[k..])
  {
  }

  lemma ToLowerTake(s: string, k: nat)
    requires k <= |s|
    ensures ToLower(s)[..k] == ToLower(s[..k])
  {
  }

  lemma {:induction false} TrimStartToLower(s: string)
    ensures TrimStart(ToLower(s)) == ToLower(TrimStart(s))
  {
    if s != [] {
      var l := ToLower(s);
      SpaceLower(s[0]);
      assert l[0] == ToLowerChar(s[0]);
      if IsSpace(s[0]) {
        ToLowerDrop(s, 1);
        TrimStartToLower(s[1..]);
        assert TrimStart(l) == TrimStart(l[1..]);
        assert TrimStart(s) == TrimStart(s[1..]);
      } else {
        assert TrimStart(l) == l;
        assert TrimStart(s) == s;
      }
    }
  }

  lemma {:induction false} TrimEndToLower(s: string)
    ensures TrimEnd(ToLower(s)) == ToLower(TrimEnd(s))
  {
    if s != [] {
      var n := |s| - 1;
      var l := ToLower(s);
      SpaceLower(s[n]);
      assert l[n] == ToLowerChar(s[n]);
      if IsSpace(s[n]) {
        var p := s[..n];
        ToLowerTake(s, n);
        TrimEndToLower(p);
        assert TrimEnd(l) == TrimEnd(l[..n]);
        assert TrimEnd(s) == TrimEnd(p);
      } else {
        assert TrimEnd(l) == l;
        assert TrimEnd(s) == s;
      }
    }
  }

  /** Lower-casing and trimming commute: no ASCII letter is whitespace. */
  lemma TrimToLower(s: string)
    ensures Trim(ToLower(s)) == ToLower(Trim(s))
  {
    TrimStartToLower(s);
    TrimEndToLower(TrimStart(s));
  }

  /** `query.trim().toLowerCase()`: the form in which the search boxes
      compare a query. */
  function NormalizeQuery(q: string): string {
    ToLower(Trim(q))
  }

  /** The case in which a query is typed does not matter. */
  lemma NormalizeQueryCase(q: string)
    ensures NormalizeQuery(ToLower(q)) == NormalizeQuery(q)
  {
    var t := Trim(q);
    TrimToLower(q);
    assert Trim(ToLower(q)) == ToLower(t);
    ToLowerIdempotent(t);
  }

  /** Normalising a normalised query changes nothing. */
  lemma NormalizeQueryIdempotent(q: string)
    ensures NormalizeQuery(NormalizeQuery(q)) == NormalizeQuery(q)
  {
    var t := Trim(q);
    TrimIdempotent(q);
    var n := ToLower(t);
    TrimToLower(t);
    assert Trim(n) == n;
    ToLowerIdempotent(t);
  }

  lemma TrimIdempotent(s: string)
    ensures Trim(Trim(s)) == Trim(s)
  {
    TrimUnchanged(Trim(s));
  }

  /** A query normalises to the empty string exactly when it is blank. */
  lemma NormalizeQueryEmpty(q: string)
    ensures NormalizeQuery(q) == [] <==> AllSpace(q)
  {
  }

  /** `s.endsWith(suffix)` */
  predicate EndsWith(s: string, suffix: string) {
    |suffix| <= |s| && s[|s| - |suffix|..] == suffix
  }

  /** `t` occurs in `s` starting at index `k`. */
  predicate OccursAt(s: string, t: string, k: nat) {
    k + |t| <= |s| && s[k..k + |t|] == t
  }

  /** `s.includes(t)` */
  predicate Contains(s: string, t: string) {
    exists k: nat | k <= |s| :: OccursAt(s, t, k)
  }

  /** `s.replace(/pat/g, rep)` for a literal pattern: the matches are found
      from left to right and do not overlap. */
  function ReplaceAll(s: string, pat: string, rep: string): string
    requires pat != []
    decreases |s|
  {
    if s == [] then []
    else if pat <= s then rep + ReplaceAll(s[|pat|..], pat, rep)
    else [s[0]] + ReplaceAll(s[1..], pat, rep)
  }

  /** Text that holds no character that could start a match passes through. */
  lemma {:induction false} ReplaceAllPassThrough(u: string, rest: string, pat: string, rep: string)
    requires pat != [] && pat[0] !in u
    ensures ReplaceAll(u + rest, pat, rep) == u + ReplaceAll(rest, pat, rep)
  {
    if u == [] {
      assert u + rest == rest;
    } else {
      assert (u + rest)[0] == u[0];
      assert !(pat <= u + rest);
      assert (u + rest)[1..] == u[1..] + rest;
      ReplaceAllPassThrough(u[1..], rest, pat, rep);
      assert u == [u[0]] + u[1..];
    }
  }

  /** Replacing a single character by text without it removes every
      occurrence of that character. */
  lemma {:induction false} ReplaceAllRemovesChar(s: string, c: char, rep: string)
    requires c !in rep
    ensures c !in ReplaceAll(s, [c], rep)
    decreases |s|
  {
    if s != [] {
      if [c] <= s {
        ReplaceAllRemovesChar(s[1..], c, rep);
      } else {
        ReplaceAllRemovesChar(s[1..], c, rep);
      }
    }
  }

  /** Replacing a character by text that avoids `d` leaves `d` absent. */
  lemma {:induction false} ReplaceAllKeepsAbsent(s: string, pat: string, rep: string, d: char)
    requires pat != [] && d !in s && d !in rep
    ensures d !in ReplaceAll(s, pat, rep)
    decreases |s|
  {
    if s != [] {
      if pat <= s {
        ReplaceAllKeepsAbsent(s[|pat|..], pat, rep, d);
      } else {
        ReplaceAllKeepsAbsent(s[1..], pat, rep, d);
      }
    }
  }

  /** Token `t` cannot hold a match of `pat`, nor the start of one that runs
      on past it: `pat`'s first character occurs in `t` at most at its start,
      and then neither of the two is a prefix of the other. */
  predicate Inert(t: string, pat: string) {
    && t != []
    && pat != []
    && pat[0] !in t[1..]
    && (t[0] != pat[0] || (!(t <= pat) && !(pat <= t)))
  }

  /** Every token equal to `pat` replaced by `rep`. */
  function Subst(ts: seq<string>, pat: string, rep: string): (r: seq<string>)
    ensures |r| == |ts|
    ensures forall i :: 0 <= i < |ts| ==> r[i] == if ts[i] == pat then rep else ts[i]
  {
    seq(|ts|, i requires 0 <= i < |ts| => if ts[i] == pat then rep else ts[i])
  }

  /** Two strings that differ at index `j` are not prefixes of each other. */
  lemma NotPrefixAt(a: string, b: string, j: nat)
    requires j < |a| && j < |b| && a[j] != b[j]
    ensures !(a <= b) && !(b <= a)
  {
  }

  /** Text that starts with `t` does not start with `pat` when neither of
      the two is a prefix of the other. */
  lemma NotPrefixOfAppend(t: string, rest: string, pat: string)
    requires !(t <= pat) && !(pat <= t)
    ensures !(pat <= t + rest)
  {
    if |pat| <= |t| {
      assert (t + rest)[..|pat|] == t[..|pat|];
    } else {
      assert (t + rest)[..|t|] == t;
    }
  }

  /** One token of the kind `ReplaceAllTokens` expects. */
  lemma ReplaceAllToken(t: string, rest: string, pat: string, rep: string)
    requires t == pat || Inert(t, pat)
    requires pat != []
    ensures ReplaceAll(t + rest, pat, rep) == (if t == pat then rep else t) + ReplaceAll(rest, pat, rep)
  {
    if t == pat {
      assert pat <= t + rest;
      assert (t + rest)[|pat|..] == rest;
    } else if t[0] != pat[0] {
      assert pat[0] !in t;
      ReplaceAllPassThrough(t, rest, pat, rep);
    } else {
      NotPrefixOfAppend(t, rest, pat);
      assert (t + rest)[1..] == t[1..] + rest;
      ReplaceAllPassThrough(t[1..], rest, pat, rep);
      assert t == [t[0]] + t[1..];
    }
  }

  /** On text cut into tokens that are either the pattern or inert, the
      global replace rewrites exactly the tokens equal to the pattern. */
  lemma {:induction false} ReplaceAllTokens(ts: seq<string>, pat: string, rep: string)
    requires pat != []
    requires forall i :: 0 <= i < |ts| ==> ts[i] == pat || Inert(ts[i], pat)
    ensures ReplaceAll(Concat(ts), pat, rep) == Concat(Subst(ts, pat, rep))
  {
    if ts != [] {
      var us := Subst(ts, pat, rep);
      assert us[1..] == Subst(ts[1..], pat, rep);
      ReplaceAllTokens(ts[1..], pat, rep);
      ReplaceAllToken(ts[0], Concat(ts[1..]), pat, rep);
      assert Concat(us) == us[0] + Concat(us[1..]);
    }
  }

  /** The tokens `f` makes of the characters of `s`, in order. */
  function Map(f: char -> string, s: string): (r: seq<string>)
    ensures |r| == |s|
  {
    seq(|s|, i requires 0 <= i < |s| => f(s[i]))
  }

  /** Text written character by character through `f` is, after the replace,
      the same text written through `g`, the rewriting of `f`'s tokens. */
  lemma ReplaceAllMap(s: string, f: char -> string, g: char -> string, pat: string, rep: string)
    requires pat != []
    requires forall c :: f(c) == pat || Inert(f(c), pat)
    requires forall c :: g(c) == if f(c) == pat then rep else f(c)
    ensures ReplaceAll(Concat(Map(f, s)), pat, rep) == Concat(Map(g, s))
  {
    ReplaceAllTokens(Map(f, s), pat, rep);
    assert Subst(Map(f, s), pat, rep) == Map(g, s);
  }

  /** A character that no token holds is not in their concatenation. */
  lemma {:induction false} ConcatAvoids(ts: seq<string>, c: char)
    requires forall i :: 0 <= i < |ts| ==> c !in ts[i]
    ensures c !in Concat(ts)
  {
    if ts != [] {
      ConcatAvoids(ts[1..], c);
    }
  }

  /** An occurrence in `b` is one in `a + b`, shifted by `|a|`. */
  lemma OccursAtShift(a: string, b: string, t: string, k: nat)
    requires OccursAt(b, t, k)
    ensures OccursAt(a + b, t, |a| + k)
  {
    assert (a + b)[|a| + k..|a| + k + |t|] == b[k..k + |t|];
  }

  /** `x` occurs in `a + x + b`. */
  lemma ContainsMiddle(a: string, x: string, b: string)
    ensures Contains(a + x + b, x)
  {
    assert (a + x + b)[|a|..|a| + |x|] == x;
    assert OccursAt(a + x + b, x, |a|);
  }

  /** The longest suffix of `s` that does not start with a `p` character. */
  function DropWhile(s: string, p: char -> bool): (r: string)
    ensures |r| <= |s| && r == s[|s| - |r|..]
    ensures r == [] || !p(r[0])
    ensures forall i :: 0 <= i < |s| - |r| ==> p(s[i])
  {
    if s != [] && p(s[0]) then DropWhile(s[1..], p) else s
  }

  /** `includes` through an intermediate string. */
  lemma ContainsTransitive(s: string, t: string, u: string)
    requires Contains(s, t) && Contains(t, u)
    ensures Contains(s, u)
  {
    var k: nat :| k <= |s| && OccursAt(s, t, k);
    var j: nat :| j <= |t| && OccursAt(t, u, j);
    assert s[k..k + |t|] == t;
    assert forall i :: 0 <= i < |u| ==> s[k + j + i] == t[j + i] == u[i];
    assert s[k + j..k + j + |u|] == u;
    assert OccursAt(s, u, k + j);
  }

  /** What occurs in the middle part occurs in the whole. */
  lemma ContainsWithin(a: string, b: string, c: string, x: string)
    requires Contains(b, x)
    ensures Contains(a + b + c, x)
  {
    ContainsMiddle(a, b, c);
    ContainsTransitive(a + b + c, b, x);
  }

  /** `parts.join("")` */
  function Concat(parts: seq<string>): string {
    if parts == [] then [] else parts[0] + Concat(parts[1..])
  }

  lemma {:induction false} ConcatAppend(a: seq<string>, b: seq<string>)
    ensures Concat(a + b) == Concat(a) + Concat(b)
  {
    if a == [] {
      assert a + b == b;
    } else {
      assert (a + b)[0] == a[0];
      assert (a + b)[1..] == a[1..] + b;
      ConcatAppend(a[1..], b);
    }
  }

  /** Every part occurs in the concatenation. */
  lemma {:induction false} ConcatContains(parts: seq<string>, i: nat)
    requires i < |parts|
    ensures Contains(Concat(parts), parts[i])
  {
    var rest := Concat(parts[1..]);
    if i == 0 {
      assert OccursAt(parts[0] + rest, parts[0], 0);
    } else {
      ConcatContains(parts[1..], i - 1);
      var k: nat :| k <= |rest| && OccursAt(rest, parts[i], k);
      OccursAtShift(parts[0], rest, parts[i], k);
    }
  }

  /** `parts.join(sep)` */
  function Join(parts: seq<string>, sep: string): string {
    if parts == [] then []
    else if |parts| == 1 then parts[0]
    else parts[0] + sep + Join(parts[1..], sep)
  }

  /** The sequence of one-character strings that spell `s`. */
  function Chars(s: string): (r: seq<string>)
    ensures |r| == |s|
  {
    seq(|s|, i requires 0 <= i < |s| => [s[i]])
  }

  lemma {:induction false} ConcatChars(s: string)
    ensures Concat(Chars(s)) == s
  {
    if s != [] {
      assert Chars(s)[1..] == Chars(s[1..]);
      ConcatChars(s[1..]);
    }
  }

  /** The strict order that stands for `a.localeCompare(b) < 0`:
      lexicographic order on code points. */
  predicate LexLess(a: string, b: string)
    decreases |a|
  {
    if a == [] then b != []
    else if b == [] then false
    else if a[0] != b[0] then a[0] < b[0]
    else LexLess(a[1..], b[1..])
  }

  lemma {:induction false} LexLessIrreflexive(a: string)
    ensures !LexLess(a, a)
  {
    if a != [] {
      LexLessIrreflexive(a[1..]);
    }
  }

  lemma {:induction false} LexLessTransitive(a: string, b: string, c: string)
    requires LexLess(a, b) && LexLess(b, c)
    ensures LexLess(a, c)
    decreases |a|
  {
    if a != [] && b != [] && c != [] && a[0] == b[0] && b[0] == c[0] {
      LexLessTransitive(a[1..], b[1..], c[1..]);
    }
  }

  lemma {:induction false} LexLessTotal(a: string, b: string)
    requires a != b
    ensures LexLess(a, b) || LexLess(b, a)
    decreases |a|
  {
    if a != [] && b != [] && a[0] == b[0] {
      assert a == [a[0]] + a[1..] && b == [b[0]] + b[1..];
      LexLessTotal(a[1..], b[1..]);
    }
  }

  lemma LexLessAsymmetric(a: string, b: string)
    requires LexLess(a, b)
    ensures !LexLess(b, a)
  {
    if LexLess(b, a) {
      LexLessTransitive(a, b, a);
      LexLessIrreflexive(a);
    }
  }

  /** "Not after": together with LexLess, a total preorder on strings. */
  lemma LexNotLessTransitive(a: string, b: string, c: string)
    requires !LexLess(b, a) && !LexLess(c, b)
    ensures !LexLess(c, a)
  {
    if LexLess(c, a) {
      if a == b {
      } else if b == c {
      } else {
        LexLessTotal(a, b);
        LexLessTotal(b, c);
        LexLessTransitive(c, a, b);
      }
    }
  }
}
