/** The notes accessor (lib/notes.ts): the PDF files of the notes directory,
    each with a display title derived from its file name, in title order. */
module Notes {
  import opened Text
  import opened FrontMatter
  import Lists
  import Ordering

  /** A character the class `[-_]` matches. */
  predicate IsSeparator(c: char) {
    c == '-' || c == '_'
  }

  /** A character the class `\w` matches. */
  predicate IsWordChar(c: char) {
    ('a' <= c <= 'z') || ('A' <= c <= 'Z') || ('0' <= c <= '9') || c == '_'
  }

  /** `s.replace(/P+/g, " ")` for the character class `p`: every maximal run
      of `p` characters becomes one space. */
  function CollapseRuns(s: string, p: char -> bool): (r: string)
    ensures r == [] <==> s == []
    ensures s != [] ==> r[0] == (if p(s[0]) then ' ' else s[0])
    decreases |s|
  {
    if s == [] then []
    else if p(s[0]) then " " + CollapseRuns(DropWhile(s, p), p)
    else [s[0]] + CollapseRuns(s[1..], p)
  }

  /** What is left to collapse after the first character or run. */
  function CollapseTail(s: string, p: char -> bool): (r: string)
    requires s != []
    ensures |r| < |s| && r == s[|s| - |r|..]
    ensures r == [] || !p(s[0]) || !p(r[0])
  {
    if p(s[0]) then DropWhile(s, p) else s[1..]
  }

  lemma CollapseRunsStep(s: string, p: char -> bool)
    requires s != []
    ensures CollapseRuns(s, p) == (if p(s[0]) then " " else [s[0]]) + CollapseRuns(CollapseTail(s, p), p)
  {
  }

  /** Every character of the result is a space or a character of `s`
      outside the class. */
  lemma {:induction false} CollapseRunsMembers(s: string, p: char -> bool)
    ensures forall c :: c in CollapseRuns(s, p) ==> c == ' ' || (c in s && !p(c))
    decreases |s|
  {
    if s != [] {
      var tail := CollapseTail(s, p);
      CollapseRunsMembers(tail, p);
      CollapseRunsStep(s, p);
      SliceMembers(s, |s| - |tail|, |s|);
    }
  }

  /** Every character of `s` outside the class survives. */
  lemma {:induction false} CollapseRunsKeeps(s: string, p: char -> bool)
    ensures forall c :: c in s && !p(c) ==> c in CollapseRuns(s, p)
    decreases |s|
  {
    if s != [] {
      var tail := CollapseTail(s, p);
      CollapseRunsKeeps(tail, p);
      CollapseRunsStep(s, p);
      forall c | c in s && !p(c) ensures c in CollapseRuns(s, p) {
        var k :| 0 <= k < |s| && s[k] == c;
        if k > 0 || p(s[0]) {
          assert k >= |s| - |tail|;
          assert tail[k - (|s| - |tail|)] == c;
        }
      }
    }
  }

  /** No two `p` characters are left next to each other, when the space
      that replaces a run is itself one. */
  lemma {:induction false} CollapseRunsSingle(s: string, p: char -> bool)
    requires p(' ')
    ensures var r := CollapseRuns(s, p); forall i :: 0 <= i < |r| - 1 ==> !(p(r[i]) && p(r[i + 1]))
    decreases |s|
  {
    if s != [] {
      var tail := CollapseTail(s, p);
      CollapseRunsSingle(tail, p);
      CollapseRunsStep(s, p);
      var r, t := CollapseRuns(s, p), CollapseRuns(tail, p);
      forall i | 0 <= i < |r| - 1 ensures !(p(r[i]) && p(r[i + 1])) {
        if i > 0 {
          assert r[i] == t[i - 1] && r[i + 1] == t[i];
        } else if p(s[0]) {
          assert r[1] == t[0] && t[0] == tail[0];
        }
      }
    }
  }

  /** Text whose `p` characters are single spaces is left as it is. */
  lemma {:induction false} CollapseRunsUnchanged(s: string, p: char -> bool)
    requires forall i :: 0 <= i < |s| && p(s[i]) ==> s[i] == ' '
    requires forall i :: 0 <= i < |s| - 1 ==> !(p(s[i]) && p(s[i + 1]))
    ensures CollapseRuns(s, p) == s
    decreases |s|
  {
    if s != [] {
      CollapseRunsUnchanged(s[1..], p);
      if p(s[0]) {
        assert DropWhile(s, p) == s[1..] by {
          if |s| > 1 {
            assert DropWhile(s[1..], p) == s[1..];
          }
        }
      }
      assert s == [s[0]] + s[1..];
    }
  }

  /** The `\b\w` positions: a word character at the start or after a
      character that is not one. */
  predicate WordStart(s: string, i: nat)
    requires i < |s|
  {
    IsWordChar(s[i]) && (i == 0 || !IsWordChar(s[i - 1]))
  }

  /** `s.replace(/\b\w/g, (char) => char.toUpperCase())`: only the letters
      starting a word change, and only in case. */
  function Capitalize(s: string): (r: string)
    ensures |r| == |s|
    ensures ToLower(r) == ToLower(s)
    ensures forall i :: 0 <= i < |s| && !WordStart(s, i) ==> r[i] == s[i]
    ensures forall i :: 0 <= i < |s| ==> (WordStart(r, i) <==> WordStart(s, i))
    ensures forall i :: 0 <= i < |s| && WordStart(s, i) ==> !IsAsciiLower(r[i])
    ensures forall i :: 0 <= i < |s| ==> (IsSpace(r[i]) <==> IsSpace(s[i])) && (IsSeparator(r[i]) <==> IsSeparator(s[i]))
  {
    seq(|s|, i requires 0 <= i < |s| => if WordStart(s, i) then ToUpperChar(s[i]) else s[i])
  }

  /** `formatTitle(slug)` */
  function FormatTitle(slug: string): string {
    Capitalize(Tidy(slug))
  }

  /** Whitespace and separators as a title has them: no separators, only
      single plain spaces. */
  predicate Spaced(t: string) {
    && (forall i :: 0 <= i < |t| ==> !IsSeparator(t[i]))
    && (forall i :: 0 <= i < |t| && IsSpace(t[i]) ==> t[i] == ' ')
    && (forall i :: 0 <= i < |t| - 1 ==> !(IsSpace(t[i]) && IsSpace(t[i + 1])))
  }

  /** The shape of every title: spaced, no whitespace at either end, and
      every word capitalised. */
  predicate TitleShaped(t: string) {
    && Spaced(t)
    && (t == [] || (!IsSpace(t[0]) && !IsSpace(t[|t| - 1])))
    && (forall i :: 0 <= i < |t| && WordStart(t, i) ==> !IsAsciiLower(t[i]))
  }

  lemma CollapsedSpaced(slug: string)
    ensures Spaced(CollapseRuns(CollapseRuns(slug, IsSeparator), IsSpace))
  {
    var t1 := CollapseRuns(slug, IsSeparator);
    var t2 := CollapseRuns(t1, IsSpace);
    CollapseRunsSingle(t1, IsSpace);
    CollapseRunsMembers(slug, IsSeparator);
    CollapseRunsMembers(t1, IsSpace);
    forall i | 0 <= i < |t2| ensures !IsSeparator(t2[i]) && (IsSpace(t2[i]) ==> t2[i] == ' ') {
      assert t2[i] in t2;
    }
  }

  lemma SliceSpaced(t: string, k: nat, j: nat)
    requires Spaced(t) && k <= j <= |t|
    ensures Spaced(t[k..j])
  {
    assert forall i :: 0 <= i < j - k ==> t[k..j][i] == t[k + i];
  }

  lemma TrimSpaced(t: string)
    requires Spaced(t)
    ensures Spaced(Trim(t))
  {
    var a := TrimStart(t);
    assert a == t[|t| - |a|..|t|];
    SliceSpaced(t, |t| - |a|, |t|);
    var b := TrimEnd(a);
    assert b == a[0..|b|];
    SliceSpaced(a, 0, |b|);
    assert Trim(t) == b;
  }

  /** What `formatTitle` applies `\b\w` capitalisation to. */
  function Tidy(slug: string): string {
    Trim(CollapseRuns(CollapseRuns(slug, IsSeparator), IsSpace))
  }

  lemma TidySpaced(slug: string)
    ensures Spaced(Tidy(slug))
  {
    var t2 := CollapseRuns(CollapseRuns(slug, IsSeparator), IsSpace);
    CollapsedSpaced(slug);
    TrimSpaced(t2);
  }

  lemma CapitalizeSpaced(t: string)
    requires Spaced(t)
    ensures Spaced(Capitalize(t))
  {
  }

  lemma FormatTitleSpaced(slug: string)
    ensures Spaced(FormatTitle(slug))
  {
    TidySpaced(slug);
    CapitalizeSpaced(Tidy(slug));
  }

  lemma FormatTitleEdges(slug: string)
    ensures var r := FormatTitle(slug); r == [] || (!IsSpace(r[0]) && !IsSpace(r[|r| - 1]))
  {
    var t := Tidy(slug);
    assert FormatTitle(slug) == Capitalize(t);
  }

  lemma FormatTitleWords(slug: string)
    ensures var r := FormatTitle(slug); forall i :: 0 <= i < |r| && WordStart(r, i) ==> !IsAsciiLower(r[i])
  {
    var t := Tidy(slug);
    assert FormatTitle(slug) == Capitalize(t);
  }

  lemma FormatTitleShaped(slug: string)
    ensures TitleShaped(FormatTitle(slug))
  {
    FormatTitleSpaced(slug);
    FormatTitleEdges(slug);
    FormatTitleWords(slug);
  }

  /** A name made only of separators and whitespace has the empty title, and
      no other name does. */
  lemma FormatTitleEmpty(slug: string)
    ensures FormatTitle(slug) == [] <==> forall i :: 0 <= i < |slug| ==> IsSeparator(slug[i]) || IsSpace(slug[i])
  {
    var t1 := CollapseRuns(slug, IsSeparator);
    var t2 := CollapseRuns(t1, IsSpace);
    CollapseRunsMembers(slug, IsSeparator);
    CollapseRunsMembers(t1, IsSpace);
    CollapseRunsKeeps(slug, IsSeparator);
    CollapseRunsKeeps(t1, IsSpace);
    if forall i :: 0 <= i < |slug| ==> IsSeparator(slug[i]) || IsSpace(slug[i]) {
      forall i | 0 <= i < |t2| ensures IsSpace(t2[i]) {
        assert t2[i] in t2;
        if t2[i] != ' ' {
          assert t2[i] in t1;
        }
      }
    } else {
      var i :| 0 <= i < |slug| && !IsSeparator(slug[i]) && !IsSpace(slug[i]);
      assert slug[i] in slug;
      var j :| 0 <= j < |t2| && t2[j] == slug[i];
    }
  }

  /** Text whose words are all capitalised is left as it is. */
  lemma CapitalizeUnchanged(t: string)
    requires forall i :: 0 <= i < |t| && WordStart(t, i) ==> !IsAsciiLower(t[i])
    ensures Capitalize(t) == t
  {
  }

  /** A finished title has nothing left to tidy. */
  lemma TidyUnchanged(t: string)
    requires TitleShaped(t)
    ensures Tidy(t) == t
  {
    CollapseRunsUnchanged(t, IsSeparator);
    CollapseRunsUnchanged(t, IsSpace);
    TrimUnchanged(t);
  }

  lemma TitleFixed(t: string)
    requires TitleShaped(t)
    ensures FormatTitle(t) == t
  {
    CapitalizeUnchanged(t);
    TidyUnchanged(t);
    FormatFixed(t);
  }

  lemma FormatFixed(t: string)
    requires Tidy(t) == t && Capitalize(t) == t
    ensures FormatTitle(t) == t
  {
  }

  /** Formatting a title again changes nothing. */
  lemma FormatTitleIdempotent(slug: string)
    ensures FormatTitle(FormatTitle(slug)) == FormatTitle(slug)
  {
    FormatTitleShaped(slug);
    TitleFixed(FormatTitle(slug));
  }

  /** `file.toLowerCase().endsWith(".pdf")` */
  predicate IsPdf(file: string) {
    EndsWith(ToLower(file), ".pdf")
  }

  /** `file.replace(/\.pdf$/i, "")` */
  function StripPdf(file: string): (r: string)
    ensures IsPdf(file) ==> |r| + 4 == |file| && r == file[..|r|]
    ensures !IsPdf(file) ==> r == file
  {
    if IsPdf(file) then file[..|file| - 4] else file
  }

  datatype NoteFile = NoteFile(slug: string, title: string, fileName: string)

  /** The record `getAllNoteFiles` builds for one file. */
  function NoteFor(file: string): (n: NoteFile)
    ensures n.fileName == file && n.slug == StripPdf(file) && n.title == FormatTitle(n.slug)
  {
    var slug := StripPdf(file);
    NoteFile(slug, FormatTitle(slug), file)
  }

  function TitleOf(n: NoteFile): string {
    n.title
  }

  /** The notes of the listed PDF files, in listing order: `filter`
      followed by `map`. */
  function ListedNotes(entries: seq<string>): (r: seq<NoteFile>)
    ensures forall n :: n in r <==> n.fileName in entries && IsPdf(n.fileName) && n == NoteFor(n.fileName)
  {
    if entries == [] then []
    else
      var f, rest := entries[0], ListedNotes(entries[1..]);
      assert forall x :: x in entries <==> x == f || x in entries[1..];
      if IsPdf(f) then [NoteFor(f)] + rest else rest
  }

  /** `getAllNoteFiles()`: one note per PDF file (the extension matched in
      any case), in title order; a missing directory gives no notes, and any
      other error is rethrown. */
  function GetAllNoteFiles(listing: Result<seq<string>>): (r: Result<seq<NoteFile>>)
    ensures listing == Err(NotFound) ==> r == Ok([])
    ensures listing == Err(OtherError) ==> r == Err(OtherError)
    ensures listing.Ok? ==> r.Ok?
    ensures r.Ok? && listing.Ok? ==>
      forall n :: n in r.value <==> n.fileName in listing.value && IsPdf(n.fileName) && n == NoteFor(n.fileName)
    ensures r.Ok? && listing.Ok? ==> multiset(r.value) == multiset(ListedNotes(listing.value))
    ensures r.Ok? ==> Ordering.TitleOrdered(r.value, TitleOf)
    ensures r.Ok? && listing.Ok? ==> forall t ::
      Lists.Filter(r.value, Ordering.HasTitle(TitleOf, t)) == Lists.Filter(ListedNotes(listing.value), Ordering.HasTitle(TitleOf, t))
  {
    match listing
    case Err(NotFound) => Ok([])
    case Err(OtherError) => Err(OtherError)
    case Ok(entries) =>
      var notes := ListedNotes(entries);
      var sorted := Ordering.SortByTitle(notes, TitleOf);
      assert forall n :: n in sorted <==> n in notes by {
        forall n ensures n in sorted <==> n in notes {
          assert n in sorted <==> n in multiset(sorted);
        }
      }
      Ok(sorted)
  }
}
