/** `records.sort((a, b) => a.title.localeCompare(b.title))`, which the
    project, note and blog listings share, for any record with a title. */
module Ordering {
  import opened Text
  import Lists

  /** The comparator: `a` goes first when its title is smaller. */
  function TitleLess<T>(title: T -> string): (T, T) -> bool {
    (a, b) => LexLess(title(a), title(b))
  }

  /** Non-decreasing by title. */
  predicate TitleOrdered<T>(s: seq<T>, title: T -> string) {
    forall i, j :: 0 <= i < j < |s| ==> !LexLess(title(s[j]), title(s[i]))
  }

  /** Records that carry the title `t`. */
  function HasTitle<T>(title: T -> string, t: string): T -> bool {
    x => title(x) == t
  }

  lemma TitleLessConsistent<T(!new)>(s: seq<T>, title: T -> string)
    ensures Lists.StrictWeakOn(TitleLess(title), s)
  {
    forall a, b | a in s && b in s && LexLess(title(a), title(b)) ensures !LexLess(title(b), title(a)) {
      LexLessAsymmetric(title(a), title(b));
    }
    forall a, b, c | a in s && b in s && c in s && !LexLess(title(a), title(b)) && !LexLess(title(b), title(c))
      ensures !LexLess(title(a), title(c))
    {
      LexNotLessTransitive(title(c), title(b), title(a));
    }
  }

  /** The sorted copy: a permutation, in title order, and records with the
      same title stay in their original order (the sort is stable). */
  function SortByTitle<T(!new)>(s: seq<T>, title: T -> string): (r: seq<T>)
    ensures multiset(r) == multiset(s)
    ensures TitleOrdered(r, title)
    ensures forall t :: Lists.Filter(r, HasTitle(title, t)) == Lists.Filter(s, HasTitle(title, t))
  {
    var r := Lists.SortBy(s, TitleLess(title));
    TitleLessConsistent(s, title);
    Lists.SortBySorted(s, TitleLess(title));
    forall t ensures Lists.Filter(r, HasTitle(title, t)) == Lists.Filter(s, HasTitle(title, t)) {
      forall x, y | x in s && y in s && HasTitle(title, t)(x) && TitleLess(title)(y, x) ensures !HasTitle(title, t)(y) {
        LexLessIrreflexive(t);
      }
      Lists.SortByKeepsClassOrder(s, TitleLess(title), HasTitle(title, t));
    }
    r
  }
}
