/** Array operations the site uses on freshly built arrays: `filter`, and
    `sort` with a comparator. `Array.prototype.sort` is stable, so for a
    comparator that is a strict weak order its result is the unique stable
    sorted permutation; the stable insertion sort below computes exactly that.
    A comparator `compareFn` is represented by `lt(a, b)`, which holds when
    `compareFn(a, b) < 0`, that is, when `a` must come before `b`. */
module Lists {

  /** `s.filter(p)` */
  function Filter<T(!new)>(s: seq<T>, p: T -> bool): (r: seq<T>)
    ensures |r| <= |s|
  {
    if s == [] then [] else (if p(s[0]) then [s[0]] else []) + Filter(s[1..], p)
  }

  /** The filter keeps exactly the elements that pass. */
  lemma {:induction false} FilterMembers<T(!new)>(s: seq<T>, p: T -> bool)
    ensures forall x :: x in Filter(s, p) <==> x in s && p(x)
  {
    if s != [] {
      FilterMembers(s[1..], p);
      assert s == [s[0]] + s[1..];
    }
  }

  lemma {:induction false} FilterAppend<T(!new)>(a: seq<T>, b: seq<T>, p: T -> bool)
    ensures Filter(a + b, p) == Filter(a, p) + Filter(b, p)
  {
    if a == [] {
      assert a + b == b;
    } else {
      assert (a + b)[0] == a[0];
      assert (a + b)[1..] == a[1..] + b;
      FilterAppend(a[1..], b, p);
      var h, fa, fb := if p(a[0]) then [a[0]] else [], Filter(a[1..], p), Filter(b, p);
      assert Filter(a + b, p) == h + (fa + fb);
      assert Filter(a, p) == h + fa;
      assert h + (fa + fb) == (h + fa) + fb;
    }
  }

  /** A filter that every element passes keeps the whole sequence. */
  lemma {:induction false} FilterKeepsAll<T(!new)>(s: seq<T>, p: T -> bool)
    requires forall i :: 0 <= i < |s| ==> p(s[i])
    ensures Filter(s, p) == s
  {
    if s != [] {
      FilterKeepsAll(s[1..], p);
      assert s == [s[0]] + s[1..];
    }
  }

  /** `a` is `b` with some elements left out and the others in their order. */
  predicate IsSubsequence<T(==)>(a: seq<T>, b: seq<T>)
    decreases |b|
  {
    if a == [] then true
    else if b == [] then false
    else if a[0] == b[0] then IsSubsequence(a[1..], b[1..])
    else IsSubsequence(a, b[1..])
  }

  lemma {:induction false} IsSubsequenceOfCons<T(!new)>(a: seq<T>, x: T, b: seq<T>)
    requires IsSubsequence(a, b)
    ensures IsSubsequence(a, [x] + b)
    decreases |b|, 1
  {
    if a != [] && a[0] != x {
      assert ([x] + b)[1..] == b;
    } else if a != [] {
      assert ([x] + b)[1..] == b;
      IsSubsequenceDropFirst(a, b);
    }
  }

  lemma {:induction false} IsSubsequenceDropFirst<T(!new)>(a: seq<T>, b: seq<T>)
    requires a != [] && IsSubsequence(a, b)
    ensures IsSubsequence(a[1..], b)
    decreases |b|, 0
  {
    if a[0] == b[0] {
      if a[1..] != [] {
        IsSubsequenceOfCons(a[1..], b[0], b[1..]);
        assert b == [b[0]] + b[1..];
      }
    } else {
      IsSubsequenceDropFirst(a, b[1..]);
      if a[1..] != [] {
        IsSubsequenceOfCons(a[1..], b[0], b[1..]);
        assert b == [b[0]] + b[1..];
      }
    }
  }

  /** What `filter` keeps is an order-preserving subsequence of its input. */
  lemma {:induction false} FilterIsSubsequence<T(!new)>(s: seq<T>, p: T -> bool)
    ensures IsSubsequence(Filter(s, p), s)
  {
    if s != [] {
      FilterIsSubsequence(s[1..], p);
      var r := Filter(s[1..], p);
      if p(s[0]) {
        assert Filter(s, p) == [s[0]] + r;
        assert (Filter(s, p))[1..] == r;
      } else {
        assert Filter(s, p) == r;
        IsSubsequenceOfCons(r, s[0], s[1..]);
        assert [s[0]] + s[1..] == s;
      }
    }
  }

  /** Inserts `x` before the first element that need not come before it. */
  function InsertBy<T>(x: T, s: seq<T>, lt: (T, T) -> bool): (r: seq<T>)
    ensures multiset(r) == multiset(s) + multiset{x}
  {
    if s == [] then [x]
    else if lt(s[0], x) then
      assert s == [s[0]] + s[1..];
      [s[0]] + InsertBy(x, s[1..], lt)
    else [x] + s
  }

  /** `[...s].sort(compareFn)`: a stable sort of a copy of `s`. */
  function SortBy<T>(s: seq<T>, lt: (T, T) -> bool): (r: seq<T>)
    ensures multiset(r) == multiset(s)
  {
    if s == [] then []
    else
      assert s == [s[0]] + s[1..];
      InsertBy(s[0], SortBy(s[1..], lt), lt)
  }

  /** No element should have come before one that precedes it. */
  predicate SortedBy<T>(s: seq<T>, lt: (T, T) -> bool) {
    forall i, j :: 0 <= i < j < |s| ==> !lt(s[j], s[i])
  }

  /** `lt` is a strict weak order on the elements of `dom`: asymmetric, and
      "need not come before" is transitive. This is what makes a comparator
      consistent. */
  predicate StrictWeakOn<T(==,!new)>(lt: (T, T) -> bool, dom: seq<T>) {
    && (forall a, b :: a in dom && b in dom && lt(a, b) ==> !lt(b, a))
    && (forall a, b, c :: a in dom && b in dom && c in dom && !lt(a, b) && !lt(b, c) ==> !lt(a, c))
  }

  lemma {:induction false} InsertBySorted<T(!new)>(x: T, s: seq<T>, lt: (T, T) -> bool, dom: seq<T>)
    requires StrictWeakOn(lt, dom)
    requires x in dom && forall y :: y in s ==> y in dom
    requires SortedBy(s, lt)
    ensures SortedBy(InsertBy(x, s, lt), lt)
  {
    if s != [] {
      assert s[0] in s;
      if lt(s[0], x) {
        assert forall y :: y in s[1..] ==> y in s;
        assert SortedBy(s[1..], lt) by {
          assert forall k :: 0 <= k < |s[1..]| ==> s[1..][k] == s[k + 1];
        }
        InsertBySorted(x, s[1..], lt, dom);
        InsertBySortedCons(x, s, lt);
      } else {
        forall j | 0 <= j < |s| ensures !lt(s[j], x) {
          if j > 0 {
            assert s[j] in s;
          }
        }
        InsertBySortedFront(x, s, lt);
      }
    }
  }

  /** `x` goes in front of a sorted sequence none of whose elements need
      come before it. */
  lemma InsertBySortedFront<T>(x: T, s: seq<T>, lt: (T, T) -> bool)
    requires SortedBy(s, lt) && s != [] && forall j :: 0 <= j < |s| ==> !lt(s[j], x)
    ensures SortedBy(InsertBy(x, s, lt), lt)
  {
    assert InsertBy(x, s, lt) == [x] + s;
    SortedCons(x, s, lt);
  }

  /** The head of a sorted sequence that comes before `x`, and after which
      `x` need not come, stays in front of the sorted insertion into its
      tail. */
  lemma InsertBySortedCons<T>(x: T, s: seq<T>, lt: (T, T) -> bool)
    requires SortedBy(s, lt) && s != [] && lt(s[0], x) && !lt(x, s[0])
    requires SortedBy(InsertBy(x, s[1..], lt), lt)
    ensures SortedBy(InsertBy(x, s, lt), lt)
  {
    var t := InsertBy(x, s[1..], lt);
    InsertByMembers(x, s[1..], lt);
    forall k | 0 <= k < |t| ensures !lt(t[k], s[0]) {
      assert t[k] in t;
      if t[k] != x {
        var m :| 0 <= m < |s[1..]| && s[1..][m] == t[k];
        assert s[m + 1] == t[k];
      }
    }
    SortedCons(s[0], t, lt);
    assert InsertBy(x, s, lt) == [s[0]] + t;
  }

  lemma InsertByMembers<T>(x: T, s: seq<T>, lt: (T, T) -> bool)
    ensures forall y :: y in InsertBy(x, s, lt) ==> y == x || y in s
  {
    var r := InsertBy(x, s, lt);
    forall y | y in r ensures y == x || y in s {
      assert y in multiset(r);
    }
  }

  /** A head that no element of a sorted tail need come before keeps the
      sequence sorted. */
  lemma SortedCons<T>(h: T, t: seq<T>, lt: (T, T) -> bool)
    requires SortedBy(t, lt) && forall k :: 0 <= k < |t| ==> !lt(t[k], h)
    ensures SortedBy([h] + t, lt)
  {
    var r := [h] + t;
    forall i, j | 0 <= i < j < |r| ensures !lt(r[j], r[i]) {
      assert r[j] == t[j - 1];
      if i > 0 {
        assert r[i] == t[i - 1];
      }
    }
  }

  lemma {:induction false} SortBySortedIn<T(!new)>(s: seq<T>, lt: (T, T) -> bool, dom: seq<T>)
    requires StrictWeakOn(lt, dom)
    requires forall y :: y in s ==> y in dom
    ensures SortedBy(SortBy(s, lt), lt)
  {
    if s != [] {
      SortBySortedIn(s[1..], lt, dom);
      var r := SortBy(s[1..], lt);
      assert forall y :: y in r ==> y in dom by {
        forall y | y in r ensures y in dom {
          assert y in multiset(r);
        }
      }
      InsertBySorted(s[0], r, lt, dom);
    }
  }

  /** For a consistent comparator the result is sorted. */
  lemma SortBySorted<T(!new)>(s: seq<T>, lt: (T, T) -> bool)
    requires StrictWeakOn(lt, s)
    ensures SortedBy(SortBy(s, lt), lt)
  {
    SortBySortedIn(s, lt, s);
  }

  lemma {:induction false} InsertByFilter<T(!new)>(x: T, s: seq<T>, lt: (T, T) -> bool, e: T -> bool)
    requires forall y :: y in s && e(x) && lt(y, x) ==> !e(y)
    ensures Filter(InsertBy(x, s, lt), e) == Filter([x], e) + Filter(s, e)
  {
    if s == [] {
      assert InsertBy(x, s, lt) == [x];
      assert Filter(s, e) == [];
      assert Filter([x], e) + [] == Filter([x], e);
    } else if lt(s[0], x) {
      assert s[0] in s;
      forall y | y in s[1..] && e(x) && lt(y, x) ensures !e(y) {
        assert y in s;
      }
      InsertByFilter(x, s[1..], lt, e);
      InsertByFilterCons(x, s, lt, e);
    } else {
      assert InsertBy(x, s, lt) == [x] + s;
      FilterAppend([x], s, e);
    }
  }

  /** The step of `InsertByFilter` past an element that comes before `x`. */
  lemma InsertByFilterCons<T(!new)>(x: T, s: seq<T>, lt: (T, T) -> bool, e: T -> bool)
    requires s != [] && lt(s[0], x) && (e(x) ==> !e(s[0]))
    requires Filter(InsertBy(x, s[1..], lt), e) == Filter([x], e) + Filter(s[1..], e)
    ensures Filter(InsertBy(x, s, lt), e) == Filter([x], e) + Filter(s, e)
  {
    var t := InsertBy(x, s[1..], lt);
    assert InsertBy(x, s, lt) == [s[0]] + t;
    FilterAppend([s[0]], t, e);
    FilterAppend([s[0]], s[1..], e);
    assert [s[0]] + s[1..] == s;
    FilterSingle(s[0], e);
    FilterSingle(x, e);
    SwapEmpty(Filter([s[0]], e), Filter([x], e), Filter(s[1..], e));
  }

  lemma FilterSingle<T(!new)>(y: T, e: T -> bool)
    ensures Filter([y], e) == if e(y) then [y] else []
  {
    assert [y][1..] == [];
  }

  lemma SwapEmpty<T>(a: seq<T>, b: seq<T>, c: seq<T>)
    requires a == [] || b == []
    ensures a + (b + c) == b + (a + c)
  {
  }

  /** Stability: within a class `e` of elements the comparator does not
      separate, the sort keeps the input order. */
  lemma {:induction false} SortByKeepsClassOrder<T(!new)>(s: seq<T>, lt: (T, T) -> bool, e: T -> bool)
    requires forall x, y :: x in s && y in s && e(x) && lt(y, x) ==> !e(y)
    ensures Filter(SortBy(s, lt), e) == Filter(s, e)
  {
    if s != [] {
      SortByKeepsClassOrder(s[1..], lt, e);
      var r := SortBy(s[1..], lt);
      forall y | y in r && e(s[0]) && lt(y, s[0]) ensures !e(y) {
        assert y in multiset(r);
      }
      InsertByFilter(s[0], r, lt, e);
      FilterAppend([s[0]], s[1..], e);
      assert [s[0]] + s[1..] == s;
    }
  }
}
