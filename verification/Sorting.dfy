/** Stable sorting by a key order, as `sorted` and `list.sort` do it, and the
    lexicographic order on strings that most of the keys use. */
module Sorting {

  ghost predicate TotalPreorder<T(!new)>(le: (T, T) -> bool) {
    && (forall x, y :: le(x, y) || le(y, x))
    && (forall x, y, z :: le(x, y) && le(y, z) ==> le(x, z))
  }

  ghost predicate Sorted<T(!new)>(xs: seq<T>, le: (T, T) -> bool) {
    forall i, j :: 0 <= i < j < |xs| ==> le(xs[i], xs[j])
  }

  /** Put `x` after every element that is not above it. */
  function Insert<T>(xs: seq<T>, x: T, le: (T, T) -> bool): seq<T> {
    if xs == [] then [x]
    else
      var n := |xs| - 1;
      if le(xs[n], x) then xs + [x] else Insert(xs[..n], x, le) + [xs[n]]
  }

  function SortBy<T>(xs: seq<T>, le: (T, T) -> bool): seq<T> {
    if xs == [] then []
    else
      var n := |xs| - 1;
      Insert(SortBy(xs[..n], le), xs[n], le)
  }

  lemma {:induction false} InsertContents<T>(xs: seq<T>, x: T, le: (T, T) -> bool)
    ensures multiset(Insert(xs, x, le)) == multiset(xs) + multiset{x}
  {
    if xs != [] {
      var n := |xs| - 1;
      assert xs == xs[..n] + [xs[n]];
      InsertContents(xs[..n], x, le);
    }
  }

  /** Sorting only rearranges. */
  lemma {:induction false} SortByContents<T>(xs: seq<T>, le: (T, T) -> bool)
    ensures multiset(SortBy(xs, le)) == multiset(xs)
    ensures |SortBy(xs, le)| == |xs|
  {
    if xs != [] {
      var n := |xs| - 1;
      assert xs == xs[..n] + [xs[n]];
      SortByContents(xs[..n], le);
      InsertContents(SortBy(xs[..n], le), xs[n], le);
    }
    assert |SortBy(xs, le)| == |multiset(SortBy(xs, le))| == |multiset(xs)|;
  }

  lemma SameElements<T>(xs: seq<T>, ys: seq<T>, x: T)
    requires multiset(xs) == multiset(ys)
    ensures x in xs <==> x in ys
  {
    assert x in xs <==> x in multiset(xs);
    assert x in ys <==> x in multiset(ys);
  }

  lemma InsertElements<T>(xs: seq<T>, x: T, le: (T, T) -> bool, y: T)
    requires y in Insert(xs, x, le)
    ensures y in xs || y == x
  {
  }

  /** No two elements share a key. */
  ghost predicate DistinctBy<T, K(!new)>(xs: seq<T>, key: T -> K) {
    forall i, j :: 0 <= i < j < |xs| ==> key(xs[i]) != key(xs[j])
  }

  lemma {:induction false} InsertKeepsDistinct<T, K(!new)>(xs: seq<T>, x: T, key: T -> K, le: (T, T) -> bool)
    requires DistinctBy(xs, key) && forall y :: y in xs ==> key(y) != key(x)
    ensures DistinctBy(Insert(xs, x, le), key)
  {
    if xs != [] {
      var n := |xs| - 1;
      InsertKeepsDistinct(xs[..n], x, key, le);
      forall y | y in Insert(xs[..n], x, le) ensures key(y) != key(xs[n]) {
        InsertElements(xs[..n], x, le, y);
        assert xs[n] in xs;
      }
    }
  }

  /** Sorting keeps distinct keys distinct. */
  lemma {:induction false} SortKeepsDistinct<T, K(!new)>(xs: seq<T>, key: T -> K, le: (T, T) -> bool)
    requires DistinctBy(xs, key)
    ensures DistinctBy(SortBy(xs, le), key)
  {
    if xs != [] {
      var n := |xs| - 1;
      SortKeepsDistinct(xs[..n], key, le);
      SortByContents(xs[..n], le);
      forall y | y in SortBy(xs[..n], le) ensures key(y) != key(xs[n]) {
        SameElements(SortBy(xs[..n], le), xs[..n], y);
      }
      InsertKeepsDistinct(SortBy(xs[..n], le), xs[n], key, le);
    }
  }

  lemma {:induction false} InsertSorted<T(!new)>(xs: seq<T>, x: T, le: (T, T) -> bool)
    requires TotalPreorder(le) && Sorted(xs, le)
    ensures Sorted(Insert(xs, x, le), le)
  {
    if xs != [] {
      var n := |xs| - 1;
      var last := xs[n];
      if le(last, x) {
        forall y | y in xs ensures le(y, x) {
          assert y == last || le(y, last);
        }
      } else {
        InsertSorted(xs[..n], x, le);
        forall y | y in Insert(xs[..n], x, le) ensures le(y, last) {
          InsertElements(xs[..n], x, le, y);
        }
      }
    }
  }

  lemma {:induction false} SortBySorts<T(!new)>(xs: seq<T>, le: (T, T) -> bool)
    requires TotalPreorder(le)
    ensures Sorted(SortBy(xs, le), le)
  {
    if xs != [] {
      var n := |xs| - 1;
      SortBySorts(xs[..n], le);
      InsertSorted(SortBy(xs[..n], le), xs[n], le);
    }
  }

  /** Sorting leaves a sorted list as it is, ties included. */
  lemma {:induction false} SortBySorted<T(!new)>(xs: seq<T>, le: (T, T) -> bool)
    requires Sorted(xs, le)
    ensures SortBy(xs, le) == xs
  {
    if xs != [] {
      var n := |xs| - 1;
      SortBySorted(xs[..n], le);
      assert xs == xs[..n] + [xs[n]];
      assert n > 0 ==> le(xs[n - 1], xs[n]);
    }
  }

  lemma {:induction false} InsertBelow<T(!new)>(low: seq<T>, high: seq<T>, x: T, le: (T, T) -> bool)
    requires forall y :: y in high ==> !le(y, x)
    requires low != [] ==> le(low[|low| - 1], x)
    ensures Insert(low + high, x, le) == low + [x] + high
  {
    if high == [] {
      assert low + high == low;
      assert low + [x] + high == low + [x];
    } else {
      var n := |high| - 1;
      var last := high[n];
      assert last in high;
      InsertBelow(low, high[..n], x, le);
      assert low + high == low + high[..n] + [last];
      assert low + [x] + high[..n] + [last] == low + [x] + high;
    }
  }

  lemma SwapOne<T(!new)>(high: seq<T>, front: seq<T>, last: T, le: (T, T) -> bool)
    requires SortBy(high + front, le) == front + high
    requires forall y :: y in high ==> !le(y, last)
    requires front != [] ==> le(front[|front| - 1], last)
    ensures SortBy(high + (front + [last]), le) == front + [last] + high
  {
    InsertBelow(front, high, last, le);
    assert high + (front + [last]) == high + front + [last];
  }

  /** Sorting a sorted block followed by a sorted block that lies wholly below it
      swaps the two. */
  lemma {:induction false} SortBySwaps<T(!new)>(high: seq<T>, low: seq<T>, le: (T, T) -> bool)
    requires Sorted(high, le) && Sorted(low, le)
    requires forall x, y :: x in low && y in high ==> !le(y, x)
    ensures SortBy(high + low, le) == low + high
  {
    if low == [] {
      assert high + low == high == low + high;
      SortBySorted(high, le);
    } else {
      var n := |low| - 1;
      var (front, last) := (low[..n], low[n]);
      assert low == front + [last];
      assert last in low && (n > 0 ==> le(front[n - 1], last));
      SortBySwaps(high, front, le);
      SwapOne(high, front, last, le);
    }
  }

  /** No two different elements tie. */
  ghost predicate TieFree<T(!new)>(xs: multiset<T>, le: (T, T) -> bool) {
    forall x, y :: x in xs && y in xs && le(x, y) && le(y, x) ==> x == y
  }

  lemma DropLast<T>(xs: seq<T>)
    requires xs != []
    ensures multiset(xs[..|xs| - 1]) == multiset(xs) - multiset{xs[|xs| - 1]}
  {
    assert xs == xs[..|xs| - 1] + [xs[|xs| - 1]];
  }

  lemma LastsAgree<T(!new)>(xs: seq<T>, ys: seq<T>, le: (T, T) -> bool)
    requires TotalPreorder(le) && Sorted(xs, le) && Sorted(ys, le)
    requires multiset(xs) == multiset(ys) && TieFree(multiset(xs), le)
    requires xs != [] && ys != []
    ensures xs[|xs| - 1] == ys[|ys| - 1]
  {
    var (x, y) := (xs[|xs| - 1], ys[|ys| - 1]);
    SameElements(xs, ys, x);
    SameElements(xs, ys, y);
    assert x in multiset(xs) && y in multiset(xs);
  }

  lemma DropLastKeeps<T(!new)>(xs: seq<T>, le: (T, T) -> bool)
    requires xs != [] && Sorted(xs, le) && TieFree(multiset(xs), le)
    ensures Sorted(xs[..|xs| - 1], le) && TieFree(multiset(xs[..|xs| - 1]), le)
  {
  }

  lemma SameFrontSameLast<T>(xs: seq<T>, ys: seq<T>)
    requires xs != [] && |xs| == |ys| && xs[..|xs| - 1] == ys[..|ys| - 1] && xs[|xs| - 1] == ys[|ys| - 1]
    ensures xs == ys
  {
    assert xs == xs[..|xs| - 1] + [xs[|xs| - 1]];
    assert ys == ys[..|ys| - 1] + [ys[|ys| - 1]];
  }

  lemma SameLength<T>(xs: seq<T>, ys: seq<T>)
    requires multiset(xs) == multiset(ys)
    ensures |xs| == |ys|
  {
    assert |xs| == |multiset(xs)| && |ys| == |multiset(ys)|;
  }

  lemma FrontsAgree<T(!new)>(xs: seq<T>, ys: seq<T>, le: (T, T) -> bool)
    requires TotalPreorder(le) && Sorted(xs, le) && Sorted(ys, le)
    requires multiset(xs) == multiset(ys) && TieFree(multiset(xs), le)
    requires xs != [] && ys != []
    ensures var (x, y) := (xs[..|xs| - 1], ys[..|ys| - 1]);
            && Sorted(x, le) && Sorted(y, le) && multiset(x) == multiset(y) && TieFree(multiset(x), le)
            && xs[|xs| - 1] == ys[|ys| - 1]
  {
    LastsAgree(xs, ys, le);
    DropLastKeeps(xs, le);
    DropLastKeeps(ys, le);
    DropLast(xs);
    DropLast(ys);
  }

  /** A sorted list is determined by its contents. */
  lemma {:induction false} SortedUnique<T(!new)>(xs: seq<T>, ys: seq<T>, le: (T, T) -> bool)
    requires TotalPreorder(le) && Sorted(xs, le) && Sorted(ys, le)
    requires multiset(xs) == multiset(ys) && TieFree(multiset(xs), le)
    ensures xs == ys
  {
    SameLength(xs, ys);
    if xs != [] {
      FrontsAgree(xs, ys, le);
      SortedUnique(xs[..|xs| - 1], ys[..|ys| - 1], le);
      SameFrontSameLast(xs, ys);
    }
  }

  // ----- mapping -----

  function MapOver<T, U>(xs: seq<T>, f: T -> U): (ys: seq<U>)
    ensures |ys| == |xs|
  {
    if xs == [] then [] else MapOver(xs[..|xs| - 1], f) + [f(xs[|xs| - 1])]
  }

  lemma {:induction false} MapOverAt<T, U>(xs: seq<T>, f: T -> U, i: nat)
    requires i < |xs|
    ensures MapOver(xs, f)[i] == f(xs[i])
  {
    if i < |xs| - 1 {
      MapOverAt(xs[..|xs| - 1], f, i);
    }
  }

  lemma {:induction false} InsertMapped<T, U>(xs: seq<T>, x: T, le: (T, T) -> bool, f: T -> U)
    ensures multiset(MapOver(Insert(xs, x, le), f)) == multiset(MapOver(xs, f)) + multiset{f(x)}
  {
    if xs == [] {
      assert [] + [x] == [x];
    } else {
      var n := |xs| - 1;
      InsertMapped(xs[..n], x, le, f);
    }
  }

  /** Whatever is read off the elements, sorting only rearranges it. */
  lemma {:induction false} SortMapped<T, U>(xs: seq<T>, le: (T, T) -> bool, f: T -> U)
    ensures multiset(MapOver(SortBy(xs, le), f)) == multiset(MapOver(xs, f))
  {
    if xs != [] {
      var n := |xs| - 1;
      SortMapped(xs[..n], le, f);
      InsertMapped(SortBy(xs[..n], le), xs[n], le, f);
    }
  }

  // ----- filtering -----

  function Filter<T>(xs: seq<T>, keep: T -> bool): (r: seq<T>)
    ensures |r| <= |xs|
  {
    if xs == [] then []
    else
      var n := |xs| - 1;
      if keep(xs[n]) then Filter(xs[..n], keep) + [xs[n]] else Filter(xs[..n], keep)
  }

  lemma {:induction false} FilterElements<T>(xs: seq<T>, keep: T -> bool, x: T)
    ensures x in Filter(xs, keep) <==> x in xs && keep(x)
  {
    if xs != [] {
      var n := |xs| - 1;
      FilterElements(xs[..n], keep, x);
      assert xs == xs[..n] + [xs[n]];
    }
  }

  lemma {:induction false} FilterSorted<T(!new)>(xs: seq<T>, keep: T -> bool, le: (T, T) -> bool)
    requires Sorted(xs, le)
    ensures Sorted(Filter(xs, keep), le)
  {
    if xs != [] {
      var n := |xs| - 1;
      FilterSorted(xs[..n], keep, le);
      if keep(xs[n]) {
        forall y | y in Filter(xs[..n], keep) ensures le(y, xs[n]) {
          FilterElements(xs[..n], keep, y);
        }
      }
    }
  }

  lemma {:induction false} FilterAll<T>(xs: seq<T>, keep: T -> bool)
    ensures Filter(xs, keep) == xs <==> forall x :: x in xs ==> keep(x)
    ensures |Filter(xs, keep)| == |xs| <==> Filter(xs, keep) == xs
  {
    if xs != [] {
      var n := |xs| - 1;
      FilterAll(xs[..n], keep);
      assert xs == xs[..n] + [xs[n]];
    }
  }

  lemma {:induction false} FilterNone<T>(xs: seq<T>, keep: T -> bool)
    requires forall x :: x in xs ==> !keep(x)
    ensures Filter(xs, keep) == []
  {
    if xs != [] {
      assert xs[|xs| - 1] in xs;
      FilterNone(xs[..|xs| - 1], keep);
    }
  }

  /** A sorted list splits at a downward-closed property. */
  lemma {:induction false} FilterSplits<T(!new)>(xs: seq<T>, p: T -> bool, q: T -> bool, pq: T -> bool, le: (T, T) -> bool)
    requires Sorted(xs, le)
    requires forall x :: pq(x) == (p(x) || q(x)) && !(p(x) && q(x))
    requires forall x, y :: le(x, y) && q(x) ==> !p(y)
    ensures Filter(xs, pq) == Filter(xs, p) + Filter(xs, q)
  {
    if xs != [] {
      var n := |xs| - 1;
      FilterSplits(xs[..n], p, q, pq, le);
      if p(xs[n]) {
        forall y | y in xs[..n] ensures !q(y) {
          var i :| 0 <= i < n && xs[i] == y;
          assert le(xs[i], xs[n]);
        }
        FilterNone(xs[..n], q);
      }
    }
  }

  // ----- lexicographic order -----

  /** Code-point order on strings, as Python compares them. */
  predicate LexLe(a: string, b: string) {
    a == [] || (b != [] && (a[0] < b[0] || (a[0] == b[0] && LexLe(a[1..], b[1..]))))
  }

  lemma {:induction false} LexReflexive(a: string)
    ensures LexLe(a, a)
  {
    if a != [] {
      LexReflexive(a[1..]);
    }
  }

  lemma {:induction false} LexTotal(a: string, b: string)
    ensures LexLe(a, b) || LexLe(b, a)
  {
    if a != [] && b != [] {
      LexTotal(a[1..], b[1..]);
    }
  }

  lemma {:induction false} LexTransitive(a: string, b: string, c: string)
    requires LexLe(a, b) && LexLe(b, c)
    ensures LexLe(a, c)
  {
    if a != [] && a[0] == b[0] == c[0] {
      LexTransitive(a[1..], b[1..], c[1..]);
    }
  }

  lemma {:induction false} LexAntisymmetric(a: string, b: string)
    requires LexLe(a, b) && LexLe(b, a)
    ensures a == b
  {
    if a != [] {
      LexAntisymmetric(a[1..], b[1..]);
      assert a == [a[0]] + a[1..] && b == [b[0]] + b[1..];
    }
  }

  lemma LexIsTotalPreorder()
    ensures TotalPreorder(LexLe)
  {
    forall a, b ensures LexLe(a, b) || LexLe(b, a) {
      LexTotal(a, b);
    }
    forall a, b, c | LexLe(a, b) && LexLe(b, c) ensures LexLe(a, c) {
      LexTransitive(a, b, c);
    }
  }

  /** After a common prefix, the next characters decide. */
  lemma {:induction false} LexDecidedAt(a: string, b: string, k: nat)
    requires k < |a| && k < |b| && a[..k] == b[..k] && a[k] < b[k]
    ensures LexLe(a, b) && !LexLe(b, a)
  {
    if k > 0 {
      assert a[0] == a[..k][0] == b[..k][0] == b[0];
      assert a[1..][..k - 1] == a[..k][1..] && b[1..][..k - 1] == b[..k][1..];
      LexDecidedAt(a[1..], b[1..], k - 1);
    }
  }

  /** Sorting makes two lists of strings equal exactly when they have the same contents. */
  lemma SortedEqualIffPermuted(a: seq<string>, b: seq<string>)
    ensures SortBy(a, LexLe) == SortBy(b, LexLe) <==> multiset(a) == multiset(b)
  {
    SortByContents(a, LexLe);
    SortByContents(b, LexLe);
    if multiset(a) == multiset(b) {
      LexIsTotalPreorder();
      SortBySorts(a, LexLe);
      SortBySorts(b, LexLe);
      forall x, y | x in multiset(a) && y in multiset(a) && LexLe(x, y) && LexLe(y, x) ensures x == y {
        LexAntisymmetric(x, y);
      }
      SortedUnique(SortBy(a, LexLe), SortBy(b, LexLe), LexLe);
    }
  }

  // ----- positions -----

  /** How many elements satisfy `p`. */
  function CountIf<T>(xs: seq<T>, p: T -> bool): nat {
    if xs == [] then 0 else CountIf(xs[..|xs| - 1], p) + if p(xs[|xs| - 1]) then 1 else 0
  }

  lemma CountIfAppend<T>(xs: seq<T>, x: T, p: T -> bool)
    ensures CountIf(xs + [x], p) == CountIf(xs, p) + if p(x) then 1 else 0
  {
    assert (xs + [x])[..|xs|] == xs;
  }

  lemma {:induction false} InsertCounts<T>(xs: seq<T>, x: T, le: (T, T) -> bool, p: T -> bool)
    ensures CountIf(Insert(xs, x, le), p) == CountIf(xs, p) + if p(x) then 1 else 0
  {
    if xs == [] {
      CountIfAppend([], x, p);
      assert [] + [x] == [x];
    } else {
      var (front, last) := (xs[..|xs| - 1], xs[|xs| - 1]);
      if le(last, x) {
        CountIfAppend(xs, x, p);
      } else {
        InsertCounts(front, x, le, p);
        CountIfAppend(Insert(front, x, le), last, p);
      }
    }
  }

  lemma {:induction false} SortCounts<T>(xs: seq<T>, le: (T, T) -> bool, p: T -> bool)
    ensures CountIf(SortBy(xs, le), p) == CountIf(xs, p)
  {
    if xs != [] {
      SortCounts(xs[..|xs| - 1], le, p);
      InsertCounts(SortBy(xs[..|xs| - 1], le), xs[|xs| - 1], le, p);
    }
  }

  lemma {:induction false} CountPrefix<T>(xs: seq<T>, p: T -> bool, i: nat)
    requires i <= |xs| && forall j :: 0 <= j < |xs| ==> (p(xs[j]) <==> j < i)
    ensures CountIf(xs, p) == i
  {
    if xs != [] {
      var n := |xs| - 1;
      assert forall j :: 0 <= j < n ==> xs[..n][j] == xs[j];
      CountPrefix(xs[..n], p, if i <= n then i else n);
    }
  }

  /** After sorting, an element comes after exactly the elements that belong before it. */
  lemma SortedPosition<T>(xs: seq<T>, le: (T, T) -> bool, before: T -> bool, i: nat)
    requires i <= |SortBy(xs, le)|
    requires forall j :: 0 <= j < |SortBy(xs, le)| ==> (before(SortBy(xs, le)[j]) <==> j < i)
    ensures CountIf(xs, before) == i
  {
    CountPrefix(SortBy(xs, le), before, i);
    SortCounts(xs, le, before);
  }
}
