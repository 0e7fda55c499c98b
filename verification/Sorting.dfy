/** Sorting by a total preorder, the one library service that ranking code here relies on. */
module Sorting {

  ghost predicate TotalPreorder<T(!new)>(leq: (T, T) -> bool) {
    && (forall x, y :: leq(x, y) || leq(y, x))
    && (forall x, y, z :: leq(x, y) && leq(y, z) ==> leq(x, z))
  }

  ghost predicate Sorted<T>(s: seq<T>, leq: (T, T) -> bool) {
    forall i, j :: 0 <= i < j < |s| ==> leq(s[i], s[j])
  }

  // Inserts after every element that may stay in front: equal elements keep their order.
  function Insert<T>(s: seq<T>, x: T, leq: (T, T) -> bool): seq<T> {
    if s != [] && !leq(s[|s| - 1], x) then Insert(s[..|s| - 1], x, leq) + [s[|s| - 1]] else s + [x]
  }

  function SortBy<T>(s: seq<T>, leq: (T, T) -> bool): seq<T> {
    if s == [] then [] else Insert(SortBy(s[..|s| - 1], leq), s[|s| - 1], leq)
  }

  // ---------- sorting permutes, whatever the comparison ----------

  lemma {:induction false} InsertPermutes<T>(s: seq<T>, x: T, leq: (T, T) -> bool)
    ensures multiset(Insert(s, x, leq)) == multiset(s) + multiset{x}
    ensures |Insert(s, x, leq)| == |s| + 1
  {
    if s != [] && !leq(s[|s| - 1], x) {
      var front := s[..|s| - 1];
      assert s == front + [s[|s| - 1]];
      InsertPermutes(front, x, leq);
    }
  }

  lemma {:induction false} SortByPermutes<T>(s: seq<T>, leq: (T, T) -> bool)
    ensures multiset(SortBy(s, leq)) == multiset(s)
    ensures |SortBy(s, leq)| == |s|
  {
    if s != [] {
      var front := s[..|s| - 1];
      assert s == front + [s[|s| - 1]];
      SortByPermutes(front, leq);
      InsertPermutes(SortBy(front, leq), s[|s| - 1], leq);
    }
  }

  // ---------- sorting sorts ----------

  lemma SortedAppend<T(!new)>(s: seq<T>, last: T, leq: (T, T) -> bool)
    requires Sorted(s, leq) && forall i :: 0 <= i < |s| ==> leq(s[i], last)
    ensures Sorted(s + [last], leq)
  {
  }

  lemma SortedFront<T(!new)>(s: seq<T>, leq: (T, T) -> bool)
    requires s != [] && Sorted(s, leq)
    ensures var last := s[|s| - 1];
      Sorted(s[..|s| - 1], leq) && forall i :: 0 <= i < |s| - 1 ==> leq(s[i], last)
  {
  }

  lemma {:induction false} InsertSorts<T(!new)>(s: seq<T>, x: T, leq: (T, T) -> bool)
    requires TotalPreorder(leq) && Sorted(s, leq)
    ensures Sorted(Insert(s, x, leq), leq)
  {
    if s != [] {
      var front, last := s[..|s| - 1], s[|s| - 1];
      SortedFront(s, leq);
      if leq(last, x) {
        forall i | 0 <= i < |s| ensures leq(s[i], x) {
          assert i < |s| - 1 ==> leq(s[i], last);
        }
        SortedAppend(s, x, leq);
      } else {
        var inserted := Insert(front, x, leq);
        InsertSorts(front, x, leq);
        InsertPermutes(front, x, leq);
        forall i | 0 <= i < |inserted| ensures leq(inserted[i], last) {
          assert inserted[i] in multiset(inserted);
          assert inserted[i] in front || inserted[i] == x;
        }
        SortedAppend(inserted, last, leq);
      }
    }
  }

  /** Sorting by a total preorder gives a sorted permutation. */
  lemma {:induction false} SortByCorrect<T(!new)>(s: seq<T>, leq: (T, T) -> bool)
    requires TotalPreorder(leq)
    ensures Sorted(SortBy(s, leq), leq)
    ensures multiset(SortBy(s, leq)) == multiset(s)
    ensures |SortBy(s, leq)| == |s|
  {
    SortByPermutes(s, leq);
    if s != [] {
      SortByCorrect(s[..|s| - 1], leq);
      InsertSorts(SortBy(s[..|s| - 1], leq), s[|s| - 1], leq);
    }
  }

  // ---------- sorting a total order ----------

  ghost predicate Antisymmetric<T(!new)>(leq: (T, T) -> bool) {
    forall x, y :: leq(x, y) && leq(y, x) ==> x == y
  }

  lemma SameLast<T(!new)>(a: seq<T>, b: seq<T>, leq: (T, T) -> bool)
    requires Sorted(a, leq) && Sorted(b, leq) && Antisymmetric(leq)
    requires a != [] && b != [] && multiset(a) == multiset(b)
    ensures a[|a| - 1] == b[|b| - 1]
  {
    var m, n := |a| - 1, |b| - 1;
    assert a[m] in multiset(b) && b[n] in multiset(a);
    var i :| 0 <= i < |b| && b[i] == a[m];
    var j :| 0 <= j < |a| && a[j] == b[n];
    assert i < n ==> leq(b[i], b[n]);
    assert j < m ==> leq(a[j], a[m]);
  }

  lemma SameLength<T>(a: seq<T>, b: seq<T>)
    requires multiset(a) == multiset(b)
    ensures |a| == |b|
  {
    assert |a| == |multiset(a)| == |multiset(b)| == |b|;
  }

  lemma FrontCounts<T>(s: seq<T>)
    requires s != []
    ensures multiset(s[..|s| - 1]) == multiset(s) - multiset{s[|s| - 1]}
  {
    var front, last := s[..|s| - 1], s[|s| - 1];
    assert s == front + [last];
    assert multiset(s) == multiset(front) + multiset{last};
  }

  lemma SameFronts<T(!new)>(a: seq<T>, b: seq<T>, leq: (T, T) -> bool)
    requires Sorted(a, leq) && Sorted(b, leq) && Antisymmetric(leq)
    requires a != [] && b != [] && multiset(a) == multiset(b)
    ensures a[|a| - 1] == b[|b| - 1] && multiset(a[..|a| - 1]) == multiset(b[..|b| - 1])
    ensures Sorted(a[..|a| - 1], leq) && Sorted(b[..|b| - 1], leq)
  {
    SameLast(a, b, leq);
    SortedFront(a, leq);
    SortedFront(b, leq);
    FrontCounts(a);
    FrontCounts(b);
  }

  lemma FrontAndLast<T>(s: seq<T>)
    requires s != []
    ensures s == s[..|s| - 1] + [s[|s| - 1]]
  {
  }

  /** Where no two elements are equivalent, there is one way to sort them. */
  lemma {:induction false} SortedIsUnique<T(!new)>(a: seq<T>, b: seq<T>, leq: (T, T) -> bool)
    requires Sorted(a, leq) && Sorted(b, leq) && Antisymmetric(leq)
    requires multiset(a) == multiset(b)
    ensures a == b
  {
    SameLength(a, b);
    if a != [] {
      SameFronts(a, b, leq);
      SortedIsUnique(a[..|a| - 1], b[..|b| - 1], leq);
      FrontAndLast(a);
      FrontAndLast(b);
    }
  }

  /** Two comparisons that agree on the elements sort them alike. */
  ghost predicate AgreeOn<T(!new)>(all: multiset<T>, leq: (T, T) -> bool, other: (T, T) -> bool) {
    forall x, y :: x in all && y in all ==> leq(x, y) == other(x, y)
  }

  lemma {:induction false} InsertAgrees<T(!new)>(s: seq<T>, x: T, all: multiset<T>, leq: (T, T) -> bool,
                                                 other: (T, T) -> bool)
    requires multiset(s) + multiset{x} <= all && AgreeOn(all, leq, other)
    ensures Insert(s, x, leq) == Insert(s, x, other)
  {
    if s != [] {
      var front, last := s[..|s| - 1], s[|s| - 1];
      assert s == front + [last];
      assert last in multiset(s) && last in all;
      assert x in multiset(s) + multiset{x} && x in all;
      InsertAgrees(front, x, all, leq, other);
    }
  }

  lemma {:induction false} SortByAgrees<T(!new)>(s: seq<T>, all: multiset<T>, leq: (T, T) -> bool,
                                                 other: (T, T) -> bool)
    requires multiset(s) <= all && AgreeOn(all, leq, other)
    ensures SortBy(s, leq) == SortBy(s, other)
  {
    if s != [] {
      var front, last := s[..|s| - 1], s[|s| - 1];
      assert s == front + [last];
      SortByAgrees(front, all, leq, other);
      SortByPermutes(front, other);
      InsertAgrees(SortBy(front, other), last, all, leq, other);
    }
  }

  // ---------- stability ----------

  predicate Equivalent<T>(a: T, b: T, leq: (T, T) -> bool) { leq(a, b) && leq(b, a) }

  /** The elements equivalent to `x`, in order. */
  function Alike<T>(s: seq<T>, x: T, leq: (T, T) -> bool): seq<T> {
    if s == [] then []
    else Alike(s[..|s| - 1], x, leq) + if Equivalent(s[|s| - 1], x, leq) then [s[|s| - 1]] else []
  }

  lemma AlikeAppend<T>(s: seq<T>, last: T, x: T, leq: (T, T) -> bool)
    ensures Alike(s + [last], x, leq) == Alike(s, x, leq) + if Equivalent(last, x, leq) then [last] else []
  {
    assert (s + [last])[..|s|] == s;
  }

  lemma {:induction false} InsertIsStable<T(!new)>(s: seq<T>, y: T, x: T, leq: (T, T) -> bool)
    requires TotalPreorder(leq)
    ensures Alike(Insert(s, y, leq), x, leq) == Alike(s, x, leq) + if Equivalent(y, x, leq) then [y] else []
  {
    if s != [] && !leq(s[|s| - 1], y) {
      InsertIsStable(s[..|s| - 1], y, x, leq);
      AlikeAppend(Insert(s[..|s| - 1], y, leq), s[|s| - 1], x, leq);
    } else {
      AlikeAppend(s, y, x, leq);
    }
  }

  /** The sort is stable: elements that neither precede nor follow one another keep their order. */
  lemma {:induction false} SortByIsStable<T(!new)>(s: seq<T>, x: T, leq: (T, T) -> bool)
    requires TotalPreorder(leq)
    ensures Alike(SortBy(s, leq), x, leq) == Alike(s, x, leq)
  {
    if s != [] {
      SortByIsStable(s[..|s| - 1], x, leq);
      InsertIsStable(SortBy(s[..|s| - 1], leq), s[|s| - 1], x, leq);
    }
  }

  lemma AcrossSorted<T(!new)>(best: seq<T>, rest: seq<T>, leq: (T, T) -> bool)
    requires Sorted(best + rest, leq)
    ensures Sorted(best, leq)
    ensures forall i, x :: 0 <= i < |best| && x in multiset(rest) ==> leq(best[i], x)
  {
    var all := best + rest;
    forall i, j | 0 <= i < j < |best| ensures leq(best[i], best[j]) {
      assert leq(all[i], all[j]);
    }
    forall i, x | 0 <= i < |best| && x in multiset(rest) ensures leq(best[i], x) {
      assert x in rest;
      var j :| 0 <= j < |rest| && rest[j] == x;
      assert leq(all[i], all[|best| + j]);
    }
  }

  /** The first `n` of the sorted elements are best: nothing left out precedes any of them. */
  lemma PrefixIsBest<T(!new)>(s: seq<T>, leq: (T, T) -> bool, n: nat)
    requires TotalPreorder(leq) && n <= |SortBy(s, leq)|
    ensures var best := SortBy(s, leq)[..n];
      && Sorted(best, leq)
      && multiset(best) <= multiset(s)
      && forall i, x :: 0 <= i < n && x in multiset(s) - multiset(best) ==> leq(best[i], x)
  {
    SortByCorrect(s, leq);
    var sorted := SortBy(s, leq);
    var best, rest := sorted[..n], sorted[n..];
    assert sorted == best + rest;
    AcrossSorted(best, rest, leq);
    assert multiset(s) - multiset(best) == multiset(rest);
  }
}
