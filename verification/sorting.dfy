/** Stable sorting by a three-way comparison, the model of
    `Array.prototype.sort` with a comparator (stable since ECMAScript 2019). */
module Sorting {
  import opened Seqs

  /** `s` is ordered by `cmp`: no element compares above a later one. */
  predicate SortedBy<T>(s: seq<T>, cmp: (T, T) -> int) {
    forall i, j :: 0 <= i < j < |s| ==> cmp(s[i], s[j]) <= 0
  }

  predicate AntisymmetricAt<T>(cmp: (T, T) -> int, a: T, b: T) {
    cmp(b, a) == -cmp(a, b)
  }

  predicate TransitiveAt<T>(cmp: (T, T) -> int, a: T, b: T, c: T) {
    cmp(a, b) <= 0 && cmp(b, c) <= 0 ==> cmp(a, c) <= 0
  }

  /** Swapping the operands negates the comparison. The law is instantiated
      only where a proof names it, which keeps the solver from chaining it. */
  ghost predicate Antisymmetric<T(!new)>(cmp: (T, T) -> int) {
    forall a, b :: AntisymmetricAt(cmp, a, b)
  }

  /** "Compares at most" is transitive. */
  ghost predicate Transitive<T(!new)>(cmp: (T, T) -> int) {
    forall a, b, c :: TransitiveAt(cmp, a, b, c)
  }

  /** `x` placed in front of the first element it does not compare above. */
  function Insert<T>(x: T, s: seq<T>, cmp: (T, T) -> int): (r: seq<T>)
    ensures |r| == |s| + 1
  {
    if |s| == 0 then [x]
    else if cmp(x, s[0]) <= 0 then [x] + s
    else [s[0]] + Insert(x, s[1..], cmp)
  }

  /** Inserting adds exactly the inserted element. */
  lemma {:induction false} InsertPermutes<T>(x: T, s: seq<T>, cmp: (T, T) -> int)
    ensures multiset(Insert(x, s, cmp)) == multiset(s) + multiset{x}
    decreases |s|
  {
    if |s| > 0 && cmp(x, s[0]) > 0 {
      InsertPermutes(x, s[1..], cmp);
      assert s == [s[0]] + s[1..];
    }
  }

  /** Insertion sort from the back: each element goes in front of the
      sorted rest, before any element it ties with, so ties keep their order. */
  function InsertionSort<T>(s: seq<T>, cmp: (T, T) -> int): (r: seq<T>)
    ensures |r| == |s|
    ensures multiset(r) == multiset(s)
  {
    if |s| == 0 then []
    else
      var rest := InsertionSort(s[1..], cmp);
      InsertPermutes(s[0], rest, cmp);
      assert s == [s[0]] + s[1..];
      Insert(s[0], rest, cmp)
  }

  /** An element no greater than any of an ordered sequence can go in front of it. */
  lemma {:induction false} SortedCons<T>(a: T, t: seq<T>, cmp: (T, T) -> int)
    requires SortedBy(t, cmp)
    requires forall k :: 0 <= k < |t| ==> cmp(a, t[k]) <= 0
    ensures SortedBy([a] + t, cmp)
  {
    var r := [a] + t;
    forall i, j | 0 <= i < j < |r|
      ensures cmp(r[i], r[j]) <= 0
    {
      assert r[j] == t[j - 1];
      if i > 0 {
        assert r[i] == t[i - 1];
      }
    }
  }

  /** The tail of an ordered sequence is ordered. */
  lemma {:induction false} SortedTail<T>(s: seq<T>, cmp: (T, T) -> int)
    requires |s| > 0 && SortedBy(s, cmp)
    ensures SortedBy(s[1..], cmp)
  {
    forall i, j | 0 <= i < j < |s| - 1
      ensures cmp(s[1..][i], s[1..][j]) <= 0
    {
      assert s[1..][i] == s[i + 1] && s[1..][j] == s[j + 1];
    }
  }

  /** When `x` goes after the head, the head stays below everything behind it. */
  lemma {:induction false} HeadBelowInsert<T(!new)>(x: T, s: seq<T>, cmp: (T, T) -> int)
    requires Antisymmetric(cmp)
    requires SortedBy(s, cmp)
    requires |s| > 0 && cmp(x, s[0]) > 0
    ensures forall k :: 0 <= k < |s| ==> cmp(s[0], Insert(x, s[1..], cmp)[k]) <= 0
  {
    var rest := Insert(x, s[1..], cmp);
    InsertPermutes(x, s[1..], cmp);
    forall k | 0 <= k < |rest|
      ensures cmp(s[0], rest[k]) <= 0
    {
      assert rest[k] in multiset(rest);
      if rest[k] == x {
        assert AntisymmetricAt(cmp, x, s[0]);
      } else {
        assert rest[k] in multiset(s[1..]);
        var m :| 0 <= m < |s| - 1 && s[1..][m] == rest[k];
        assert s[m + 1] == rest[k];
      }
    }
  }

  lemma {:induction false} InsertSorted<T(!new)>(x: T, s: seq<T>, cmp: (T, T) -> int)
    requires Antisymmetric(cmp) && Transitive(cmp)
    requires SortedBy(s, cmp)
    ensures SortedBy(Insert(x, s, cmp), cmp)
    decreases |s|
  {
    if |s| > 0 && cmp(x, s[0]) > 0 {
      SortedTail(s, cmp);
      InsertSorted(x, s[1..], cmp);
      HeadBelowInsert(x, s, cmp);
      SortedCons(s[0], Insert(x, s[1..], cmp), cmp);
    } else if |s| > 0 {
      forall k | 0 <= k < |s|
        ensures cmp(x, s[k]) <= 0
      {
        assert TransitiveAt(cmp, x, s[0], s[k]);
      }
      SortedCons(x, s, cmp);
    }
  }

  /** Sorting by a comparison that is antisymmetric and transitive yields
      an ordered permutation of the input. */
  lemma {:induction false} InsertionSortSorted<T(!new)>(s: seq<T>, cmp: (T, T) -> int)
    requires Antisymmetric(cmp) && Transitive(cmp)
    ensures SortedBy(InsertionSort(s, cmp), cmp)
    decreases |s|
  {
    if |s| > 0 {
      InsertionSortSorted(s[1..], cmp);
      InsertSorted(s[0], InsertionSort(s[1..], cmp), cmp);
    }
  }

  /** When every pair ties, sorting changes nothing. */
  lemma {:induction false} InsertionSortAllTies<T(!new)>(s: seq<T>, cmp: (T, T) -> int)
    requires forall i, j :: 0 <= i < |s| && 0 <= j < |s| ==> cmp(s[i], s[j]) == 0
    ensures InsertionSort(s, cmp) == s
    decreases |s|
  {
    if |s| > 0 {
      assert forall i, j :: 0 <= i < |s| - 1 && 0 <= j < |s| - 1 ==> s[1..][i] == s[i + 1] && s[1..][j] == s[j + 1];
      InsertionSortAllTies(s[1..], cmp);
      if |s| > 1 {
        assert cmp(s[0], s[1]) == 0;
      }
      assert [s[0]] + s[1..] == s;
    }
  }

  /** The elements that tie with `v`. */
  function Ties<T>(cmp: (T, T) -> int, v: T): T -> bool {
    e => cmp(e, v) == 0
  }

  /** Inserting an element never moves it past an element it ties with. */
  lemma {:induction false} InsertKeepsTies<T(!new)>(x: T, s: seq<T>, cmp: (T, T) -> int, v: T)
    requires Antisymmetric(cmp) && Transitive(cmp)
    ensures Filter(Insert(x, s, cmp), Ties(cmp, v)) == (if Ties(cmp, v)(x) then [x] else []) + Filter(s, Ties(cmp, v))
    decreases |s|
  {
    var p := Ties(cmp, v);
    if |s| == 0 {
      FilterCons(x, [], p);
      assert [x] + [] == [x];
    } else if cmp(x, s[0]) <= 0 {
      FilterCons(x, s, p);
    } else {
      var rest := Insert(x, s[1..], cmp);
      InsertKeepsTies(x, s[1..], cmp, v);
      assert Insert(x, s, cmp) == [s[0]] + rest;
      FilterCons(s[0], rest, p);
      FilterCons(s[0], s[1..], p);
      assert [s[0]] + s[1..] == s;
      if p(x) {
        assert AntisymmetricAt(cmp, s[0], v);
        assert TransitiveAt(cmp, x, v, s[0]);
        assert !p(s[0]);
        assert Filter(Insert(x, s, cmp), p) == [x] + Filter(s[1..], p);
        assert Filter(s, p) == Filter(s[1..], p);
      } else {
        assert Filter(rest, p) == Filter(s[1..], p);
      }
    }
  }

  /** The sort is stable: for every `v`, the elements that tie with `v`
      come out in the order they went in. */
  lemma {:induction false} InsertionSortStable<T(!new)>(s: seq<T>, cmp: (T, T) -> int, v: T)
    requires Antisymmetric(cmp) && Transitive(cmp)
    ensures Filter(InsertionSort(s, cmp), Ties(cmp, v)) == Filter(s, Ties(cmp, v))
    decreases |s|
  {
    if |s| > 0 {
      InsertionSortStable(s[1..], cmp, v);
      InsertKeepsTies(s[0], InsertionSort(s[1..], cmp), cmp, v);
    }
  }
}
