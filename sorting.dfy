/**
 * Python's `sorted`/`list.sort` with a key: a stable sort, written as an
 * insertion sort over an ordering relation `le` ("may come first").
 */
module Sorting {
  import opened Lists

  /** Any two values are comparable. */
  ghost predicate Total<T(!new)>(le: (T, T) -> bool) {
    forall a, b :: le(a, b) || le(b, a)
  }

  ghost predicate Transitive<T(!new)>(le: (T, T) -> bool) {
    forall a, b, c :: le(a, b) && le(b, c) ==> le(a, c)
  }

  /** Each element may come before the next. */
  predicate AdjacentSorted<T>(s: seq<T>, le: (T, T) -> bool) {
    forall i :: 0 < i < |s| ==> le(s[i - 1], s[i])
  }

  predicate Sorted<T>(s: seq<T>, le: (T, T) -> bool) {
    forall i, j :: 0 <= i < j < |s| ==> le(s[i], s[j])
  }

  /** Puts `x` before the first element it may precede, so equal elements keep their order. */
  function Insert<T>(x: T, s: seq<T>, le: (T, T) -> bool): (r: seq<T>)
    ensures multiset(r) == multiset(s) + multiset{x}
  {
    if s == [] then [x]
    else if le(x, s[0]) then [x] + s
    else
      assert s == [s[0]] + s[1..];
      [s[0]] + Insert(x, s[1..], le)
  }

  function SortBy<T>(s: seq<T>, le: (T, T) -> bool): (r: seq<T>)
    ensures multiset(r) == multiset(s)
  {
    if s == [] then []
    else
      assert s == [s[0]] + s[1..];
      Insert(s[0], SortBy(s[1..], le), le)
  }

  lemma SortByLength<T>(s: seq<T>, le: (T, T) -> bool)
    ensures |SortBy(s, le)| == |s|
  {
    assert |multiset(SortBy(s, le))| == |multiset(s)|;
  }

  lemma {:induction false} InsertSorted<T(!new)>(x: T, s: seq<T>, le: (T, T) -> bool)
    requires Total(le)
    requires AdjacentSorted(s, le)
    ensures AdjacentSorted(Insert(x, s, le), le)
    ensures s != [] ==> Insert(x, s, le)[0] == x || Insert(x, s, le)[0] == s[0]
  {
    if s != [] && !le(x, s[0]) {
      assert AdjacentSorted(s[1..], le);
      InsertSorted(x, s[1..], le);
    }
  }

  lemma {:induction false} SortByAdjacent<T(!new)>(s: seq<T>, le: (T, T) -> bool)
    requires Total(le)
    ensures AdjacentSorted(SortBy(s, le), le)
  {
    if s != [] {
      SortByAdjacent(s[1..], le);
      InsertSorted(s[0], SortBy(s[1..], le), le);
    }
  }

  lemma {:induction false} AdjacentToSorted<T(!new)>(s: seq<T>, le: (T, T) -> bool)
    requires Transitive(le)
    requires AdjacentSorted(s, le)
    ensures Sorted(s, le)
  {
    if |s| > 1 {
      AdjacentToSorted(s[1..], le);
      assert forall j :: 1 < j < |s| ==> le(s[1], s[j]) by {
        assert forall j :: 1 < j < |s| ==> s[1..][0] == s[1] && s[1..][j - 1] == s[j];
      }
    }
  }

  /** Sorting by a total preorder yields a sorted permutation of the input. */
  lemma SortBySorted<T(!new)>(s: seq<T>, le: (T, T) -> bool)
    requires Total(le) && Transitive(le)
    ensures Sorted(SortBy(s, le), le)
    ensures multiset(SortBy(s, le)) == multiset(s) && |SortBy(s, le)| == |s|
  {
    SortByAdjacent(s, le);
    AdjacentToSorted(SortBy(s, le), le);
    SortByLength(s, le);
  }

  /** Keeping only some elements of a sorted list leaves it sorted. */
  lemma {:induction false} FilterSorted<T>(s: seq<T>, p: T -> bool, le: (T, T) -> bool)
    requires Sorted(s, le)
    ensures Sorted(Filter(s, p), le)
  {
    if s != [] {
      assert Sorted(s[1..], le);
      FilterSorted(s[1..], p, le);
      var rest := Filter(s[1..], p);
      forall k | 0 <= k < |rest| ensures le(s[0], rest[k]) {
        var j :| 0 <= j < |s[1..]| && s[1..][j] == rest[k];
        assert s[j + 1] == rest[k];
      }
    }
  }
}
