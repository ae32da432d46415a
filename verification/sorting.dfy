/** Stable sorting by an integer key.

    Both sorts in the system are comparison sorts over a timestamp: the pages
    call JavaScript's `Array.prototype.sort`, which is stable, with a
    newest-first comparator, and the repositories' derived queries end in
    `OrderByCreatedAt{Asc,Desc}`.  This module gives one stable insertion sort
    by ascending key; a descending order is the ascending order of the negated
    key. */
module Sorting {
  import opened Seqs

  /** Keys never decrease from left to right. */
  ghost predicate SortedBy<T>(key: T -> int, xs: seq<T>) {
    forall i, j :: 0 <= i < j < |xs| ==> key(xs[i]) <= key(xs[j])
  }

  /** The selector for the elements whose key is `k`. */
  function HasKey<T>(key: T -> int, k: int): T -> bool {
    x => key(x) == k
  }

  /** Puts `x` in front of the first element whose key is not smaller than its own. */
  function Insert<T>(key: T -> int, x: T, s: seq<T>): (r: seq<T>)
    ensures |r| == |s| + 1
    ensures multiset(r) == multiset(s) + multiset{x}
    ensures r[0] == x || (|s| > 0 && r[0] == s[0])
    decreases |s|
  {
    if |s| == 0 || key(x) <= key(s[0]) then [x] + s
    else
      assert s == [s[0]] + s[1..];
      [s[0]] + Insert(key, x, s[1..])
  }

  /** Stable insertion sort by ascending `key`. */
  function SortBy<T>(key: T -> int, xs: seq<T>): (r: seq<T>)
    ensures |r| == |xs|
    ensures multiset(r) == multiset(xs)
    ensures SortedBy(key, r)
    decreases |xs|
  {
    if |xs| == 0 then []
    else
      assert xs == [xs[0]] + xs[1..];
      var rest := SortBy(key, xs[1..]);
      InsertSorted(key, xs[0], rest);
      Insert(key, xs[0], rest)
  }

  /** Inserting into a sorted sequence keeps it sorted. */
  lemma {:induction false} InsertSorted<T>(key: T -> int, x: T, s: seq<T>)
    requires SortedBy(key, s)
    ensures SortedBy(key, Insert(key, x, s))
    decreases |s|
  {
    if |s| > 0 && key(x) > key(s[0]) {
      InsertSorted(key, x, s[1..]);
      var t := Insert(key, x, s[1..]);
      assert forall j :: 0 <= j < |t| ==> key(s[0]) <= key(t[j]) by {
        forall j | 0 <= j < |t|
          ensures key(s[0]) <= key(t[j])
        {
          assert t[j] in multiset(s[1..]) + multiset{x};
        }
      }
    }
  }

  /** Inserting `x` adds it in front of the elements that share its key. */
  lemma {:induction false} InsertKeepsKeyOrder<T>(key: T -> int, x: T, s: seq<T>, k: int)
    ensures Filter(HasKey(key, k), Insert(key, x, s))
         == (if key(x) == k then [x] else []) + Filter(HasKey(key, k), s)
    decreases |s|
  {
    var q := HasKey(key, k);
    if |s| == 0 || key(x) <= key(s[0]) {
      assert ([x] + s)[1..] == s;
    } else {
      InsertKeepsKeyOrder(key, x, s[1..], k);
      assert ([s[0]] + Insert(key, x, s[1..]))[1..] == Insert(key, x, s[1..]);
    }
  }

  /** Stability: the elements that share a key leave the sort in the order they came in. */
  lemma {:induction false} SortByIsStable<T>(key: T -> int, xs: seq<T>, k: int)
    ensures Filter(HasKey(key, k), SortBy(key, xs)) == Filter(HasKey(key, k), xs)
    decreases |xs|
  {
    if |xs| > 0 {
      SortByIsStable(key, xs[1..], k);
      InsertKeepsKeyOrder(key, xs[0], SortBy(key, xs[1..]), k);
    }
  }

  /** Stability stated for any selector that picks exactly the elements of key `k`. */
  lemma SortByIsStableFor<T>(key: T -> int, k: int, p: T -> bool, xs: seq<T>)
    requires forall x :: p(x) == (key(x) == k)
    ensures Filter(p, SortBy(key, xs)) == Filter(p, xs)
  {
    var sorted := SortBy(key, xs);
    var sameKey := HasKey(key, k);
    assert Filter(sameKey, sorted) == Filter(sameKey, xs) by {
      SortByIsStable(key, xs, k);
    }
    assert Filter(sameKey, sorted) == Filter(p, sorted) by {
      SelectorsAgree(key, k, p, sorted);
      FilterCongruent(sameKey, p, sorted);
    }
    assert Filter(sameKey, xs) == Filter(p, xs) by {
      SelectorsAgree(key, k, p, xs);
      FilterCongruent(sameKey, p, xs);
    }
  }

  lemma SelectorsAgree<T>(key: T -> int, k: int, p: T -> bool, xs: seq<T>)
    requires forall x :: p(x) == (key(x) == k)
    ensures forall i :: 0 <= i < |xs| ==> HasKey(key, k)(xs[i]) == p(xs[i])
  {
  }

  /** A sequence that is already sorted comes back unchanged. */
  lemma {:induction false} SortBySorted<T>(key: T -> int, xs: seq<T>)
    requires SortedBy(key, xs)
    ensures SortBy(key, xs) == xs
    decreases |xs|
  {
    if |xs| > 0 {
      SortBySorted(key, xs[1..]);
      assert SortBy(key, xs[1..]) == xs[1..];
      assert xs == [xs[0]] + xs[1..];
    }
  }

  /** Sorting is idempotent. */
  lemma SortByIdempotent<T>(key: T -> int, xs: seq<T>)
    ensures SortBy(key, SortBy(key, xs)) == SortBy(key, xs)
  {
    SortBySorted(key, SortBy(key, xs));
  }
}
