/** Ordering by a timestamp, newest first: the `orderBy: { createdAt: "desc" }`
    of the ORM queries and the comparator `(a, b) => b.t - a.t` handed to
    `Array.prototype.sort`. */
module Sorting {

  ghost predicate SortedDesc<T>(xs: seq<T>, key: T -> int) {
    forall i, j :: 0 <= i < j < |xs| ==> key(xs[i]) >= key(xs[j])
  }

  /** Places `x` in front of the first element whose key does not exceed its own. */
  function Insert<T>(x: T, xs: seq<T>, key: T -> int): (r: seq<T>)
    requires SortedDesc(xs, key)
    ensures SortedDesc(r, key)
    ensures multiset(r) == multiset(xs) + multiset{x}
  {
    if |xs| == 0 then [x]
    else if key(xs[0]) <= key(x) then [x] + xs
    else
      var rest := Insert(x, xs[1..], key);
      HeadBoundsInsert(x, xs, rest, key);
      ConsSorted(xs[0], rest, key);
      assert xs == [xs[0]] + xs[1..];
      [xs[0]] + rest
  }

  /** The head of a sorted sequence bounds the rest of it with a smaller
      element inserted. */
  lemma HeadBoundsInsert<T>(x: T, xs: seq<T>, rest: seq<T>, key: T -> int)
    requires |xs| > 0 && SortedDesc(xs, key) && key(x) < key(xs[0])
    requires multiset(rest) == multiset(xs[1..]) + multiset{x}
    ensures forall j :: 0 <= j < |rest| ==> key(rest[j]) <= key(xs[0])
  {
    forall j | 0 <= j < |rest| ensures key(rest[j]) <= key(xs[0]) {
      var y := rest[j];
      assert y in multiset(rest);
      if y != x {
        assert y in multiset(xs[1..]);
        assert y in xs[1..];
      }
    }
  }

  /** A head no smaller than every element keeps a sorted sequence sorted. */
  lemma ConsSorted<T>(h: T, rest: seq<T>, key: T -> int)
    requires SortedDesc(rest, key)
    requires forall j :: 0 <= j < |rest| ==> key(rest[j]) <= key(h)
    ensures SortedDesc([h] + rest, key)
  {
    forall i, j | 0 <= i < j < |[h] + rest| ensures key(([h] + rest)[i]) >= key(([h] + rest)[j]) {
      if i > 0 {
        assert ([h] + rest)[i] == rest[i - 1];
      }
      assert ([h] + rest)[j] == rest[j - 1];
    }
  }

  /** Insertion sort into newest-first order. */
  function SortDesc<T>(xs: seq<T>, key: T -> int): (r: seq<T>)
    ensures SortedDesc(r, key)
    ensures multiset(r) == multiset(xs)
  {
    if |xs| == 0 then []
    else
      assert xs == [xs[0]] + xs[1..];
      Insert(xs[0], SortDesc(xs[1..], key), key)
  }

  /** Sorting neither adds nor drops elements. */
  lemma SortDescMembers<T>(xs: seq<T>, key: T -> int)
    ensures forall i :: 0 <= i < |SortDesc(xs, key)| ==> SortDesc(xs, key)[i] in xs
    ensures forall i :: 0 <= i < |xs| ==> xs[i] in SortDesc(xs, key)
  {
    var r := SortDesc(xs, key);
    forall i | 0 <= i < |r| ensures r[i] in xs {
      assert r[i] in multiset(r);
    }
    forall i | 0 <= i < |xs| ensures xs[i] in r {
      assert xs[i] in multiset(xs);
    }
  }
}
