/**
 * `Array.prototype.sort` with a numeric comparator. The language requires
 * that sort to be stable, and a stable sort's result is determined by its
 * input, so a stable insertion sort on a key gives the same sequence. The
 * store sorts cartridges with `b.updatedAt - a.updatedAt` (key: minus the
 * update time) and messages with `a.createdAt - b.createdAt` (key: the
 * creation time).
 */
module Sorting {

  ghost predicate SortedBy<T>(s: seq<T>, key: T -> int)
  {
    forall i, j :: 0 <= i < j < |s| ==> key(s[i]) <= key(s[j])
  }

  /** Elements with equal keys appear in increasing `rank`. */
  ghost predicate TiesOrderedBy<T>(s: seq<T>, key: T -> int, rank: T -> int)
  {
    forall i, j :: 0 <= i < j < |s| && key(s[i]) == key(s[j]) ==> rank(s[i]) < rank(s[j])
  }

  /** Inserts `x` before the first element whose key is not smaller, so that
      `x` stays ahead of the elements whose key equals its own. */
  function Insert<T(==)>(x: T, s: seq<T>, key: T -> int): (r: seq<T>)
    ensures multiset(r) == multiset(s) + multiset{x}
    ensures |r| == |s| + 1
  {
    if s == [] || key(x) <= key(s[0]) then [x] + s
    else
      assert s == [s[0]] + s[1..];
      [s[0]] + Insert(x, s[1..], key)
  }

  function SortBy<T(==)>(s: seq<T>, key: T -> int): (r: seq<T>)
    ensures multiset(r) == multiset(s)
    ensures |r| == |s|
    ensures SortedBy(r, key)
  {
    if s == [] then []
    else
      var rest := SortBy(s[1..], key);
      InsertSorted(s[0], rest, key);
      MultisetCons(s);
      Insert(s[0], rest, key)
  }

  lemma MultisetCons<T>(s: seq<T>)
    requires |s| > 0
    ensures multiset(s) == multiset(s[1..]) + multiset{s[0]}
  {
    assert s == [s[0]] + s[1..];
  }

  lemma {:induction false} InsertSorted<T>(x: T, s: seq<T>, key: T -> int)
    requires SortedBy(s, key)
    ensures SortedBy(Insert(x, s, key), key)
  {
    if s != [] && key(x) > key(s[0]) {
      var tail := s[1..];
      assert SortedBy(tail, key) by {
        forall i, j | 0 <= i < j < |tail| ensures key(tail[i]) <= key(tail[j]) {
          assert tail[i] == s[i + 1] && tail[j] == s[j + 1];
        }
      }
      InsertSorted(x, tail, key);
      forall i | 0 <= i < |tail| ensures key(s[0]) <= key(tail[i]) {
        assert tail[i] == s[i + 1];
      }
      InsertBounded(x, tail, key, key(s[0]));
    }
  }

  /** A lower bound on the keys of `x` and of `s` bounds the keys of the
      result of the insertion. */
  lemma {:induction false} InsertBounded<T>(x: T, s: seq<T>, key: T -> int, b: int)
    requires b <= key(x)
    requires forall i :: 0 <= i < |s| ==> b <= key(s[i])
    ensures forall i :: 0 <= i < |Insert(x, s, key)| ==> b <= key(Insert(x, s, key)[i])
  {
    if s != [] && key(x) > key(s[0]) {
      InsertBounded(x, s[1..], key, b);
    }
  }

  /** Inserting `x` keeps equal-key elements in rank order when `x` ranks
      below every element of `s` that shares its key. */
  lemma {:induction false} InsertKeepsTieOrder<T>(x: T, s: seq<T>, key: T -> int, rank: T -> int)
    requires TiesOrderedBy(s, key, rank)
    requires forall y :: y in s && key(y) == key(x) ==> rank(x) < rank(y)
    ensures TiesOrderedBy(Insert(x, s, key), key, rank)
  {
    if s != [] && key(x) > key(s[0]) {
      var tail := s[1..];
      forall i, j | 0 <= i < j < |tail| && key(tail[i]) == key(tail[j])
        ensures rank(tail[i]) < rank(tail[j])
      {
        assert tail[i] == s[i + 1] && tail[j] == s[j + 1];
      }
      InsertKeepsTieOrder(x, tail, key, rank);
      var r := Insert(x, tail, key);
      InsertElements(x, tail, key);
      forall j | 0 <= j < |r| && key(s[0]) == key(r[j])
        ensures rank(s[0]) < rank(r[j])
      {
        if r[j] != x {
          var k :| 0 <= k < |tail| && tail[k] == r[j];
          assert s[k + 1] == r[j];
        }
      }
      TiesOrderedCons(s[0], r, key, rank);
    }
  }

  /** Every element of the insertion's result is `x` or comes from `s`. */
  lemma InsertElements<T>(x: T, s: seq<T>, key: T -> int)
    ensures forall i :: 0 <= i < |Insert(x, s, key)| ==> Insert(x, s, key)[i] == x || Insert(x, s, key)[i] in s
  {
    var r := Insert(x, s, key);
    forall i | 0 <= i < |r| ensures r[i] == x || r[i] in s {
      assert r[i] in multiset(r);
    }
  }

  /** The sort keeps exactly the elements of its input. */
  lemma SortByElements<T>(s: seq<T>, key: T -> int)
    ensures forall x :: x in SortBy(s, key) <==> x in s
  {
    var r := SortBy(s, key);
    forall x ensures x in r <==> x in s {
      assert x in r <==> x in multiset(r);
      assert x in s <==> x in multiset(s);
    }
  }

  /** An element that ranks below every later element sharing its key can be
      put in front of a tie-ordered sequence. */
  lemma TiesOrderedCons<T>(h: T, r: seq<T>, key: T -> int, rank: T -> int)
    requires TiesOrderedBy(r, key, rank)
    requires forall j :: 0 <= j < |r| && key(h) == key(r[j]) ==> rank(h) < rank(r[j])
    ensures TiesOrderedBy([h] + r, key, rank)
  {
    var s := [h] + r;
    forall i, j | 0 <= i < j < |s| && key(s[i]) == key(s[j]) ensures rank(s[i]) < rank(s[j]) {
      assert s[j] == r[j - 1];
      if i > 0 {
        assert s[i] == r[i - 1];
      }
    }
  }

  /** The sort is stable: elements with equal keys keep their relative order,
      stated through any rank that orders them in the input. */
  lemma {:induction false} SortKeepsTieOrder<T>(s: seq<T>, key: T -> int, rank: T -> int)
    requires TiesOrderedBy(s, key, rank)
    ensures TiesOrderedBy(SortBy(s, key), key, rank)
  {
    if s != [] {
      var tail := s[1..];
      forall i, j | 0 <= i < j < |tail| && key(tail[i]) == key(tail[j])
        ensures rank(tail[i]) < rank(tail[j])
      {
        assert tail[i] == s[i + 1] && tail[j] == s[j + 1];
      }
      SortKeepsTieOrder(tail, key, rank);
      var rest := SortBy(tail, key);
      forall y | y in rest && key(y) == key(s[0])
        ensures rank(s[0]) < rank(y)
      {
        assert y in multiset(rest);
        var k :| 0 <= k < |tail| && tail[k] == y;
        assert s[k + 1] == y;
      }
      InsertKeepsTieOrder(s[0], rest, key, rank);
    }
  }

  /** A sequence that is already sorted comes back unchanged. */
  lemma {:induction false} SortOfSorted<T>(s: seq<T>, key: T -> int)
    requires SortedBy(s, key)
    ensures SortBy(s, key) == s
  {
    if s != [] {
      var tail := s[1..];
      assert SortedBy(tail, key) by {
        forall i, j | 0 <= i < j < |tail| ensures key(tail[i]) <= key(tail[j]) {
          assert tail[i] == s[i + 1] && tail[j] == s[j + 1];
        }
      }
      SortOfSorted(tail, key);
      if tail != [] {
        assert key(s[0]) <= key(s[1]);
        assert tail[0] == s[1];
      }
      calc {
        SortBy(s, key);
        Insert(s[0], SortBy(tail, key), key);
        Insert(s[0], tail, key);
        [s[0]] + tail;
        s;
      }
    }
  }
}
