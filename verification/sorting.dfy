/** Ordering query results by an integer column (`ORDER BY key ASC`),
    written as a functional insertion sort. */
module Sorting {
  import opened Base

  /** The keys of `s` never decrease. */
  predicate SortedBy<T>(s: seq<T>, key: T -> int) {
    forall i, j :: 0 <= i < j < |s| ==> key(s[i]) <= key(s[j])
  }

  /** `x` placed into the sorted `s` before the first element whose key is
      not smaller. */
  function InsertBy<T>(x: T, s: seq<T>, key: T -> int): (r: seq<T>)
    requires SortedBy(s, key)
    ensures SortedBy(r, key)
    ensures multiset(r) == multiset(s) + multiset{x}
    ensures forall y :: y in r ==> y == x || y in s
  {
    if |s| == 0 then [x]
    else if key(x) <= key(s[0]) then
      InsertFront(x, s, key);
      [x] + s
    else
      var rest := InsertBy(x, s[1..], key);
      InsertBehind(x, s, rest, key);
      [s[0]] + rest
  }

  /** Placing `x` in front of a sorted sequence whose head's key is not
      smaller keeps it sorted. */
  lemma InsertFront<T>(x: T, s: seq<T>, key: T -> int)
    requires SortedBy(s, key) && |s| > 0 && key(x) <= key(s[0])
    ensures SortedBy([x] + s, key)
    ensures multiset([x] + s) == multiset(s) + multiset{x}
    ensures forall y :: y in [x] + s ==> y == x || y in s
  {
    HeadIsLeast(s, key);
    ConsSorted(x, s, key);
  }

  /** Keeping the head of `s` in front of `x` inserted into its tail keeps
      the order and the elements. */
  lemma InsertBehind<T>(x: T, s: seq<T>, rest: seq<T>, key: T -> int)
    requires SortedBy(s, key) && |s| > 0 && key(s[0]) < key(x)
    requires SortedBy(rest, key)
    requires multiset(rest) == multiset(s[1..]) + multiset{x}
    requires forall y :: y in rest ==> y == x || y in s[1..]
    ensures SortedBy([s[0]] + rest, key)
    ensures multiset([s[0]] + rest) == multiset(s) + multiset{x}
    ensures forall y :: y in [s[0]] + rest ==> y == x || y in s
  {
    HeadIsLeast(s, key);
    assert forall y :: y in s[1..] ==> y in s;
    ConsSorted(s[0], rest, key);
    assert s == [s[0]] + s[1..];
  }

  /** The head of a sorted sequence has the least key. */
  lemma HeadIsLeast<T>(s: seq<T>, key: T -> int)
    requires SortedBy(s, key) && |s| > 0
    ensures forall y :: y in s ==> key(s[0]) <= key(y)
  {
    forall y | y in s ensures key(s[0]) <= key(y) {
      var k :| 0 <= k < |s| && s[k] == y;
    }
  }

  /** A key no larger than any of a sorted sequence's keys can go in
      front of it. */
  lemma ConsSorted<T>(h: T, s: seq<T>, key: T -> int)
    requires SortedBy(s, key)
    requires forall y :: y in s ==> key(h) <= key(y)
    ensures SortedBy([h] + s, key)
  {
    var r := [h] + s;
    forall i, j | 0 <= i < j < |r| ensures key(r[i]) <= key(r[j]) {
      assert r[j] == s[j - 1] && s[j - 1] in s;
      if i > 0 { assert r[i] == s[i - 1]; }
    }
  }

  /** `s` ordered by `key`: sorted, and a permutation of `s`. */
  function SortBy<T>(s: seq<T>, key: T -> int): (r: seq<T>)
    ensures SortedBy(r, key)
    ensures multiset(r) == multiset(s)
    ensures |r| == |s|
  {
    if |s| == 0 then []
    else
      assert s == [s[0]] + s[1..];
      InsertBy(s[0], SortBy(s[1..], key), key)
  }

  /** The elements whose key is `c`. */
  function HasKey<T>(key: T -> int, c: int): T -> bool {
    (x: T) => key(x) == c
  }

  /** Inserting `x` puts it ahead of every element with the same key: among
      the elements of one key, it comes first and the rest keep their
      order. */
  lemma {:induction false} InsertByStable<T>(x: T, s: seq<T>, key: T -> int, c: int)
    requires SortedBy(s, key)
    ensures Filter(InsertBy(x, s, key), HasKey(key, c))
            == (if key(x) == c then [x] else []) + Filter(s, HasKey(key, c))
  {
    var p := HasKey(key, c);
    if |s| == 0 || key(x) <= key(s[0]) {
      assert InsertBy(x, s, key) == [x] + s;
      FilterCons(x, s, p);
    } else {
      var h, t := s[0], s[1..];
      var rest := InsertBy(x, t, key);
      assert InsertBy(x, s, key) == [h] + rest;
      assert s == [h] + t;
      InsertByStable(x, t, key, c);
      FilterPastOther(x, h, rest, t, p);
    }
  }

  /** Filtering `h` in front of `x`'s selection gives `x`'s selection in
      front of `h`'s, when the two are never both selected. */
  lemma FilterPastOther<T>(x: T, h: T, rest: seq<T>, t: seq<T>, p: T -> bool)
    requires !(p(x) && p(h))
    requires Filter(rest, p) == (if p(x) then [x] else []) + Filter(t, p)
    ensures Filter([h] + rest, p) == (if p(x) then [x] else []) + Filter([h] + t, p)
  {
    FilterCons(h, rest, p);
    FilterCons(h, t, p);
    if p(x) {
      assert Filter([h] + rest, p) == [] + Filter(rest, p) == Filter(rest, p);
      assert Filter([h] + t, p) == [] + Filter(t, p) == Filter(t, p);
    } else {
      assert Filter(rest, p) == [] + Filter(t, p) == Filter(t, p);
      var fh: seq<T> := if p(h) then [h] else [];
      assert Filter([h] + rest, p) == fh + Filter(t, p) == Filter([h] + t, p);
      assert [] + Filter([h] + t, p) == Filter([h] + t, p);
    }
  }

  /** The sort is stable: the elements of any one key appear in the order
      they had in the input. */
  lemma {:induction false} SortByStable<T>(s: seq<T>, key: T -> int, c: int)
    ensures Filter(SortBy(s, key), HasKey(key, c)) == Filter(s, HasKey(key, c))
  {
    if |s| > 0 {
      SortByStable(s[1..], key, c);
      InsertByStable(s[0], SortBy(s[1..], key), key, c);
    }
  }
}
