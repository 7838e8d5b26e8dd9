/** Small shared vocabulary: an optional value and the offset/limit page of a
    query result. */
module Base {

  /** A value that may be absent: Python's `None`, a missing attribute, or
      JavaScript's `undefined`. */
  datatype Option<+T> = None | Some(value: T) {

    /** The wrapped value, or `default` when absent. */
    function GetOr(default: T): T {
      match this
      case Some(v) => v
      case None => default
    }
  }

  /** The number of rows before page `page` when each page holds `limit`
      rows, counted page by page. */
  function Offset(page: int, limit: nat): nat
    requires page >= 1
    decreases page
  {
    if page == 1 then 0 else Offset(page - 1, limit) + limit
  }

  /** The offset is the SQL `(page - 1) * limit`. */
  lemma {:induction false} OffsetIsProduct(page: int, limit: nat)
    requires page >= 1
    ensures Offset(page, limit) == (page - 1) * limit
    decreases page
  {
    if page > 1 {
      OffsetIsProduct(page - 1, limit);
    }
  }

  /** The rows SQL `OFFSET (page - 1) * limit LIMIT limit` keeps: at most
      `limit` consecutive rows of `rows`, starting at the page's offset. */
  function Page<T>(rows: seq<T>, page: int, limit: nat): (r: seq<T>)
    requires page >= 1
    ensures |r| <= limit
    ensures |r| == if Offset(page, limit) >= |rows| then 0
                   else if |rows| - Offset(page, limit) < limit then |rows| - Offset(page, limit)
                   else limit
    ensures forall i :: 0 <= i < |r| ==>
              Offset(page, limit) + i < |rows| && r[i] == rows[Offset(page, limit) + i]
    ensures forall x :: x in r ==> x in rows
  {
    var offset := Offset(page, limit);
    if offset >= |rows| then []
    else if offset + limit <= |rows| then rows[offset..offset + limit]
    else rows[offset..]
  }

  /** The rows SQL `LIMIT limit` keeps. */
  function Take<T>(rows: seq<T>, limit: nat): (r: seq<T>)
    ensures |r| == if limit < |rows| then limit else |rows|
    ensures forall i :: 0 <= i < |r| ==> r[i] == rows[i]
    ensures forall x :: x in r ==> x in rows
  {
    if limit < |rows| then rows[..limit] else rows
  }

  /** Concatenation is associative. */
  lemma ConcatAssoc<T>(a: seq<T>, b: seq<T>, c: seq<T>)
    ensures a + (b + c) == (a + b) + c
  {
  }

  /** Three sequences laid end to end: empty exactly when all three are,
      starting with the first's head, and with the second's head right
      after the first. */
  lemma Concat3<T>(a: seq<T>, b: seq<T>, c: seq<T>)
    ensures a + b + c == [] <==> a == [] && b == [] && c == []
    ensures |a| > 0 ==> (a + b + c)[0] == a[0]
    ensures |b| > 0 ==> (a + b + c)[|a|] == b[0]
  {
    assert |a + b + c| == |a| + |b| + |c|;
  }

  /** A property every element of three sequences has holds of every
      element of their concatenation. */
  lemma Concat3All<T>(a: seq<T>, b: seq<T>, c: seq<T>, p: T -> bool)
    requires forall i :: 0 <= i < |a| ==> p(a[i])
    requires forall i :: 0 <= i < |b| ==> p(b[i])
    requires forall i :: 0 <= i < |c| ==> p(c[i])
    ensures forall i :: 0 <= i < |a + b + c| ==> p((a + b + c)[i])
  {
    forall i | 0 <= i < |a + b + c| ensures p((a + b + c)[i]) {
      if i < |a| { assert (a + b + c)[i] == a[i]; }
      else if i < |a| + |b| { assert (a + b + c)[i] == b[i - |a|]; }
      else { assert (a + b + c)[i] == c[i - |a| - |b|]; }
    }
  }

  /** `f` applied to each element of `s`, the results concatenated in
      order. */
  function FlatMap<A, B>(s: seq<A>, f: A -> seq<B>): seq<B> {
    if |s| == 0 then [] else f(s[0]) + FlatMap(s[1..], f)
  }

  /** One more element adds its results after those of the elements
      before it. */
  lemma {:induction false} FlatMapSnoc<A, B>(s: seq<A>, x: A, f: A -> seq<B>)
    ensures FlatMap(s + [x], f) == FlatMap(s, f) + f(x)
  {
    if |s| == 0 {
      assert s + [x] == [x];
      assert [x][1..] == [];
      assert FlatMap([x], f) == f(x) + [];
    } else {
      assert (s + [x])[0] == s[0];
      assert (s + [x])[1..] == s[1..] + [x];
      FlatMapSnoc(s[1..], x, f);
      ConcatAssoc(f(s[0]), FlatMap(s[1..], f), f(x));
    }
  }

  /** There are no results exactly when no element yields any. */
  lemma {:induction false} FlatMapEmpty<A, B>(s: seq<A>, f: A -> seq<B>)
    ensures FlatMap(s, f) == [] <==> forall k :: 0 <= k < |s| ==> f(s[k]) == []
  {
    if |s| > 0 {
      FlatMapEmpty(s[1..], f);
      assert forall k :: 1 <= k < |s| ==> s[k] == s[1..][k - 1];
    }
  }

  /** Every result has a property every element's results have. */
  lemma {:induction false} FlatMapAll<A, B>(s: seq<A>, f: A -> seq<B>, p: B -> bool)
    requires forall k, i :: 0 <= k < |s| && 0 <= i < |f(s[k])| ==> p(f(s[k])[i])
    ensures forall i :: 0 <= i < |FlatMap(s, f)| ==> p(FlatMap(s, f)[i])
  {
    if |s| > 0 {
      assert forall k :: 1 <= k < |s| ==> s[1..][k - 1] == s[k];
      FlatMapAll(s[1..], f, p);
      var a, b := f(s[0]), FlatMap(s[1..], f);
      forall i | 0 <= i < |a + b| ensures p((a + b)[i]) {
        if i >= |a| { assert (a + b)[i] == b[i - |a|]; }
      }
    }
  }

  /** The number of elements of `s` that satisfy `p`: SQL `COUNT(*)` under a
      `WHERE p`. */
  function CountWhere<T>(s: seq<T>, p: T -> bool): nat {
    if |s| == 0 then 0 else (if p(s[0]) then 1 else 0) + CountWhere(s[1..], p)
  }

  /** The elements of `s` that satisfy `p`, in order: a `WHERE p` query. */
  function Filter<T>(s: seq<T>, p: T -> bool): (r: seq<T>)
    ensures |r| == CountWhere(s, p)
    ensures forall x :: x in r ==> x in s && p(x)
    ensures forall x :: x in s && p(x) ==> x in r
  {
    if |s| == 0 then [] else (if p(s[0]) then [s[0]] else []) + Filter(s[1..], p)
  }

  /** Filtering a sequence with a new head filters the head, then the
      rest. */
  lemma FilterCons<T>(x: T, s: seq<T>, p: T -> bool)
    ensures Filter([x] + s, p) == (if p(x) then [x] else []) + Filter(s, p)
  {
    assert ([x] + s)[1..] == s;
  }

  /** Appending one element adds one to the count exactly when it qualifies. */
  lemma {:induction false} CountAppend<T>(s: seq<T>, x: T, p: T -> bool)
    ensures CountWhere(s + [x], p) == CountWhere(s, p) + (if p(x) then 1 else 0)
  {
    if |s| > 0 {
      assert (s + [x])[1..] == s[1..] + [x];
      CountAppend(s[1..], x, p);
    }
  }

  /** Replacing the element at `i` changes the count by that element's
      contribution only. */
  lemma {:induction false} CountUpdate<T>(s: seq<T>, i: nat, x: T, p: T -> bool)
    requires i < |s|
    ensures CountWhere(s[i := x], p)
            == CountWhere(s, p) - (if p(s[i]) then 1 else 0) + (if p(x) then 1 else 0)
  {
    if i > 0 {
      assert s[i := x][1..] == s[1..][i - 1 := x];
      CountUpdate(s[1..], i - 1, x, p);
    } else {
      assert s[i := x][1..] == s[1..];
    }
  }

  /** Deleting the element at `i` removes that element's contribution. */
  lemma {:induction false} CountRemove<T>(s: seq<T>, i: nat, p: T -> bool)
    requires i < |s|
    ensures CountWhere(s[..i] + s[i + 1..], p) == CountWhere(s, p) - (if p(s[i]) then 1 else 0)
  {
    if i > 0 {
      assert (s[..i] + s[i + 1..])[1..] == s[1..][..i - 1] + s[1..][i..];
      assert (s[..i] + s[i + 1..])[0] == s[0];
      CountRemove(s[1..], i - 1, p);
    } else {
      assert s[..i] + s[i + 1..] == s[1..];
    }
  }

  /** Some element satisfies `p` exactly when the count is positive. */
  lemma {:induction false} CountPositive<T>(s: seq<T>, p: T -> bool)
    ensures CountWhere(s, p) > 0 <==> exists k :: 0 <= k < |s| && p(s[k])
  {
    if |s| > 0 {
      CountPositive(s[1..], p);
      if CountWhere(s[1..], p) > 0 {
        var k :| 0 <= k < |s[1..]| && p(s[1..][k]);
        assert p(s[k + 1]);
      }
      if exists k :: 0 <= k < |s| && p(s[k]) {
        var k :| 0 <= k < |s| && p(s[k]);
        if k > 0 { assert p(s[1..][k - 1]); }
      }
    }
  }

  /** Two sequences whose elements qualify alike, position by position, have
      the same count. */
  lemma {:induction false} CountMapSame<T>(s: seq<T>, t: seq<T>, p: T -> bool)
    requires |s| == |t|
    requires forall i :: 0 <= i < |s| ==> (p(s[i]) <==> p(t[i]))
    ensures CountWhere(s, p) == CountWhere(t, p)
  {
    if |s| > 0 {
      CountMapSame(s[1..], t[1..], p);
    }
  }

  /** A count never exceeds the number of elements counted. */
  lemma {:induction false} CountAtMostLength<T>(s: seq<T>, p: T -> bool)
    ensures CountWhere(s, p) <= |s|
  {
    if |s| > 0 {
      CountAtMostLength(s[1..], p);
    }
  }

  /** Two selectors that agree on every element select the same rows. */
  lemma {:induction false} FilterSame<T>(s: seq<T>, p: T -> bool, q: T -> bool)
    requires forall x :: x in s ==> p(x) == q(x)
    ensures Filter(s, p) == Filter(s, q)
    ensures CountWhere(s, p) == CountWhere(s, q)
  {
    if |s| > 0 {
      assert s[0] in s;
      assert forall x :: x in s[1..] ==> x in s;
      FilterSame(s[1..], p, q);
    }
  }
}
