/**
 * Python's `list.sort(key=..., reverse=True)` for string keys: a stable sort into
 * descending key order.
 */
module Sorting {
  import opened Text
  import opened Collections

  predicate SortedDesc<T>(s: seq<T>, key: T -> string)
  {
    forall i, j :: 0 <= i < j < |s| ==> !StrLess(key(s[i]), key(s[j]))
  }

  /** A key at least every key of a sorted list may go in front of it. */
  lemma SortedCons<T>(y: T, s: seq<T>, key: T -> string)
    requires SortedDesc(s, key)
    requires forall e :: e in s ==> !StrLess(key(y), key(e))
    ensures SortedDesc([y] + s, key)
  {
    var r := [y] + s;
    forall i, j | 0 <= i < j < |r|
      ensures !StrLess(key(r[i]), key(r[j]))
    {
      if i == 0 {
        assert r[j] == s[j - 1];
        assert s[j - 1] in s;
      } else {
        assert r[i] == s[i - 1] && r[j] == s[j - 1];
      }
    }
  }

  lemma MultisetMember<T>(e: T, r: seq<T>, s: seq<T>, x: T)
    requires multiset(r) == multiset(s) + multiset{x}
    requires e in r
    ensures e == x || e in s
  {
    assert e in multiset(r);
  }

  /**
   * Inserts `x` before the first element whose key is not greater than its own,
   * so `x` stays ahead of the equal keys that followed it in the input.
   */
  function InsertDesc<T>(x: T, s: seq<T>, key: T -> string): (r: seq<T>)
    requires SortedDesc(s, key)
    ensures |r| == |s| + 1
    ensures multiset(r) == multiset(s) + multiset{x}
    ensures SortedDesc(r, key)
  {
    if s == [] then [x]
    else if !StrLess(key(x), key(s[0])) then
      InsertFront(x, s, key);
      [x] + s
    else
      var rest := InsertDesc(x, s[1..], key);
      InsertBehind(x, s, rest, key);
      assert s == [s[0]] + s[1..];
      [s[0]] + rest
  }

  lemma InsertFront<T>(x: T, s: seq<T>, key: T -> string)
    requires SortedDesc(s, key) && s != [] && !StrLess(key(x), key(s[0]))
    ensures SortedDesc([x] + s, key)
  {
    forall e | e in s
      ensures !StrLess(key(x), key(e))
    {
      var j :| 0 <= j < |s| && s[j] == e;
      StrAtLeastTransitive(key(x), key(s[0]), key(e));
    }
    SortedCons(x, s, key);
  }

  lemma InsertBehind<T>(x: T, s: seq<T>, rest: seq<T>, key: T -> string)
    requires SortedDesc(s, key) && s != [] && StrLess(key(x), key(s[0]))
    requires SortedDesc(rest, key) && multiset(rest) == multiset(s[1..]) + multiset{x}
    ensures SortedDesc([s[0]] + rest, key)
  {
    StrLessAsymmetric(key(x), key(s[0]));
    forall e | e in rest
      ensures !StrLess(key(s[0]), key(e))
    {
      MultisetMember(e, rest, s[1..], x);
      if e != x {
        var j :| 0 <= j < |s[1..]| && s[1..][j] == e;
        assert s[j + 1] == e;
      }
    }
    SortedCons(s[0], rest, key);
  }

  function SortDesc<T>(s: seq<T>, key: T -> string): (r: seq<T>)
    ensures |r| == |s|
    ensures multiset(r) == multiset(s)
    ensures SortedDesc(r, key)
  {
    if s == [] then []
    else
      assert s == [s[0]] + s[1..];
      InsertDesc(s[0], SortDesc(s[1..], key), key)
  }

  /**
   * Insertion keeps the order among equal keys: `x` lands ahead of every element
   * whose key equals its own.
   */
  lemma {:induction false} InsertDescStable<T(!new)>(x: T, s: seq<T>, key: T -> string, k: string, p: T -> bool)
    requires SortedDesc(s, key)
    requires forall y :: p(y) <==> key(y) == k
    ensures Filter(InsertDesc(x, s, key), p) == (if p(x) then [x] else []) + Filter(s, p)
  {
    if s == [] {
    } else if !StrLess(key(x), key(s[0])) {
      assert ([x] + s)[1..] == s;
    } else {
      var rest := InsertDesc(x, s[1..], key);
      InsertDescStable(x, s[1..], key, k, p);
      var head := if p(s[0]) then [s[0]] else [];
      assert ([s[0]] + rest)[1..] == rest;
      assert Filter([s[0]] + rest, p) == head + Filter(rest, p);
      assert s == [s[0]] + s[1..];
      assert Filter(s, p) == head + Filter(s[1..], p);
      if p(x) {
        StrLessAsymmetric(key(x), key(s[0]));
        assert !p(s[0]);
      }
    }
  }

  /** The sort is stable: the elements with any one key keep their input order. */
  lemma {:induction false} SortDescStable<T(!new)>(s: seq<T>, key: T -> string, k: string, p: T -> bool)
    requires forall y :: p(y) <==> key(y) == k
    ensures Filter(SortDesc(s, key), p) == Filter(s, p)
  {
    if s != [] {
      SortDescStable(s[1..], key, k, p);
      InsertDescStable(s[0], SortDesc(s[1..], key), key, k, p);
    }
  }

  /** The first `n` of a descending list hold keys no smaller than any key left behind them. */
  lemma TakeHoldsLargest<T>(sorted: seq<T>, key: T -> string, n: nat)
    requires SortedDesc(sorted, key)
    ensures multiset(Take(sorted, n)) <= multiset(sorted)
    ensures forall x, y :: x in Take(sorted, n) && y in multiset(sorted) - multiset(Take(sorted, n)) ==> !StrLess(key(x), key(y))
  {
    var r := Take(sorted, n);
    var k := |r|;
    assert r == sorted[..k];
    assert sorted == r + sorted[k..];
    assert multiset(sorted) == multiset(r) + multiset(sorted[k..]);
    forall x, y | x in r && y in multiset(sorted) - multiset(r)
      ensures !StrLess(key(x), key(y))
    {
      assert y in multiset(sorted[k..]);
      var i :| 0 <= i < k && r[i] == x;
      var j :| 0 <= j < |sorted[k..]| && sorted[k..][j] == y;
      assert sorted[i] == x && sorted[k + j] == y;
    }
  }
}
