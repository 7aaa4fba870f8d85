/**
 * What the ORM does to a query set, on sequences of rows: `filter` keeps the
 * rows satisfying a condition, in order; `order_by` sorts by an integer key
 * (a creation timestamp), largest first or smallest first.
 */
module QuerySets {

  /** The rows of s satisfying p, in their original order: filter(...). */
  function Where<T(!new)>(s: seq<T>, p: T -> bool): (r: seq<T>)
    ensures forall x :: multiset(r)[x] == if p(x) then multiset(s)[x] else 0
    ensures forall i :: 0 <= i < |r| ==> p(r[i])
    ensures |r| <= |s|
  {
    if s == [] then []
    else
      var tail := Where(s[1..], p);
      assert s == [s[0]] + s[1..];
      if p(s[0]) then [s[0]] + tail else tail
  }

  /** A row is kept exactly when it was there and satisfies the condition. */
  lemma {:induction false} InWhere<T(!new)>(s: seq<T>, p: T -> bool, x: T)
    ensures x in Where(s, p) <==> x in s && p(x)
  {
    assert x in Where(s, p) <==> multiset(Where(s, p))[x] > 0;
    assert x in s <==> multiset(s)[x] > 0;
  }

  /** Keys never increase along s: order_by('-key'). */
  predicate Descending<T>(s: seq<T>, key: T -> int)
  {
    forall i, j :: 0 <= i < j < |s| ==> key(s[i]) >= key(s[j])
  }

  /** Keys never decrease along s: order_by('key'). */
  predicate Ascending<T>(s: seq<T>, key: T -> int)
  {
    forall i, j :: 0 <= i < j < |s| ==> key(s[i]) <= key(s[j])
  }

  /** x placed before the first element of s whose key is not larger. */
  function InsertDescending<T>(x: T, s: seq<T>, key: T -> int): (r: seq<T>)
    requires Descending(s, key)
    ensures Descending(r, key)
    ensures multiset(r) == multiset(s) + multiset{x}
    ensures r[0] == x || (s != [] && r[0] == s[0])
  {
    if s == [] || key(x) >= key(s[0]) then [x] + s
    else
      var tail := InsertDescending(x, s[1..], key);
      assert s == [s[0]] + s[1..];
      DescendingCons(s[0], tail, key);
      [s[0]] + tail
  }

  /** An element whose key is at least that of the head of a descending sequence can go in front of it. */
  lemma {:induction false} DescendingCons<T>(y: T, t: seq<T>, key: T -> int)
    requires Descending(t, key) && (t == [] || key(y) >= key(t[0]))
    ensures Descending([y] + t, key)
  {
    var r := [y] + t;
    forall i, j | 0 <= i < j < |r| ensures key(r[i]) >= key(r[j]) {
      assert r[j] == t[j - 1];
      if i == 0 {
        assert key(t[0]) >= key(t[j - 1]) || j == 1;
      } else {
        assert r[i] == t[i - 1];
      }
    }
  }

  /** The rows of s, newest (largest key) first. */
  function SortDescending<T>(s: seq<T>, key: T -> int): (r: seq<T>)
    ensures Descending(r, key)
    ensures multiset(r) == multiset(s)
  {
    if s == [] then []
    else
      assert s == [s[0]] + s[1..];
      InsertDescending(s[0], SortDescending(s[1..], key), key)
  }

  /** The rows of s, oldest (smallest key) first. */
  function SortAscending<T>(s: seq<T>, key: T -> int): (r: seq<T>)
    ensures Ascending(r, key)
    ensures multiset(r) == multiset(s)
  {
    var neg := (x: T) => -key(x);
    var r := SortDescending(s, neg);
    assert forall i, j :: 0 <= i < j < |r| ==> neg(r[i]) >= neg(r[j]);
    r
  }
}
