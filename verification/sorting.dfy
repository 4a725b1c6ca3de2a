/** A stable sort by descending integer key, the behaviour of
    `Array.prototype.sort((a, b) => key(b) - key(a))`, which ECMAScript
    requires to be stable. It is written as an insertion sort on sequences. */
module Sorting {

  predicate Descending<T>(s: seq<T>, key: T -> int) {
    forall i, j :: 0 <= i < j < |s| ==> key(s[i]) >= key(s[j])
  }

  /** The elements of `s` whose key is `k`, in their order in `s`. */
  function WithKey<T>(s: seq<T>, key: T -> int, k: int): (r: seq<T>)
    ensures |r| <= |s|
    ensures forall i :: 0 <= i < |r| ==> key(r[i]) == k && r[i] in s
  {
    if |s| == 0 then []
    else if key(s[0]) == k then [s[0]] + WithKey(s[1..], key, k)
    else WithKey(s[1..], key, k)
  }

  /** Places `x` in front of the first element whose key is not greater
      than its own, so `x` stays ahead of the equal keys that follow it. */
  function Insert<T>(x: T, l: seq<T>, key: T -> int): (r: seq<T>)
    ensures |r| == |l| + 1
    ensures multiset(r) == multiset(l) + multiset{x}
  {
    if |l| == 0 || key(l[0]) <= key(x) then [x] + l
    else
      assert l == [l[0]] + l[1..];
      [l[0]] + Insert(x, l[1..], key)
  }

  /** An element whose key is at least every later key can lead a
      descending list. */
  lemma ConsDescending<T>(h: T, rest: seq<T>, key: T -> int)
    requires Descending(rest, key)
    requires forall y :: y in rest ==> key(h) >= key(y)
    ensures Descending([h] + rest, key)
  {
    var r := [h] + rest;
    forall i, j | 0 <= i < j < |r| ensures key(r[i]) >= key(r[j]) {
      if i == 0 {
        assert r[j] in rest;
      } else {
        assert r[i] == rest[i - 1] && r[j] == rest[j - 1];
      }
    }
  }

  lemma {:induction false} InsertDescending<T>(x: T, l: seq<T>, key: T -> int)
    requires Descending(l, key)
    ensures Descending(Insert(x, l, key), key)
  {
    if |l| == 0 || key(l[0]) <= key(x) {
      forall y | y in l ensures key(x) >= key(y) {
        var k :| 0 <= k < |l| && l[k] == y;
      }
      ConsDescending(x, l, key);
    } else {
      var rest := Insert(x, l[1..], key);
      InsertDescending(x, l[1..], key);
      forall y | y in rest ensures key(l[0]) >= key(y) {
        assert y in multiset(rest);
        assert y == x || y in multiset(l[1..]);
        if y != x {
          var k :| 0 <= k < |l[1..]| && l[1..][k] == y;
          assert l[k + 1] == y;
        }
      }
      ConsDescending(l[0], rest, key);
    }
  }

  function SortDesc<T>(s: seq<T>, key: T -> int): (r: seq<T>)
    ensures |r| == |s|
    ensures multiset(r) == multiset(s)
    ensures Descending(r, key)
  {
    if |s| == 0 then []
    else
      assert s == [s[0]] + s[1..];
      var rest := SortDesc(s[1..], key);
      InsertDescending(s[0], rest, key);
      Insert(s[0], rest, key)
  }

  lemma {:induction false} InsertWithKey<T>(x: T, l: seq<T>, key: T -> int, k: int)
    ensures WithKey(Insert(x, l, key), key, k)
         == (if key(x) == k then [x] else []) + WithKey(l, key, k)
  {
    if |l| == 0 || key(l[0]) <= key(x) {
      assert ([x] + l)[1..] == l;
    } else {
      InsertWithKey(x, l[1..], key, k);
      assert ([l[0]] + Insert(x, l[1..], key))[1..] == Insert(x, l[1..], key);
    }
  }

  /** Stability: the elements sharing any one key keep their relative order. */
  lemma {:induction false} SortDescStable<T>(s: seq<T>, key: T -> int, k: int)
    ensures WithKey(SortDesc(s, key), key, k) == WithKey(s, key, k)
  {
    if |s| > 0 {
      SortDescStable(s[1..], key, k);
      InsertWithKey(s[0], SortDesc(s[1..], key), key, k);
    }
  }
}
