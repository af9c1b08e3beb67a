/** A stable sort on a real-valued key, non-increasing. The engine sorts rows
    by descending score, and a cap's target group by ascending score, which
    is the descending sort on the negated key. */
module Sorting {

  predicate SortedDesc<T>(s: seq<T>, key: T -> real) {
    forall i, j :: 0 <= i < j < |s| ==> key(s[i]) >= key(s[j])
  }

  /** The elements whose key equals `v`, in order. */
  function WithKey<T>(s: seq<T>, key: T -> real, v: real): (r: seq<T>)
    ensures |r| <= |s|
  {
    if |s| == 0 then []
    else (if key(s[0]) == v then [s[0]] else []) + WithKey(s[1..], key, v)
  }

  /** Puts `x` before the first element whose key is not greater than its own,
      so that it precedes the equal-keyed elements that came after it. */
  function Insert<T>(x: T, s: seq<T>, key: T -> real): (r: seq<T>)
    ensures multiset(r) == multiset(s) + multiset{x}
    ensures |r| == |s| + 1
  {
    if |s| == 0 || key(s[0]) <= key(x) then [x] + s
    else
      assert s == [s[0]] + s[1..];
      [s[0]] + Insert(x, s[1..], key)
  }

  lemma {:induction false} InsertSorted<T>(x: T, s: seq<T>, key: T -> real)
    requires SortedDesc(s, key)
    ensures SortedDesc(Insert(x, s, key), key)
  {
    if |s| == 0 || key(s[0]) <= key(x) {
    } else {
      var t := Insert(x, s[1..], key);
      InsertSorted(x, s[1..], key);
      assert key(t[0]) <= key(s[0]) by {
        if |s[1..]| == 0 || key(s[1]) <= key(x) {
          assert t[0] == x;
        } else {
          assert t[0] == s[1];
        }
      }
      assert Insert(x, s, key) == [s[0]] + t;
    }
  }

  /** Inserting `x` adds it in front of the elements sharing its key. */
  lemma {:induction false} InsertWithKey<T>(x: T, s: seq<T>, key: T -> real, v: real)
    ensures WithKey(Insert(x, s, key), key, v) == (if key(x) == v then [x] else []) + WithKey(s, key, v)
  {
    if |s| == 0 || key(s[0]) <= key(x) {
      assert ([x] + s)[1..] == s;
    } else {
      var t := Insert(x, s[1..], key);
      InsertWithKey(x, s[1..], key, v);
      assert ([s[0]] + t)[1..] == t;
    }
  }

  /** Insertion sort: a permutation, ordered by non-increasing key, that keeps
      the input order among equal keys. */
  function SortDesc<T>(s: seq<T>, key: T -> real): (r: seq<T>)
    ensures multiset(r) == multiset(s)
    ensures |r| == |s|
    ensures SortedDesc(r, key)
    ensures forall v :: WithKey(r, key, v) == WithKey(s, key, v)
  {
    if |s| == 0 then []
    else
      assert s == [s[0]] + s[1..];
      var t := SortDesc(s[1..], key);
      InsertSorted(s[0], t, key);
      assert forall v :: WithKey(Insert(s[0], t, key), key, v) == WithKey(s, key, v) by {
        forall v
          ensures WithKey(Insert(s[0], t, key), key, v) == WithKey(s, key, v)
        {
          InsertWithKey(s[0], t, key, v);
        }
      }
      Insert(s[0], t, key)
  }
}
