/** Small sequence facts used across the model: integer and real sums and
    order-preserving subsequences. */
module Seqs {

  function Sum(s: seq<int>): int {
    if |s| == 0 then 0 else s[0] + Sum(s[1..])
  }

  function SumReal(s: seq<real>): real {
    if |s| == 0 then 0.0 else s[0] + SumReal(s[1..])
  }

  function Min(a: int, b: int): int {
    if a <= b then a else b
  }

  function Max(a: int, b: int): int {
    if a >= b then a else b
  }

  /** The larger of two reals (`Math.max` on numbers). */
  function RMax(a: real, b: real): real {
    if a >= b then a else b
  }

  function Abs(x: int): nat {
    if x < 0 then -x else x
  }

  lemma {:induction false} SumAppend(a: seq<int>, b: seq<int>)
    ensures Sum(a + b) == Sum(a) + Sum(b)
  {
    if |a| == 0 {
      assert a + b == b;
    } else {
      assert (a + b)[1..] == a[1..] + b;
      SumAppend(a[1..], b);
    }
  }

  /** Changing one entry by `d` changes the sum by `d`. */
  lemma {:induction false} SumUpdate(s: seq<int>, j: nat, d: int)
    requires j < |s|
    ensures Sum(s[j := s[j] + d]) == Sum(s) + d
  {
    if j == 0 {
      assert s[j := s[j] + d][1..] == s[1..];
    } else {
      assert s[j := s[j] + d][1..] == s[1..][j - 1 := s[j] + d];
      SumUpdate(s[1..], j - 1, d);
    }
  }

  /** `a` is an order-preserving subsequence of `b`. */
  predicate IsSubseq<T(==)>(a: seq<T>, b: seq<T>)
    decreases |b|
  {
    if |a| == 0 then true
    else if |b| == 0 then false
    else if a[0] == b[0] then IsSubseq(a[1..], b[1..])
    else IsSubseq(a, b[1..])
  }

  lemma {:induction false} SubseqMultiset<T>(a: seq<T>, b: seq<T>)
    requires IsSubseq(a, b)
    ensures multiset(a) <= multiset(b)
    ensures |a| <= |b|
    decreases |b|
  {
    if |a| == 0 {
    } else if a[0] == b[0] {
      SubseqMultiset(a[1..], b[1..]);
      assert a == [a[0]] + a[1..];
      assert b == [b[0]] + b[1..];
    } else {
      SubseqMultiset(a, b[1..]);
      assert b == [b[0]] + b[1..];
    }
  }

  lemma {:induction false} SubseqRefl<T>(a: seq<T>)
    ensures IsSubseq(a, a)
  {
    if |a| > 0 {
      SubseqRefl(a[1..]);
    }
  }

  /** Every element of a subsequence occurs in the larger sequence. */
  lemma SubseqMembers<T>(a: seq<T>, b: seq<T>)
    requires IsSubseq(a, b)
    ensures forall x :: x in a ==> x in b
  {
    SubseqMultiset(a, b);
    forall x | x in a
      ensures x in b
    {
      assert x in multiset(a);
    }
  }

  /** The tail of a concatenation with a non-empty left part. */
  lemma TailOfAppend<T>(a: seq<T>, b: seq<T>)
    requires |a| > 0
    ensures (a + b)[0] == a[0] && (a + b)[1..] == a[1..] + b
  {
  }

  /** Concatenation is associative. */
  lemma AppendAssoc<T>(x: seq<T>, y: seq<T>, z: seq<T>)
    ensures x + (y + z) == (x + y) + z
  {
  }

  /** The entries satisfying `p`, in order. */
  function Filter<T(==,!new)>(p: T -> bool, s: seq<T>): (r: seq<T>)
    ensures IsSubseq(r, s)
    ensures forall x :: x in r <==> x in s && p(x)
    ensures (forall i :: 0 <= i < |s| ==> p(s[i])) ==> r == s
    ensures forall x :: multiset(r)[x] == (if p(x) then multiset(s)[x] else 0)
  {
    if |s| == 0 then []
    else
      var rest := Filter(p, s[1..]);
      assert s == [s[0]] + s[1..];
      assert forall x :: x in s <==> x == s[0] || x in s[1..];
      if p(s[0]) then
        assert ([s[0]] + rest)[1..] == rest;
        [s[0]] + rest
      else
        SubseqConsRight(rest, s[0], s[1..]);
        rest
  }

  /** No entry occurs twice. */
  predicate Distinct<T(==)>(s: seq<T>) {
    forall i, j :: 0 <= i < j < |s| ==> s[i] != s[j]
  }

  /** `f` applied to every entry, in order. */
  function MapSeq<A, B>(f: A -> B, s: seq<A>): (r: seq<B>)
    ensures |r| == |s| && forall i :: 0 <= i < |s| ==> r[i] == f(s[i])
  {
    seq(|s|, i requires 0 <= i < |s| => f(s[i]))
  }

  /** Mapping distributes over concatenation. */
  lemma MapSeqAppend<A, B>(f: A -> B, a: seq<A>, b: seq<A>)
    ensures MapSeq(f, a + b) == MapSeq(f, a) + MapSeq(f, b)
  {
    assert forall i :: 0 <= i < |a + b| ==> MapSeq(f, a + b)[i] == (MapSeq(f, a) + MapSeq(f, b))[i];
  }

  /** A sequence without repeats holds each value at most once. */
  lemma {:induction false} DistinctCount<T>(s: seq<T>, x: T)
    requires Distinct(s)
    ensures multiset(s)[x] <= 1
  {
    if |s| > 0 {
      assert Distinct(s[1..]) by {
        assert forall i :: 0 <= i < |s| - 1 ==> s[1..][i] == s[i + 1];
      }
      DistinctCount(s[1..], x);
      assert s == [s[0]] + s[1..];
      assert s[0] !in s[1..];
    }
  }

  /** A value at two positions is counted at least twice. */
  lemma TwoCopies<T>(s: seq<T>, i: int, j: int)
    requires 0 <= i < j < |s| && s[i] == s[j]
    ensures multiset(s)[s[i]] >= 2
  {
    assert s == s[..j] + s[j..];
    assert s[i] in s[..j] && s[j] in s[j..];
  }

  /** Mapping keeps one multiset below another. */
  lemma {:induction false} MapMultisetLe<A, B>(f: A -> B, a: seq<A>, b: seq<A>)
    requires multiset(a) <= multiset(b)
    ensures multiset(MapSeq(f, a)) <= multiset(MapSeq(f, b))
    decreases |a|
  {
    if |a| > 0 {
      var n := |a| - 1;
      var x := a[n];
      assert a == a[..n] + [x];
      assert x in multiset(b);
      var i :| 0 <= i < |b| && b[i] == x;
      var b' := b[..i] + b[i + 1..];
      assert b == b[..i] + [x] + b[i + 1..];
      assert multiset(b) == multiset(b') + multiset{x};
      assert multiset(a) == multiset(a[..n]) + multiset{x};
      assert forall y :: multiset(a[..n])[y] <= multiset(b')[y] by {
        forall y
          ensures multiset(a[..n])[y] <= multiset(b')[y]
        {
          assert multiset(a)[y] <= multiset(b)[y];
        }
      }
      MapMultisetLe(f, a[..n], b');
      MapSeqAppend(f, a[..n], [x]);
      MapSeqAppend(f, b[..i] + [x], b[i + 1..]);
      MapSeqAppend(f, b[..i], [x]);
      MapSeqAppend(f, b[..i], b[i + 1..]);
    }
  }

  /** Below a sequence whose image has no repeats, the image has none either. */
  lemma DistinctMapSub<A, B>(f: A -> B, a: seq<A>, b: seq<A>)
    requires multiset(a) <= multiset(b) && Distinct(MapSeq(f, b))
    ensures Distinct(MapSeq(f, a))
  {
    var fa, fb := MapSeq(f, a), MapSeq(f, b);
    MapMultisetLe(f, a, b);
    forall i, j | 0 <= i < j < |fa|
      ensures fa[i] != fa[j]
    {
      if fa[i] == fa[j] {
        TwoCopies(fa, i, j);
        DistinctCount(fb, fa[i]);
      }
    }
  }

  /** `t` is a suffix of `s`. */
  predicate EndsWith<T(==)>(s: seq<T>, t: seq<T>) {
    |t| <= |s| && s[|s| - |t|..] == t
  }

  /** A suffix of a suffix is a suffix, and the entries of the inner suffix
      sit at their shifted positions. */
  lemma EndsWithTrans<T>(r: seq<T>, n: seq<T>, s: seq<T>)
    requires EndsWith(r, n) && EndsWith(n, s)
    ensures EndsWith(r, s)
    ensures forall j :: |r| - |n| <= j < |r| ==> r[j] == n[j - (|r| - |n|)]
  {
    var k := |r| - |n|;
    assert forall j :: k <= j < |r| ==> r[j] == r[k..][j - k];
    assert r[|r| - |s|..] == n[|n| - |s|..];
  }

  /** Dropping the head of a subsequence keeps a subsequence. */
  lemma {:induction false} SubseqDropHead<T>(a: seq<T>, b: seq<T>)
    requires |a| > 0 && IsSubseq(a, b)
    ensures IsSubseq(a[1..], b)
    decreases |b|, 0
  {
    if a[0] == b[0] {
      SubseqConsRight(a[1..], b[0], b[1..]);
      assert b == [b[0]] + b[1..];
    } else {
      SubseqDropHead(a, b[1..]);
      SubseqConsRight(a[1..], b[0], b[1..]);
      assert b == [b[0]] + b[1..];
    }
  }

  /** A subsequence of `b` is a subsequence of `b` with an element in front. */
  lemma {:induction false} SubseqConsRight<T>(a: seq<T>, x: T, b: seq<T>)
    requires IsSubseq(a, b)
    ensures IsSubseq(a, [x] + b)
    decreases |b|, 1
  {
    assert ([x] + b)[1..] == b;
    if |a| > 0 && a[0] == x {
      SubseqDropHead(a, b);
    }
  }

  /** Being a subsequence is transitive. */
  lemma {:induction false} SubseqTrans<T>(a: seq<T>, b: seq<T>, c: seq<T>)
    requires IsSubseq(a, b) && IsSubseq(b, c)
    ensures IsSubseq(a, c)
    decreases |c|
  {
    if |a| > 0 {
      assert |b| > 0 && |c| > 0;
      if b[0] == c[0] && a[0] == b[0] {
        SubseqTrans(a[1..], b[1..], c[1..]);
      } else {
        if b[0] == c[0] {
          SubseqTrans(a, b[1..], c[1..]);
        } else {
          SubseqTrans(a, b, c[1..]);
        }
        SubseqConsRight(a, c[0], c[1..]);
        assert c == [c[0]] + c[1..];
      }
    }
  }
}
