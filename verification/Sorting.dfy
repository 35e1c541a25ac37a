/** Python's `sorted(…, reverse=True)` on an integer key: descending and stable. */
module Sorting {
  import Seqs

  function Insert<T>(x: T, xs: seq<T>, key: T -> int): seq<T> {
    if xs == [] || key(xs[0]) <= key(x) then [x] + xs else [xs[0]] + Insert(x, xs[1..], key)
  }

  function SortDesc<T>(xs: seq<T>, key: T -> int): seq<T> {
    if xs == [] then [] else Insert(xs[0], SortDesc(xs[1..], key), key)
  }

  ghost predicate Descending<T>(xs: seq<T>, key: T -> int) {
    forall i, j :: 0 <= i < j < |xs| ==> key(xs[j]) <= key(xs[i])
  }

  lemma {:induction false} InsertPermutes<T>(x: T, xs: seq<T>, key: T -> int)
    ensures multiset(Insert(x, xs, key)) == multiset(xs) + multiset{x}
  {
    if xs != [] && key(xs[0]) > key(x) {
      InsertPermutes(x, xs[1..], key);
      Seqs.HeadTail(xs);
    }
  }

  lemma {:induction false} InsertDescends<T>(x: T, xs: seq<T>, key: T -> int)
    requires Descending(xs, key)
    ensures Descending(Insert(x, xs, key), key)
  {
    if xs == [] || key(xs[0]) <= key(x) {
      var all := [x] + xs;
      forall i, j | 0 <= i < j < |all|
        ensures key(all[j]) <= key(all[i])
      {
        assert all[j] == xs[j - 1];
        assert key(xs[j - 1]) <= key(xs[0]);
        assert i > 0 ==> all[i] == xs[i - 1];
      }
    } else {
      var t := Insert(x, xs[1..], key);
      InsertDescends(x, xs[1..], key);
      InsertPermutes(x, xs[1..], key);
      forall j | 0 <= j < |t|
        ensures key(t[j]) <= key(xs[0])
      {
        assert t[j] in multiset(t);
        assert t[j] == x || t[j] in xs[1..];
      }
    }
  }

  // The elements with key `k`, in order.
  function SameKey<T>(xs: seq<T>, k: int, key: T -> int): seq<T> {
    if xs == [] then [] else (if key(xs[0]) == k then [xs[0]] else []) + SameKey(xs[1..], k, key)
  }

  lemma SameKeyCons<T>(x: T, xs: seq<T>, k: int, key: T -> int)
    ensures SameKey([x] + xs, k, key) == (if key(x) == k then [x] else []) + SameKey(xs, k, key)
  {
    Seqs.TailOfConcat([x], xs);
    Seqs.NoMore(xs);
  }

  lemma {:induction false} InsertIsStable<T>(x: T, xs: seq<T>, k: int, key: T -> int)
    ensures SameKey(Insert(x, xs, key), k, key) == (if key(x) == k then [x] else []) + SameKey(xs, k, key)
  {
    if xs == [] || key(xs[0]) <= key(x) {
      SameKeyCons(x, xs, k, key);
    } else {
      InsertIsStable(x, xs[1..], k, key);
      SameKeyCons(xs[0], Insert(x, xs[1..], key), k, key);
      if key(x) == k {
        Seqs.NoMore([x] + SameKey(xs[1..], k, key));
        Seqs.NoMore(SameKey(xs[1..], k, key));
      }
    }
  }

  /** The result is descending and a permutation. */
  lemma {:induction false} SortDescSorts<T>(xs: seq<T>, key: T -> int)
    ensures Descending(SortDesc(xs, key), key)
    ensures multiset(SortDesc(xs, key)) == multiset(xs)
  {
    if xs != [] {
      SortDescSorts(xs[1..], key);
      InsertDescends(xs[0], SortDesc(xs[1..], key), key);
      InsertPermutes(xs[0], SortDesc(xs[1..], key), key);
      assert xs == [xs[0]] + xs[1..];
    }
  }

  /** Elements with equal keys keep their order. */
  lemma {:induction false} SortDescIsStable<T>(xs: seq<T>, k: int, key: T -> int)
    ensures SameKey(SortDesc(xs, key), k, key) == SameKey(xs, k, key)
  {
    if xs != [] {
      SortDescIsStable(xs[1..], k, key);
      InsertIsStable(xs[0], SortDesc(xs[1..], key), k, key);
    }
  }

  lemma SameMultisetMembers<T>(xs: seq<T>, ys: seq<T>)
    requires multiset(xs) == multiset(ys)
    ensures |xs| == |ys| && forall x :: x in xs <==> x in ys
  {
    assert |xs| == |multiset(xs)| == |multiset(ys)| == |ys|;
    assert forall x :: x in xs <==> x in multiset(xs);
    assert forall x :: x in ys <==> x in multiset(ys);
  }

  // Where the last element of `a` is in a permutation `b` of it; without it, permutations remain.
  lemma LastElsewhere<T>(a: seq<T>, b: seq<T>) returns (i: nat)
    requires multiset(a) == multiset(b) && a != []
    ensures i < |b| && b[i] == a[|a| - 1]
    ensures b == b[..i] + ([a[|a| - 1]] + b[i + 1..])
    ensures multiset(b[..i] + b[i + 1..]) == multiset(a[..|a| - 1])
  {
    var x, front := a[|a| - 1], a[..|a| - 1];
    SameMultisetMembers(a, b);
    assert x in a;
    i :| 0 <= i < |b| && b[i] == x;
    Seqs.FrontLast(a);
    Around(b, i);
    var left, right := b[..i], b[i + 1..];
    assert multiset(a) == multiset(front) + multiset{x};
    assert multiset(b) == multiset(left) + (multiset{x} + multiset(right));
    Cancel(multiset(front), multiset(left) + multiset(right), x);
  }

  lemma Around<T>(b: seq<T>, i: nat)
    requires i < |b|
    ensures b == b[..i] + ([b[i]] + b[i + 1..])
  {
  }

  lemma Cancel<T>(m: multiset<T>, n: multiset<T>, x: T)
    requires m + multiset{x} == n + multiset{x}
    ensures m == n
  {
    assert m == (m + multiset{x}) - multiset{x};
    assert n == (n + multiset{x}) - multiset{x};
  }
}
