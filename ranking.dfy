/** The list operations the search paths use: `list.sort(key=..., reverse=True)`,
    Python's slice `s[:n]` and `np.argsort(...)[::-1]`. */
module Ranking {
  import opened Common

  /** The keys never increase along `xs`. */
  ghost predicate SortedDesc<T>(xs: seq<T>, key: T -> real)
  {
    forall i, j :: 0 <= i < j < |xs| ==> key(xs[i]) >= key(xs[j])
  }

  /** Puts `x` in front of the first element of `ys` whose key is not above `key(x)`. */
  function Insert<T>(x: T, ys: seq<T>, key: T -> real): (r: seq<T>)
    ensures |r| == |ys| + 1
    ensures multiset(r) == multiset(ys) + multiset{x}
  {
    if ys == [] || key(ys[0]) <= key(x) then [x] + ys
    else
      assert ys == [ys[0]] + ys[1..];
      [ys[0]] + Insert(x, ys[1..], key)
  }

  lemma ConsSorted<T>(y: T, tail: seq<T>, key: T -> real)
    requires SortedDesc(tail, key)
    requires forall e :: e in tail ==> key(y) >= key(e)
    ensures SortedDesc([y] + tail, key)
  {
    var r := [y] + tail;
    forall i, j | 0 <= i < j < |r| ensures key(r[i]) >= key(r[j]) {
      assert r[j] == tail[j - 1];
      if i == 0 {
        assert r[j] in tail;
      } else {
        assert r[i] == tail[i - 1];
      }
    }
  }

  lemma {:induction false} InsertSorted<T>(x: T, ys: seq<T>, key: T -> real)
    requires SortedDesc(ys, key)
    ensures SortedDesc(Insert(x, ys, key), key)
  {
    if ys == [] || key(ys[0]) <= key(x) {
      forall e | e in ys ensures key(x) >= key(e) {
        var q :| 0 <= q < |ys| && ys[q] == e;
        assert key(ys[0]) >= key(ys[q]);
      }
      ConsSorted(x, ys, key);
    } else {
      var tail := Insert(x, ys[1..], key);
      InsertSorted(x, ys[1..], key);
      forall e | e in tail ensures key(ys[0]) >= key(e) {
        assert e in multiset(tail);
        if e != x {
          assert e in multiset(ys[1..]);
          var q :| 0 <= q < |ys[1..]| && ys[1..][q] == e;
          assert ys[q + 1] == e;
        }
      }
      ConsSorted(ys[0], tail, key);
    }
  }

  /** Python's `xs.sort(key=key, reverse=True)` seen as a value: the same elements,
      highest key first (insertion sort; among equal keys the earlier element stays first). */
  function SortDesc<T>(xs: seq<T>, key: T -> real): (r: seq<T>)
    ensures |r| == |xs|
    ensures multiset(r) == multiset(xs)
    ensures SortedDesc(r, key)
  {
    if xs == [] then []
    else
      var rest := SortDesc(xs[1..], key);
      SortDescStep(xs, rest, key);
      Insert(xs[0], rest, key)
  }

  /** Inserting the head of `xs` into the sorted rest gives a sorted permutation of `xs`. */
  lemma SortDescStep<T>(xs: seq<T>, rest: seq<T>, key: T -> real)
    requires xs != [] && multiset(rest) == multiset(xs[1..]) && SortedDesc(rest, key)
    ensures var r := Insert(xs[0], rest, key);
      |r| == |xs| && multiset(r) == multiset(xs) && SortedDesc(r, key)
  {
    InsertSorted(xs[0], rest, key);
    assert xs == [xs[0]] + xs[1..];
  }

  /** In a sorted sequence, every element before position `k` has a key no lower than any
      element from `k` on. */
  lemma SortedSplit<T>(xs: seq<T>, k: int, key: T -> real)
    requires SortedDesc(xs, key) && 0 <= k <= |xs|
    ensures forall x, y :: x in xs[..k] && y in xs[k..] ==> key(x) >= key(y)
  {
    forall x, y | x in xs[..k] && y in xs[k..] ensures key(x) >= key(y) {
      var i :| 0 <= i < k && xs[..k][i] == x;
      var j :| 0 <= j < |xs| - k && xs[k..][j] == y;
      assert xs[i] == x && xs[k + j] == y;
    }
  }

  /** In a sorted permutation `xs` of `ys`, every element of a prefix has a key no lower than
      any element of `ys` the prefix leaves out. */
  lemma PrefixOutranks<T>(xs: seq<T>, ys: seq<T>, k: int, key: T -> real)
    requires SortedDesc(xs, key) && multiset(xs) == multiset(ys) && 0 <= k <= |xs|
    ensures forall x, y :: x in xs[..k] && y in multiset(ys) - multiset(xs[..k]) ==> key(x) >= key(y)
  {
    assert xs == xs[..k] + xs[k..];
    assert multiset(ys) - multiset(xs[..k]) == multiset(xs[k..]);
    SortedSplit(xs, k, key);
    forall y | y in multiset(xs[k..]) ensures y in xs[k..] {
    }
  }

  /** Python's slice `s[:n]`: a prefix of `s`; a negative `n` drops `-n` elements from the end. */
  function PyTake<T>(s: seq<T>, n: int): (r: seq<T>)
    ensures |r| <= |s| && r == s[..|r|]
    ensures n >= 0 ==> |r| == Min(n, |s|)
    ensures n < 0 ==> |r| == Max(0, |s| + n)
  {
    if n >= 0 then s[..Min(n, |s|)] else s[..Max(0, |s| + n)]
  }

  /** `[0, 1, ..., n - 1]`. */
  function Range(n: nat): (r: seq<int>)
    ensures |r| == n
    ensures forall i :: 0 <= i < n ==> r[i] == i
  {
    seq(n, i => i)
  }

  /** The similarity at a position of `sims`, as a sort key over positions. */
  function SimilarityAt(sims: seq<real>): int -> real
  {
    i => if 0 <= i < |sims| then sims[i] else 0.0
  }

  /** `np.argsort(sims)[::-1]`: every position of `sims` once, highest similarity first. */
  function ArgSortDesc(sims: seq<real>): (order: seq<int>)
    ensures |order| == |sims|
    ensures forall i :: i in order <==> 0 <= i < |sims|
    ensures forall a :: 0 <= a < |order| ==> 0 <= order[a] < |sims|
    ensures forall a, b :: 0 <= a < b < |order| ==> sims[order[a]] >= sims[order[b]]
  {
    var range := Range(|sims|);
    var order := SortDesc(range, SimilarityAt(sims));
    forall i ensures i in range <==> 0 <= i < |sims| {
      if 0 <= i < |sims| {
        assert range[i] == i;
      }
    }
    assert multiset(order) == multiset(range);
    forall i ensures i in order <==> i in range {
      assert i in order <==> i in multiset(order);
      assert i in range <==> i in multiset(range);
    }
    assert forall i :: 0 <= i < |sims| ==> range[i] in range;
    assert forall a :: 0 <= a < |order| ==> order[a] in order;
    order
  }

  /** The first `m` positions of the descending argsort hold the highest similarities:
      no position left out has a higher one than a position taken. */
  lemma TopAreHighest(sims: seq<real>, m: int)
    ensures var top := PyTake(ArgSortDesc(sims), m);
      forall a, j :: a in top && 0 <= j < |sims| && j !in top ==> 0 <= a < |sims| && sims[a] >= sims[j]
  {
    var order := ArgSortDesc(sims);
    var top := PyTake(order, m);
    forall a, j | a in top && 0 <= j < |sims| && j !in top
      ensures 0 <= a < |sims| && sims[a] >= sims[j]
    {
      var p :| 0 <= p < |top| && top[p] == a;
      assert order[p] == a;
      assert j in order;
      var q :| 0 <= q < |order| && order[q] == j;
      assert p < q;
    }
  }
}
