/** Counting, summing and previewing sequences, as the views derive their badges and totals. */
module Seqs {
  import opened Wrappers

  /** `xs.filter(p).length`. */
  function CountWhere<T>(xs: seq<T>, p: T -> bool): (n: nat)
    ensures n <= |xs|
    ensures n == 0 <==> forall i :: 0 <= i < |xs| ==> !p(xs[i])
    ensures n == |xs| <==> forall i :: 0 <= i < |xs| ==> p(xs[i])
    decreases |xs|
  {
    if |xs| == 0 then 0
    else (if p(xs[0]) then 1 else 0) + CountWhere(xs[1..], p)
  }

  /** Counting over a concatenation adds the counts of the two halves, so the count is the number of matches. */
  lemma {:induction false} CountWhereAppend<T>(a: seq<T>, b: seq<T>, p: T -> bool)
    ensures CountWhere(a + b, p) == CountWhere(a, p) + CountWhere(b, p)
    decreases |a|
  {
    if |a| > 0 {
      assert (a + b)[1..] == a[1..] + b;
      CountWhereAppend(a[1..], b, p);
    } else {
      assert a + b == b;
    }
  }

  /** `xs.reduce((acc, x) => acc + f(x), 0)`. */
  function Sum<T>(xs: seq<T>, f: T -> int): int
    decreases |xs|
  {
    if |xs| == 0 then 0 else f(xs[0]) + Sum(xs[1..], f)
  }

  /** A sum of non-negative terms is non-negative. */
  lemma {:induction false} SumNonNegative<T>(xs: seq<T>, f: T -> int)
    requires forall i :: 0 <= i < |xs| ==> f(xs[i]) >= 0
    ensures Sum(xs, f) >= 0
    decreases |xs|
  {
    if |xs| > 0 {
      assert f(xs[0]) >= 0;
      SumNonNegative(xs[1..], f);
    }
  }

  /** The first few items of a list, and the size of the "+n" badge for the rest. */
  datatype Preview<T> = Preview(shown: seq<T>, more: Option<nat>)

  /**
   * `xs.slice(0, limit)` plus a badge counting the items left out, shown only
   * when something is left out.
   */
  function PreviewOf<T>(xs: seq<T>, limit: nat): (p: Preview<T>)
    ensures p.shown <= xs && |p.shown| <= limit
    ensures p.more.Some? <==> |xs| > limit
    ensures p.more.Some? ==> |p.shown| + p.more.value == |xs| && p.more.value > 0
    ensures p.more.Some? ==> p.shown == xs[..limit]
    ensures p.more.None? ==> p.shown == xs
  {
    if |xs| > limit then Preview(xs[..limit], Some(|xs| - limit)) else Preview(xs, None)
  }

  /** Items added after a full preview do not change what is shown; only the badge grows. */
  lemma PreviewOfLonger<T>(xs: seq<T>, ys: seq<T>, limit: nat)
    requires |xs| >= limit
    ensures PreviewOf(xs + ys, limit).shown == PreviewOf(xs, limit).shown
    ensures |PreviewOf(xs + ys, limit).shown| + PreviewOf(xs + ys, limit).more.GetOr(0)
      == |PreviewOf(xs, limit).shown| + PreviewOf(xs, limit).more.GetOr(0) + |ys|
  {
    assert (xs + ys)[..limit] == xs[..limit];
  }

  /** Some element has key `k`. */
  predicate HasKey<T, K(==)>(xs: seq<T>, key: T -> K, k: K) {
    exists j :: 0 <= j < |xs| && key(xs[j]) == k
  }

  /** No two elements share a key. */
  predicate UniqueKeys<T, K(==)>(xs: seq<T>, key: T -> K) {
    forall i, j :: 0 <= i < j < |xs| ==> key(xs[i]) != key(xs[j])
  }

  /** `xs.filter(x => key(x) !== k)`. */
  function Reject<T, K(==)>(xs: seq<T>, key: T -> K, k: K): (r: seq<T>)
    ensures forall i :: 0 <= i < |r| ==> r[i] in xs && key(r[i]) != k
    ensures forall i :: 0 <= i < |xs| && key(xs[i]) != k ==> xs[i] in r
    ensures |r| == |xs| <==> !HasKey(xs, key, k)
    ensures !HasKey(xs, key, k) ==> r == xs
    ensures |r| <= |xs|
    decreases |xs|
  {
    if |xs| == 0 then []
    else
      var rest := Reject(xs[1..], key, k);
      assert HasKey(xs[1..], key, k) ==> HasKey(xs, key, k) by {
        if HasKey(xs[1..], key, k) {
          var j :| 0 <= j < |xs[1..]| && key(xs[1..][j]) == k;
          assert xs[j + 1] == xs[1..][j];
        }
      }
      if key(xs[0]) != k then [xs[0]] + rest else rest
  }

  /** `xs.filter(x => key(x) === k)`. */
  function Select<T, K(==)>(xs: seq<T>, key: T -> K, k: K): (r: seq<T>)
    ensures forall i :: 0 <= i < |r| ==> r[i] in xs && key(r[i]) == k
    ensures forall i :: 0 <= i < |xs| && key(xs[i]) == k ==> xs[i] in r
    ensures r == [] <==> !HasKey(xs, key, k)
    ensures |r| <= |xs|
    decreases |xs|
  {
    if |xs| == 0 then []
    else
      var rest := Select(xs[1..], key, k);
      assert HasKey(xs[1..], key, k) ==> HasKey(xs, key, k) by {
        if HasKey(xs[1..], key, k) {
          var j :| 0 <= j < |xs[1..]| && key(xs[1..][j]) == k;
          assert xs[j + 1] == xs[1..][j];
        }
      }
      if key(xs[0]) == k then [xs[0]] + rest else rest
  }

  /** Rejecting keeps the survivors in their original order: it distributes over concatenation. */
  lemma {:induction false} RejectAppend<T, K>(a: seq<T>, b: seq<T>, key: T -> K, k: K)
    ensures Reject(a + b, key, k) == Reject(a, key, k) + Reject(b, key, k)
    decreases |a|
  {
    if |a| == 0 {
      assert a + b == b;
    } else {
      assert (a + b)[1..] == a[1..] + b;
      RejectAppend(a[1..], b, key, k);
    }
  }

  /** Selecting keeps the chosen elements in their original order: it distributes over concatenation. */
  lemma {:induction false} SelectAppend<T, K>(a: seq<T>, b: seq<T>, key: T -> K, k: K)
    ensures Select(a + b, key, k) == Select(a, key, k) + Select(b, key, k)
    decreases |a|
  {
    if |a| == 0 {
      assert a + b == b;
    } else {
      assert (a + b)[1..] == a[1..] + b;
      SelectAppend(a[1..], b, key, k);
    }
  }

  /** Removing elements never introduces a repeated key. */
  lemma {:induction false} RejectKeepsKeysUnique<T, K>(xs: seq<T>, key: T -> K, k: K)
    requires UniqueKeys(xs, key)
    ensures UniqueKeys(Reject(xs, key, k), key)
    decreases |xs|
  {
    if |xs| > 0 {
      var tail := xs[1..];
      assert UniqueKeys(tail, key) by {
        forall i, j | 0 <= i < j < |tail|
          ensures key(tail[i]) != key(tail[j])
        {
          assert tail[i] == xs[i + 1] && tail[j] == xs[j + 1];
        }
      }
      RejectKeepsKeysUnique(tail, key, k);
      if key(xs[0]) != k {
        var rest := Reject(tail, key, k);
        assert Reject(xs, key, k) == [xs[0]] + rest;
        forall j | 0 <= j < |rest|
          ensures key(rest[j]) != key(xs[0])
        {
          var m :| 0 <= m < |tail| && tail[m] == rest[j];
          assert xs[m + 1] == rest[j];
        }
        ConsKeepsKeysUnique(xs[0], rest, key);
      }
    }
  }

  /** Putting an element whose key no other has in front of a list with unique keys keeps them unique. */
  lemma ConsKeepsKeysUnique<T, K>(x: T, rest: seq<T>, key: T -> K)
    requires UniqueKeys(rest, key)
    requires forall j :: 0 <= j < |rest| ==> key(rest[j]) != key(x)
    ensures UniqueKeys([x] + rest, key)
  {
    var r := [x] + rest;
    forall a, b | 0 <= a < b < |r|
      ensures key(r[a]) != key(r[b])
    {
      assert r[b] == rest[b - 1];
      if a > 0 {
        assert r[a] == rest[a - 1];
      }
    }
  }
}
