/** Operations on sequences of items compared through a key, the shape every
    list-synchronisation reducer of the client has: insert at the front or the
    back, replace the items whose key matches (`Array.prototype.map`), and drop
    the items whose key matches (`Array.prototype.filter`). */
module Keyed {

  /** `a` can be obtained from `b` by deleting elements: it keeps the order. */
  ghost predicate IsSubsequence<T>(a: seq<T>, b: seq<T>)
    decreases |b|
  {
    if a == [] then true
    else if b == [] then false
    else (a[0] == b[0] && IsSubsequence(a[1..], b[1..])) || IsSubsequence(a, b[1..])
  }

  /** True when some item of `xs` has key `k`. */
  predicate HasKey<T, K(==)>(xs: seq<T>, key: T -> K, k: K)
  {
    exists i :: 0 <= i < |xs| && key(xs[i]) == k
  }

  /** The number of items of `xs` whose key is `k`. */
  function CountKey<T, K(==)>(xs: seq<T>, key: T -> K, k: K): nat
  {
    if xs == [] then 0
    else (if key(xs[0]) == k then 1 else 0) + CountKey(xs[1..], key, k)
  }

  /** `[x, ...xs]`: the new item first, the old items after it in order. */
  function Prepend<T>(xs: seq<T>, x: T): (r: seq<T>)
    ensures |r| == |xs| + 1
    ensures r[0] == x
    ensures forall i :: 0 <= i < |xs| ==> r[i + 1] == xs[i]
  {
    [x] + xs
  }

  /** `[...xs, x]`: the old items unchanged as a prefix, the new item last. */
  function Append<T>(xs: seq<T>, x: T): (r: seq<T>)
    ensures |r| == |xs| + 1
    ensures r[|xs|] == x
    ensures forall i :: 0 <= i < |xs| ==> r[i] == xs[i]
  {
    xs + [x]
  }

  /** `xs.map(item => key(item) === key(u) ? u : item)`. */
  function ReplaceByKey<T, K(==)>(xs: seq<T>, key: T -> K, u: T): (r: seq<T>)
    ensures |r| == |xs|
    ensures forall i :: 0 <= i < |xs| && key(xs[i]) == key(u) ==> r[i] == u
    ensures forall i :: 0 <= i < |xs| && key(xs[i]) != key(u) ==> r[i] == xs[i]
  {
    if xs == [] then []
    else [if key(xs[0]) == key(u) then u else xs[0]] + ReplaceByKey(xs[1..], key, u)
  }

  /** `xs.filter(item => key(item) !== k)`. */
  function RemoveByKey<T(==,!new), K(==)>(xs: seq<T>, key: T -> K, k: K): (r: seq<T>)
    ensures |r| <= |xs|
    ensures forall i :: 0 <= i < |r| ==> key(r[i]) != k
    ensures forall x :: multiset(r)[x] == if key(x) == k then 0 else multiset(xs)[x]
    ensures IsSubsequence(r, xs)
  {
    if xs == [] then []
    else
      assert xs == [xs[0]] + xs[1..];
      var rest := RemoveByKey(xs[1..], key, k);
      if key(xs[0]) == k then rest
      else
        assert ([xs[0]] + rest)[1..] == rest;
        [xs[0]] + rest
  }

  /** Removing a key no item carries leaves the list exactly as it was. */
  lemma {:induction false} RemoveAbsentKey<T(!new), K>(xs: seq<T>, key: T -> K, k: K)
    requires !HasKey(xs, key, k)
    ensures RemoveByKey(xs, key, k) == xs
    decreases |xs|
  {
    if xs != [] {
      assert key(xs[0]) != k;
      assert !HasKey(xs[1..], key, k) by {
        forall i | 0 <= i < |xs[1..]| ensures key(xs[1..][i]) != k {
          assert xs[1..][i] == xs[i + 1];
        }
      }
      RemoveAbsentKey(xs[1..], key, k);
    }
  }

  /** Filtering twice by the same key is filtering once. */
  lemma RemoveIdempotent<T(!new), K>(xs: seq<T>, key: T -> K, k: K)
    ensures RemoveByKey(RemoveByKey(xs, key, k), key, k) == RemoveByKey(xs, key, k)
  {
    RemoveAbsentKey(RemoveByKey(xs, key, k), key, k);
  }

  /** The filter drops exactly the items carrying the key: its length loss is
      their number. */
  lemma {:induction false} RemoveCount<T(!new), K>(xs: seq<T>, key: T -> K, k: K)
    ensures |RemoveByKey(xs, key, k)| == |xs| - CountKey(xs, key, k)
    decreases |xs|
  {
    if xs != [] {
      RemoveCount(xs[1..], key, k);
    }
  }

  /** A replacement never changes which keys occur, nor how often. */
  lemma {:induction false} ReplaceKeepsCounts<T, K>(xs: seq<T>, key: T -> K, u: T, k: K)
    ensures CountKey(ReplaceByKey(xs, key, u), key, k) == CountKey(xs, key, k)
    decreases |xs|
  {
    if xs != [] {
      var r := ReplaceByKey(xs, key, u);
      assert r[1..] == ReplaceByKey(xs[1..], key, u);
      ReplaceKeepsCounts(xs[1..], key, u, k);
    }
  }

  /** Replacing with the same item twice is replacing once. */
  lemma {:induction false} ReplaceIdempotent<T, K>(xs: seq<T>, key: T -> K, u: T)
    ensures ReplaceByKey(ReplaceByKey(xs, key, u), key, u) == ReplaceByKey(xs, key, u)
  {
    var once := ReplaceByKey(xs, key, u);
    var twice := ReplaceByKey(once, key, u);
    assert forall i :: 0 <= i < |xs| ==> twice[i] == once[i];
  }

  /** A replacement keeps every key that occurs and adds none. */
  lemma ReplaceKeepsKeys<T, K>(xs: seq<T>, key: T -> K, u: T, k: K)
    ensures HasKey(ReplaceByKey(xs, key, u), key, k) <==> HasKey(xs, key, k)
  {
    var r := ReplaceByKey(xs, key, u);
    assert forall i :: 0 <= i < |xs| ==> key(r[i]) == key(xs[i]);
    if HasKey(r, key, k) {
      var i :| 0 <= i < |r| && key(r[i]) == k;
      assert key(xs[i]) == k;
    }
    if HasKey(xs, key, k) {
      var i :| 0 <= i < |xs| && key(xs[i]) == k;
      assert key(r[i]) == k;
    }
  }
}
