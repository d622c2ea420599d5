/**
 * `Array.shuffled()`: a random-removal permutation. A list of the not yet
 * used positions of the array is kept; each round one of them is picked at
 * random, the element at that position is appended to the result and the
 * position is removed from the list.
 *
 * The random pick `arc4random_uniform(UInt32(indexes.count))` is modelled as
 * an arbitrary index into `indexes` (the `:|` choice below), so every
 * property proved here holds for every sequence of random outcomes.
 */
module Shuffle {

  /** The positions 0, 1, ..., n - 1 in increasing order: `(0 ..< count).map { $0 }`. */
  function Range(n: nat): (r: seq<nat>)
    ensures |r| == n
    ensures forall i :: 0 <= i < n ==> r[i] == i
  {
    if n == 0 then [] else Range(n - 1) + [n - 1]
  }

  /** No value occurs twice in `s`. */
  ghost predicate Distinct(s: seq<nat>)
  {
    forall i, j :: 0 <= i < j < |s| ==> s[i] != s[j]
  }

  /** Every value of `s` is a position of a sequence of length `n`. */
  ghost predicate InBounds(s: seq<nat>, n: nat)
  {
    forall i :: 0 <= i < |s| ==> s[i] < n
  }

  /** `order` lists every position of a sequence of length `n` exactly once. */
  ghost predicate IsIndexPermutation(order: seq<nat>, n: nat)
  {
    && |order| == n
    && InBounds(order, n)
    && Distinct(order)
    && forall k :: 0 <= k < n ==> k in order
  }

  /** The elements of `a` at the positions `idx`, in the order of `idx`. */
  ghost function Pick<T>(a: seq<T>, idx: seq<nat>): (r: seq<T>)
    requires InBounds(idx, |a|)
    ensures |r| == |idx|
  {
    seq(|idx|, i requires 0 <= i < |idx| => a[idx[i]])
  }

  /** Removing position `k` of `idx` removes exactly `a[idx[k]]` from the picked multiset. */
  lemma PickRemove<T>(a: seq<T>, idx: seq<nat>, k: nat)
    requires InBounds(idx, |a|) && k < |idx|
    ensures InBounds(idx[..k] + idx[k + 1..], |a|)
    ensures multiset(Pick(a, idx)) == multiset(Pick(a, idx[..k] + idx[k + 1..])) + multiset{a[idx[k]]}
  {
    var rest := idx[..k] + idx[k + 1..];
    var p := Pick(a, idx);
    assert Pick(a, rest) == p[..k] + p[k + 1..];
    assert p == p[..k] + [p[k]] + p[k + 1..];
  }

  /**
   * The bookkeeping of the shuffle loop: `indexes` (still to use) and
   * `order` (already used) are positions of a sequence of length `n`, no
   * position is listed twice, in either or across both, and together they
   * list every position.
   */
  ghost predicate Tracks(indexes: seq<nat>, order: seq<nat>, n: nat)
  {
    && InBounds(indexes, n) && Distinct(indexes)
    && InBounds(order, n) && Distinct(order)
    && (forall i, j :: 0 <= i < |indexes| && 0 <= j < |order| ==> indexes[i] != order[j])
    && (forall k :: 0 <= k < n ==> k in indexes || k in order)
  }

  /** Moving one position from `indexes` to the end of `order` keeps the bookkeeping right. */
  lemma TakeIndex(indexes: seq<nat>, order: seq<nat>, n: nat, k: nat)
    requires Tracks(indexes, order, n) && k < |indexes|
    ensures Tracks(indexes[..k] + indexes[k + 1..], order + [indexes[k]], n)
  {
    var rest := indexes[..k] + indexes[k + 1..];
    assert forall i :: 0 <= i < |rest| ==> rest[i] == indexes[if i < k then i else i + 1];
    forall m | 0 <= m < n
      ensures m in rest || m in order + [indexes[k]]
    {
      if m in indexes && m != indexes[k] {
        var p :| 0 <= p < |indexes| && indexes[p] == m;
        assert rest[if p < k then p else p - 1] == m;
      }
    }
  }

  /**
   * The shuffle loop. `results` is the returned array; the ghost `order`
   * records which position of `a` each element of `results` was taken from.
   */
  method Shuffled<T>(a: seq<T>) returns (results: seq<T>, ghost order: seq<nat>)
    ensures |results| == |a|
    ensures multiset(results) == multiset(a)
    ensures IsIndexPermutation(order, |a|)
    ensures forall i :: 0 <= i < |results| ==> order[i] < |a| && results[i] == a[order[i]]
  {
    results := [];
    order := [];
    var indexes := Range(|a|);
    assert Pick(a, indexes) == a;
    forall k | 0 <= k < |a| ensures k in indexes {
      assert indexes[k] == k;
    }
    while |indexes| > 0
      invariant Tracks(indexes, order, |a|)
      invariant |results| == |order| && |order| + |indexes| == |a|
      invariant forall i :: 0 <= i < |results| ==> results[i] == a[order[i]]
      invariant multiset(results) + multiset(Pick(a, indexes)) == multiset(a)
      decreases |indexes|
    {
      var indexOfIndexes :| 0 <= indexOfIndexes < |indexes|;
      var index := indexes[indexOfIndexes];
      PickRemove(a, indexes, indexOfIndexes);
      TakeIndex(indexes, order, |a|, indexOfIndexes);
      results := results + [a[index]];
      order := order + [index];
      indexes := indexes[..indexOfIndexes] + indexes[indexOfIndexes + 1..];
    }
  }
}
