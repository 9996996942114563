/** Sequence operations the to-do client uses on its lists: the array `filter`
    and `map` of JavaScript, with the facts about them that the rest of the
    model relies on (membership, length, order, partition, idempotence). */
module Seqs {

  /** The elements of `s` for which `keep` holds, in their original order
      (`Array.prototype.filter`). */
  function Filter<T>(keep: T -> bool, s: seq<T>): (r: seq<T>)
    ensures |r| <= |s|
    ensures forall i :: 0 <= i < |r| ==> r[i] in s && keep(r[i])
    ensures forall i :: 0 <= i < |s| && keep(s[i]) ==> s[i] in r
  {
    if s == [] then []
    else (if keep(s[0]) then [s[0]] else []) + Filter(keep, s[1..])
  }

  /** `f` applied to every element, position by position (`Array.prototype.map`). */
  function Map<T, U>(f: T -> U, s: seq<T>): (r: seq<U>)
    ensures |r| == |s|
    ensures forall i :: 0 <= i < |s| ==> r[i] == f(s[i])
  {
    if s == [] then [] else [f(s[0])] + Map(f, s[1..])
  }

  /** `a` can be obtained from `b` by deleting elements: `a` keeps the
      relative order that its elements have in `b`. */
  ghost predicate IsSubsequence<T>(a: seq<T>, b: seq<T>)
    decreases |b|
  {
    a == [] ||
    (b != [] &&
     ((a[0] == b[0] && IsSubsequence(a[1..], b[1..])) || IsSubsequence(a, b[1..])))
  }

  /** The elements of `s` in the opposite order. */
  function Reversed<T>(s: seq<T>): (r: seq<T>)
    ensures |r| == |s|
    ensures forall i :: 0 <= i < |s| ==> r[i] == s[|s| - 1 - i]
  {
    if s == [] then [] else Reversed(s[1..]) + [s[0]]
  }

  /** Reversing a sequence with one more element at its end puts that
      element first. */
  lemma {:induction false} ReversedSnoc<T>(s: seq<T>, x: T)
    ensures Reversed(s + [x]) == [x] + Reversed(s)
  {
    if s != [] {
      assert (s + [x])[1..] == s[1..] + [x];
      ReversedSnoc(s[1..], x);
    }
  }

  /** Filtering keeps the survivors in the order they had. */
  lemma {:induction false} FilterIsSubsequence<T>(keep: T -> bool, s: seq<T>)
    ensures IsSubsequence(Filter(keep, s), s)
  {
    if s != [] {
      FilterIsSubsequence(keep, s[1..]);
      var rest := Filter(keep, s[1..]);
      if keep(s[0]) {
        assert Filter(keep, s) == [s[0]] + rest;
        assert ([s[0]] + rest)[1..] == rest;
      } else {
        assert Filter(keep, s) == rest;
      }
    }
  }

  /** When every element already passes, filtering changes nothing. */
  lemma {:induction false} FilterKeepsAll<T>(keep: T -> bool, s: seq<T>)
    requires forall i :: 0 <= i < |s| ==> keep(s[i])
    ensures Filter(keep, s) == s
  {
    if s != [] {
      FilterKeepsAll(keep, s[1..]);
      assert [s[0]] + s[1..] == s;
    }
  }

  /** Filtering twice with the same test is filtering once. */
  lemma FilterIdempotent<T>(keep: T -> bool, s: seq<T>)
    ensures Filter(keep, Filter(keep, s)) == Filter(keep, s)
  {
    var r := Filter(keep, s);
    assert forall i :: 0 <= i < |r| ==> r[i] in r;
    FilterKeepsAll(keep, r);
  }

  /** Filtering by a test and by its negation splits `s` in two: every
      occurrence lands in exactly one part, so the lengths add up to |s|. */
  lemma {:induction false} FilterPartition<T>(keep: T -> bool, drop: T -> bool, s: seq<T>)
    requires forall x :: drop(x) == !keep(x)
    ensures multiset(Filter(keep, s)) + multiset(Filter(drop, s)) == multiset(s)
    ensures |Filter(keep, s)| + |Filter(drop, s)| == |s|
  {
    if s != [] {
      FilterPartition(keep, drop, s[1..]);
      assert s == [s[0]] + s[1..];
      assert multiset(s) == multiset{s[0]} + multiset(s[1..]);
    }
  }
}
