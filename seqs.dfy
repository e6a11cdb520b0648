/** Sequence operations that the query engine is built from: filtering and OFFSET/LIMIT slicing. */
module Seqs {
  import opened Wrappers

  function Min(a: int, b: int): int { if a <= b then a else b }

  /** The elements of `s` that satisfy `p`, in the order of `s`. */
  function Filter<T(!new)>(s: seq<T>, p: T -> bool): (r: seq<T>)
    ensures |r| <= |s|
    ensures forall x :: x in r <==> x in s && p(x)
  {
    if s == [] then [] else (if p(s[0]) then [s[0]] else []) + Filter(s[1..], p)
  }

  /** Filtering keeps every occurrence of an element that satisfies the predicate and none of the others. */
  lemma {:induction false} FilterMultiset<T(!new)>(s: seq<T>, p: T -> bool)
    ensures forall x :: multiset(Filter(s, p))[x] == if p(x) then multiset(s)[x] else 0
  {
    if s != [] {
      FilterMultiset(s[1..], p);
      assert s == [s[0]] + s[1..];
    }
  }

  /** Filtering depends only on the values the predicate takes on the elements. */
  lemma {:induction false} FilterExt<T(!new)>(s: seq<T>, p: T -> bool, q: T -> bool)
    requires forall x :: x in s ==> p(x) == q(x)
    ensures Filter(s, p) == Filter(s, q)
  {
    if s != [] {
      FilterExt(s[1..], p, q);
    }
  }

  /** A predicate that holds on every element keeps the whole sequence. */
  lemma {:induction false} FilterKeepsAll<T(!new)>(s: seq<T>, p: T -> bool)
    requires forall x :: x in s ==> p(x)
    ensures Filter(s, p) == s
  {
    if s != [] {
      FilterKeepsAll(s[1..], p);
    }
  }

  /** A predicate that holds on no element keeps nothing. */
  lemma {:induction false} FilterKeepsNone<T(!new)>(s: seq<T>, p: T -> bool)
    requires forall x :: x in s ==> !p(x)
    ensures Filter(s, p) == []
  {
    if s != [] {
      FilterKeepsNone(s[1..], p);
    }
  }

  /** Filtering by a stronger predicate is filtering the weaker predicate's result again. */
  lemma {:induction false} FilterNarrows<T(!new)>(s: seq<T>, p: T -> bool, q: T -> bool)
    requires forall x :: x in s && q(x) ==> p(x)
    ensures Filter(s, q) == Filter(Filter(s, p), q)
  {
    if s != [] {
      var t := s[1..];
      FilterNarrows(t, p, q);
      if p(s[0]) {
        var ps := Filter(s, p);
        assert ps == [s[0]] + Filter(t, p);
        assert ps[0] == s[0] && ps[1..] == Filter(t, p);
        assert Filter(ps, q) == (if q(s[0]) then [s[0]] else []) + Filter(Filter(t, p), q);
      } else {
        assert !q(s[0]);
        assert Filter(s, p) == Filter(t, p);
      }
    }
  }

  /** The rows an SQL query with `OFFSET offset` and an optional `LIMIT limit` returns from `rows`. */
  function Slice<T>(rows: seq<T>, offset: nat, limit: Option<nat>): (r: seq<T>)
    ensures limit.Some? ==> |r| <= limit.value
    ensures offset >= |rows| ==> r == []
    ensures offset < |rows| ==>
      |r| == (if limit.Some? then Min(limit.value, |rows| - offset) else |rows| - offset)
    ensures forall i :: 0 <= i < |r| ==> offset + i < |rows| && r[i] == rows[offset + i]
  {
    if offset >= |rows| then []
    else if limit.None? then rows[offset..]
    else rows[offset..Min(|rows|, offset + limit.value)]
  }
}
