/** Sequence operations the screens are built from: the order-preserving
    `Array.prototype.filter`, the first-seen de-duplication done by spreading
    a `Set`, and the facts that characterise them. */
module Sequences {

  /** `a` can be obtained from `b` by deleting elements, keeping the order of
      the rest: either the heads match and the tails are related, or the
      head of `b` is skipped. */
  predicate IsSubseq<T(==)>(a: seq<T>, b: seq<T>)
    decreases |b|
  {
    || |a| == 0
    || (&& |b| > 0
        && ((a[0] == b[0] && IsSubseq(a[1..], b[1..])) || IsSubseq(a, b[1..])))
  }

  /** No element occurs twice. */
  predicate NoDuplicates<T(==)>(s: seq<T>)
  {
    forall i, j :: 0 <= i < j < |s| ==> s[i] != s[j]
  }

  /** Left-to-right filter, as `Array.prototype.filter` does it. */
  function Filter<T(!new)>(p: T -> bool, s: seq<T>): (r: seq<T>)
    ensures |r| <= |s|
    ensures forall x :: multiset(r)[x] == if p(x) then multiset(s)[x] else 0
    ensures forall x :: x in r <==> x in s && p(x)
    ensures IsSubseq(r, s)
  {
    if |s| == 0 then []
    else
      assert s == [s[0]] + s[1..];
      var rest := Filter(p, s[1..]);
      if p(s[0]) then
        var r := [s[0]] + rest;
        assert r[0] == s[0] && r[1..] == rest;
        r
      else rest
  }

  /** Deleting elements can only lower multiplicities. */
  lemma {:induction false} SubseqMultiset<T>(a: seq<T>, b: seq<T>)
    requires IsSubseq(a, b)
    ensures multiset(a) <= multiset(b)
    decreases |b|
  {
    if |a| == 0 {
    } else {
      assert b == [b[0]] + b[1..];
      if a[0] == b[0] && IsSubseq(a[1..], b[1..]) {
        SubseqMultiset(a[1..], b[1..]);
        assert a == [a[0]] + a[1..];
      } else {
        SubseqMultiset(a, b[1..]);
      }
    }
  }

  /** `Filter` is the only order-preserving subsequence of `s` that keeps every
      occurrence of the elements satisfying `p` and nothing else. */
  lemma {:induction false} FilterUnique<T(!new)>(p: T -> bool, s: seq<T>, r: seq<T>)
    requires IsSubseq(r, s)
    requires forall x :: multiset(r)[x] == if p(x) then multiset(s)[x] else 0
    ensures r == Filter(p, s)
    decreases |s|
  {
    if |s| == 0 {
      assert |r| == 0;
    } else {
      var h, t := s[0], s[1..];
      assert s == [h] + t;
      if p(h) {
        assert multiset(r)[h] == multiset(t)[h] + 1;
        if r[0] == h && IsSubseq(r[1..], t) {
          assert r == [h] + r[1..];
          forall x
            ensures multiset(r[1..])[x] == if p(x) then multiset(t)[x] else 0
          {
            assert multiset(r)[x] == multiset(r[1..])[x] + (if x == h then 1 else 0);
          }
          FilterUnique(p, t, r[1..]);
        } else {
          SubseqMultiset(r, t);
          assert false;
        }
      } else {
        assert multiset(r)[h] == 0;
        assert IsSubseq(r, t) by {
          if |r| > 0 {
            assert r[0] in multiset(r);
          }
        }
        FilterUnique(p, t, r);
      }
    }
  }

  /** Position of the first occurrence of `x`. */
  function FirstIndex<T(==)>(s: seq<T>, x: T): (i: nat)
    requires x in s
    ensures i < |s| && s[i] == x && x !in s[..i]
  {
    if s[0] == x then 0
    else
      assert s == [s[0]] + s[1..];
      var k := FirstIndex(s[1..], x);
      assert s[..k + 1] == [s[0]] + s[1..][..k];
      k + 1
  }

  /** A position holding `x` with no earlier `x` is the first index. */
  lemma FirstIndexUnique<T>(s: seq<T>, x: T, i: nat)
    requires i < |s| && s[i] == x && x !in s[..i]
    ensures FirstIndex(s, x) == i
  {
    var k := FirstIndex(s, x);
  }

  /** Appending an element does not move the first occurrence of an element
      already present. */
  lemma FirstIndexAppend<T>(p: seq<T>, x: T, y: T)
    requires y in p
    ensures FirstIndex(p + [x], y) == FirstIndex(p, y)
  {
    var k := FirstIndex(p, y);
    assert (p + [x])[..k] == p[..k];
    FirstIndexUnique(p + [x], y, k);
  }

  /** The distinct elements of `s` in first-seen order: `[...new Set(s)]`.
      It inserts the elements one by one from the left, as a `Set` does. */
  function Distinct<T(==,!new)>(s: seq<T>): (r: seq<T>)
    ensures NoDuplicates(r)
    ensures forall x :: x in r <==> x in s
    ensures forall i, j :: 0 <= i < j < |r| ==> FirstIndex(s, r[i]) < FirstIndex(s, r[j])
    decreases |s|
  {
    if |s| == 0 then []
    else
      var p, x := s[..|s| - 1], s[|s| - 1];
      assert s == p + [x];
      var d := Distinct(p);
      if x in d then
        forall y | y in d ensures FirstIndex(s, y) == FirstIndex(p, y) {
          FirstIndexAppend(p, x, y);
        }
        d
      else
        var r := d + [x];
        forall y | y in d ensures FirstIndex(s, y) == FirstIndex(p, y) {
          FirstIndexAppend(p, x, y);
        }
        assert x !in s[..|p|];
        FirstIndexUnique(s, x, |p|);
        assert forall i :: 0 <= i < |d| ==> r[i] == d[i];
        r
  }
}
