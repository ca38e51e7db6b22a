/**
 * `Array.prototype.filter` and the facts about it that the timeline needs:
 * what it keeps, how many copies of each element survive, and that it keeps
 * the relative order of what it keeps.
 */
module Seqs {

  /** The elements of `xs` for which `keep` holds, in their original order. */
  function Filter<T>(xs: seq<T>, keep: T -> bool): (r: seq<T>)
    ensures |r| <= |xs|
    ensures forall i :: 0 <= i < |r| ==> keep(r[i])
    ensures forall x :: x in r ==> x in xs
    decreases |xs|
  {
    if xs == [] then []
    else if keep(xs[0]) then [xs[0]] + Filter(xs[1..], keep)
    else Filter(xs[1..], keep)
  }

  /** Every element `keep` accepts survives the filter. */
  lemma {:induction false} FilterKeeps<T>(xs: seq<T>, keep: T -> bool, x: T)
    requires x in xs && keep(x)
    ensures x in Filter(xs, keep)
    decreases |xs|
  {
    if xs[0] != x {
      FilterKeeps(xs[1..], keep, x);
    }
  }

  /** The filter keeps every copy of an accepted element and no copy of a rejected one. */
  lemma {:induction false} FilterCount<T>(xs: seq<T>, keep: T -> bool, x: T)
    ensures multiset(Filter(xs, keep))[x] == if keep(x) then multiset(xs)[x] else 0
    decreases |xs|
  {
    if xs != [] {
      FilterCount(xs[1..], keep, x);
      assert xs == [xs[0]] + xs[1..];
    }
  }

  /** Filtering a permutation gives a permutation of the filtered list. */
  lemma FilterPermutation<T(!new)>(xs: seq<T>, ys: seq<T>, keep: T -> bool)
    requires multiset(xs) == multiset(ys)
    ensures multiset(Filter(xs, keep)) == multiset(Filter(ys, keep))
  {
    var a, b := multiset(Filter(xs, keep)), multiset(Filter(ys, keep));
    forall x
      ensures a[x] == b[x]
    {
      FilterCount(xs, keep, x);
      FilterCount(ys, keep, x);
    }
    assert a == b;
  }

  /** A relation that holds between every earlier and later element still holds after filtering. */
  lemma {:induction false} FilterPairwise<T>(xs: seq<T>, keep: T -> bool, before: (T, T) -> bool)
    requires forall i, j :: 0 <= i < j < |xs| ==> before(xs[i], xs[j])
    ensures forall i, j :: 0 <= i < j < |Filter(xs, keep)| ==> before(Filter(xs, keep)[i], Filter(xs, keep)[j])
    decreases |xs|
  {
    if xs != [] {
      var tail := xs[1..];
      assert forall i, j :: 0 <= i < j < |tail| ==> tail[i] == xs[i + 1] && tail[j] == xs[j + 1];
      FilterPairwise(tail, keep, before);
      if keep(xs[0]) {
        var r := Filter(xs, keep);
        var rt := Filter(tail, keep);
        assert r == [xs[0]] + rt;
        forall j | 0 < j < |r|
          ensures before(r[0], r[j])
        {
          assert r[j] == rt[j - 1];
          assert rt[j - 1] in tail;
          var k :| 0 <= k < |tail| && tail[k] == rt[j - 1];
          assert tail[k] == xs[k + 1];
        }
      }
    }
  }

  /**
   * The order of a comparator that puts every element satisfying `first`
   * before every other one and orders the others by ascending `key`: `a`
   * may stand before `b`.
   */
  predicate InOrderBy<T>(a: T, b: T, first: T -> bool, key: T -> int)
  {
    (first(b) ==> first(a)) && (!first(a) && !first(b) ==> key(a) <= key(b))
  }

  predicate FirstThenAscending<T>(s: seq<T>, first: T -> bool, key: T -> int)
  {
    forall i, j :: 0 <= i < j < |s| ==> InOrderBy(s[i], s[j], first, key)
  }

  predicate SortedByKey<T>(s: seq<T>, key: T -> int)
  {
    forall i, j :: 0 <= i < j < |s| ==> key(s[i]) <= key(s[j])
  }

  /** Inserts `x` after every element whose key is no greater than its own. */
  method InsertByKey<T>(s: seq<T>, x: T, key: T -> int) returns (r: seq<T>)
    requires SortedByKey(s, key)
    ensures SortedByKey(r, key)
    ensures multiset(r) == multiset(s) + multiset{x}
  {
    var j := 0;
    while j < |s| && key(s[j]) <= key(x)
      invariant 0 <= j <= |s|
      invariant forall k :: 0 <= k < j ==> key(s[k]) <= key(x)
    {
      j := j + 1;
    }
    r := s[..j] + [x] + s[j..];
    assert s == s[..j] + s[j..];
    InsertedSorted(s, j, x, key);
  }

  lemma InsertedSorted<T>(s: seq<T>, j: int, x: T, key: T -> int)
    requires 0 <= j <= |s| && SortedByKey(s, key)
    requires forall k :: 0 <= k < j ==> key(s[k]) <= key(x)
    requires j < |s| ==> key(x) < key(s[j])
    ensures SortedByKey(s[..j] + [x] + s[j..], key)
  {
    var r := s[..j] + [x] + s[j..];
    assert forall k :: 0 <= k < j ==> r[k] == s[k];
    assert r[j] == x;
    assert forall k :: j < k < |r| ==> r[k] == s[k - 1];
  }

  /**
   * A sort for that comparator: the elements satisfying `first` in their
   * input order, then the others by insertion on `key`.
   */
  method SortFirstThenAscending<T>(xs: seq<T>, first: T -> bool, key: T -> int) returns (ys: seq<T>)
    ensures multiset(ys) == multiset(xs)
    ensures FirstThenAscending(ys, first, key)
  {
    var firsts: seq<T> := [];
    var rest: seq<T> := [];
    var i := 0;
    while i < |xs|
      invariant 0 <= i <= |xs|
      invariant forall k :: 0 <= k < |firsts| ==> first(firsts[k])
      invariant forall k :: 0 <= k < |rest| ==> !first(rest[k])
      invariant SortedByKey(rest, key)
      invariant multiset(firsts) + multiset(rest) == multiset(xs[..i])
    {
      assert xs[..i + 1] == xs[..i] + [xs[i]];
      assert multiset(xs[..i + 1]) == multiset(xs[..i]) + multiset{xs[i]};
      if first(xs[i]) {
        firsts := firsts + [xs[i]];
      } else {
        var before := rest;
        rest := InsertByKey(rest, xs[i], key);
        NoneFirstAfterInsert(before, xs[i], rest, first);
      }
      i := i + 1;
    }
    assert xs[..|xs|] == xs;
    ys := firsts + rest;
    ConcatFirstThenAscending(firsts, rest, first, key);
  }

  /** An insertion of a non-first element into non-first elements adds no first one. */
  lemma NoneFirstAfterInsert<T>(before: seq<T>, x: T, r: seq<T>, first: T -> bool)
    requires forall k :: 0 <= k < |before| ==> !first(before[k])
    requires !first(x) && multiset(r) == multiset(before) + multiset{x}
    ensures forall k :: 0 <= k < |r| ==> !first(r[k])
  {
    forall k | 0 <= k < |r|
      ensures !first(r[k])
    {
      assert r[k] in multiset(r);
      assert r[k] in multiset(before) || r[k] == x;
    }
  }

  lemma ConcatFirstThenAscending<T>(firsts: seq<T>, rest: seq<T>, first: T -> bool, key: T -> int)
    requires forall k :: 0 <= k < |firsts| ==> first(firsts[k])
    requires forall k :: 0 <= k < |rest| ==> !first(rest[k])
    requires SortedByKey(rest, key)
    ensures FirstThenAscending(firsts + rest, first, key)
  {
    var ys := firsts + rest;
    forall a, b | 0 <= a < b < |ys|
      ensures InOrderBy(ys[a], ys[b], first, key)
    {
      if b < |firsts| {
        assert ys[a] == firsts[a] && ys[b] == firsts[b];
      } else if a < |firsts| {
        assert ys[a] == firsts[a] && ys[b] == rest[b - |firsts|];
      } else {
        assert ys[a] == rest[a - |firsts|] && ys[b] == rest[b - |firsts|];
      }
    }
  }
}
