/** Sequence helpers shared by the other modules. */
module Seqs {

  function Min(a: int, b: int): int { if a <= b then a else b }

  function Max(a: int, b: int): int { if a <= b then b else a }

  /** No element occurs twice. */
  ghost predicate NoDuplicates<T>(s: seq<T>) {
    forall i, j :: 0 <= i < j < |s| ==> s[i] != s[j]
  }

  /** Joins a sequence of sequences end to end. */
  function Concat<T>(ss: seq<seq<T>>): seq<T> {
    if ss == [] then [] else Concat(ss[..|ss| - 1]) + ss[|ss| - 1]
  }

  lemma {:induction false} ConcatAppend<T>(xs: seq<seq<T>>, ys: seq<seq<T>>)
    ensures Concat(xs + ys) == Concat(xs) + Concat(ys)
  {
    if ys != [] {
      assert (xs + ys)[..|xs + ys| - 1] == xs + ys[..|ys| - 1];
      ConcatAppend(xs, ys[..|ys| - 1]);
    } else {
      assert xs + ys == xs;
    }
  }

  /** An element of the joined sequence comes from one of the parts, and every part's elements are in it. */
  lemma {:induction false} InConcat<T>(ss: seq<seq<T>>, x: T)
    ensures x in Concat(ss) <==> exists k :: 0 <= k < |ss| && x in ss[k]
  {
    if ss != [] {
      var n := |ss| - 1;
      InConcat(ss[..n], x);
      if x in Concat(ss[..n]) {
        var k :| 0 <= k < n && x in ss[..n][k];
        assert x in ss[k];
      }
      if exists k :: 0 <= k < |ss| && x in ss[k] {
        var k :| 0 <= k < |ss| && x in ss[k];
        if k < n {
          assert x in ss[..n][k];
        }
      }
    }
  }

  /** The joined sequence holds each part's occurrences of `x`; two parts holding `x` put it there twice. */
  lemma {:induction false} MultisetConcatTwice<T>(ss: seq<seq<T>>, j: nat, k: nat, x: T)
    requires j < k < |ss| && x in ss[j] && x in ss[k]
    ensures multiset(Concat(ss))[x] >= 2
  {
    var n := |ss| - 1;
    if k < n {
      MultisetConcatTwice(ss[..n], j, k, x);
    } else {
      InConcat(ss[..n], x);
      assert x in ss[..n][j];
      assert x in Concat(ss[..n]);
    }
  }

  /** In a sequence without duplicates every element occurs at most once. */
  lemma {:induction false} NoDuplicatesCount<T>(s: seq<T>, x: T)
    requires NoDuplicates(s)
    ensures multiset(s)[x] <= 1
  {
    if s != [] {
      var n := |s| - 1;
      NoDuplicatesCount(s[..n], x);
      assert s == s[..n] + [s[n]];
      if x == s[n] {
        assert x !in s[..n];
      }
    }
  }
}
