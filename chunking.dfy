/**
 * Cutting a sequence into consecutive slices of at most `b` elements, the way
 * `[files[i:i + b] for i in range(0, len(files), b)]` does it.
 */
module Chunking {
  import opened Seqs

  /** The number of slices of size `b` needed to hold `n` elements, ceil(n / b). */
  function CeilDiv(n: nat, b: nat): (c: nat)
    requires b > 0
    ensures c * b >= n
    ensures c == 0 || (c - 1) * b < n
  {
    var c := (n + b - 1) / b;
    assert c * b + (n + b - 1) % b == n + b - 1;
    assert (c - 1) * b == c * b - b;
    c
  }

  lemma {:induction false} MulMonotone(k: nat, c: nat, b: nat)
    requires k <= c
    ensures k * b <= c * b
  {
    if k < c {
      MulMonotone(k, c - 1, b);
      assert c * b == (c - 1) * b + b;
    }
  }

  /**
   * Python's `s[i:j]` for non-negative bounds: the elements from index `i`
   * up to, not including, index `j`, where `j` is clamped to the length and
   * the slice is empty when it would end before it starts.
   */
  function Slice<T>(s: seq<T>, i: nat, j: nat): (r: seq<T>)
    ensures i + |r| == Max(i, Min(j, |s|))
    ensures forall k :: 0 <= k < |r| ==> r[k] == s[i + k]
  {
    var lo, hi := Min(i, |s|), Min(j, |s|);
    if lo <= hi then s[lo..hi] else []
  }

  /** Python's `range(0, n, step)` for a positive step: every multiple of `step` below `n`, in increasing order. */
  function RangeFromZero(n: nat, step: nat): (r: seq<nat>)
    requires step > 0
    ensures forall k :: 0 <= k < |r| ==> r[k] == k * step && r[k] < n
    ensures |r| * step >= n
  {
    var c := CeilDiv(n, step);
    var r := seq(c, k => k * step);
    assert forall k :: 0 <= k < c ==> k * step <= (c - 1) * step by {
      forall k | 0 <= k < c { MulMonotone(k, c - 1, step); }
    }
    r
  }

  /** `[s[i:i + b] for i in range(0, len(s), b)]` */
  function Chunks<T>(s: seq<T>, b: nat): seq<seq<T>>
    requires b > 0
  {
    var starts := RangeFromZero(|s|, b);
    seq(|starts|, k requires 0 <= k < |starts| => Slice(s, starts[k], starts[k] + b))
  }

  /** Chunk `k` is the slice of `b` elements (fewer at the end) starting at `k * b`. */
  lemma ChunkAt<T>(s: seq<T>, b: nat, k: nat)
    requires b > 0 && k < |Chunks(s, b)|
    ensures k * b < |s|
    ensures Chunks(s, b)[k] == s[k * b..Min(k * b + b, |s|)]
  {
    var starts := RangeFromZero(|s|, b);
    assert starts[k] == k * b;
  }

  /**
   * There are ceil(|s| / b) chunks, each holding between 1 and `b`
   * elements, and all but the last hold exactly `b`.
   */
  lemma ChunkSizes<T>(s: seq<T>, b: nat)
    requires b > 0
    ensures |Chunks(s, b)| * b >= |s|
    ensures |Chunks(s, b)| == 0 || (|Chunks(s, b)| - 1) * b < |s|
    ensures |s| == 0 <==> |Chunks(s, b)| == 0
    ensures forall k :: 0 <= k < |Chunks(s, b)| ==> 0 < |Chunks(s, b)[k]| <= b
    ensures forall k :: 0 <= k < |Chunks(s, b)| - 1 ==> |Chunks(s, b)[k]| == b
  {
    var cs := Chunks(s, b);
    var n := |cs|;
    if n > 0 {
      ChunkAt(s, b, n - 1);
    }
    forall k | 0 <= k < n
      ensures 0 < |cs[k]| <= b
      ensures k < n - 1 ==> |cs[k]| == b
    {
      ChunkAt(s, b, k);
      if k < n - 1 {
        ChunkAt(s, b, k + 1);
        assert (k + 1) * b == k * b + b;
      }
    }
  }

  lemma MulSucc(k: nat, b: nat)
    requires k > 0
    ensures k * b == (k - 1) * b + b
  {
  }

  /** The first `k` chunks joined are the first `k * b` elements (or all of them). */
  lemma {:induction false} ConcatChunksPrefix<T>(s: seq<T>, b: nat, k: nat)
    requires b > 0 && k <= |Chunks(s, b)|
    ensures Concat(Chunks(s, b)[..k]) == s[..Min(k * b, |s|)]
  {
    var cs := Chunks(s, b);
    if k == 0 {
      assert cs[..0] == [];
    } else {
      var lo := (k - 1) * b;
      var hi := Min(k * b, |s|);
      assert lo < |s| && lo <= hi && cs[k - 1] == s[lo..hi] by {
        MulSucc(k, b);
        ChunkAt(s, b, k - 1);
      }
      assert Concat(cs[..k - 1]) == s[..lo] by {
        ConcatChunksPrefix(s, b, k - 1);
      }
      ConcatPrefixStep(cs, s, k, lo, hi);
    }
  }

  /** Extending a joined prefix of parts by the next part, when that part is the next slice. */
  lemma ConcatPrefixStep<T>(cs: seq<seq<T>>, s: seq<T>, k: nat, lo: nat, hi: nat)
    requires 0 < k <= |cs| && lo <= hi <= |s|
    requires Concat(cs[..k - 1]) == s[..lo] && cs[k - 1] == s[lo..hi]
    ensures Concat(cs[..k]) == s[..hi]
  {
    assert cs[..k][..k - 1] == cs[..k - 1];
    calc {
      Concat(cs[..k]);
      Concat(cs[..k - 1]) + cs[k - 1];
      s[..lo] + s[lo..hi];
      s[..hi];
    }
  }

  /** The chunk, counted from 0, that holds position `idx`: `idx // b`. */
  function ChunkIndex(idx: nat, b: nat): (c: nat)
    requires b > 0
    ensures c * b <= idx < c * b + b
  {
    idx / b
  }

  /** Position `idx` of the sequence lies in chunk `ChunkIndex(idx, b)`. */
  lemma ChunkHolding<T>(s: seq<T>, b: nat, idx: nat)
    requires b > 0 && idx < |s|
    ensures ChunkIndex(idx, b) < |Chunks(s, b)|
    ensures s[idx] in Chunks(s, b)[ChunkIndex(idx, b)]
  {
    var c := ChunkIndex(idx, b);
    var cs := Chunks(s, b);
    assert c < |cs| by {
      ChunkSizes(s, b);
      if |cs| <= c {
        MulMonotone(|cs|, c, b);
      }
    }
    ChunkAt(s, b, c);
    assert cs[c][idx - c * b] == s[idx];
  }

  /** Joining the chunks gives back the sequence: nothing lost, duplicated or reordered. */
  lemma ChunksConcat<T>(s: seq<T>, b: nat)
    requires b > 0
    ensures Concat(Chunks(s, b)) == s
  {
    var cs := Chunks(s, b);
    ChunkSizes(s, b);
    ConcatChunksPrefix(s, b, |cs|);
    assert cs[..|cs|] == cs;
  }

  /** Element `j` of chunk `k` is element `k * b + j` of the sequence. */
  lemma ChunkElement<T>(s: seq<T>, b: nat, k: nat, j: nat)
    requires b > 0 && k < |Chunks(s, b)| && j < |Chunks(s, b)[k]|
    ensures k * b + j < |s| && Chunks(s, b)[k][j] == s[k * b + j]
  {
    ChunkAt(s, b, k);
  }
}
