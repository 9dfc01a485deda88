/**
 * What the splitter does, stated as a value: the destination directories in
 * the order they are created, each with the files moved into it.
 */
module Batching {
  import opened Seqs
  import opened Naming
  import opened Chunking
  import opened Grouping

  /**
   * One destination: a directory named relative to the input directory
   * ("" is the input directory itself) and the files moved into it, in order.
   */
  datatype Batch = Batch(dir: string, files: seq<string>)

  /**
   * The destinations of one group: the prefix itself when the group fits in
   * one batch, otherwise `<prefix>_part1`, `<prefix>_part2`, ... holding the
   * consecutive chunks of the group. When the group does not fit and `b` is
   * not positive, `range(0, len(files), b)` yields nothing (for `b = 0` it
   * raises instead, which the splitter reports separately).
   */
  function GroupBatches(prefix: string, group: seq<string>, b: int): seq<Batch> {
    if |group| <= b then [Batch(prefix, group)]
    else if b <= 0 then []
    else
      var chunks := Chunks(group, b);
      seq(|chunks|, i requires 0 <= i < |chunks| => Batch(PartName(prefix, i + 1), chunks[i]))
  }

  /** The destinations of the groups keyed by `keys`, group after group. */
  function PlanFor(keys: seq<string>, files: seq<string>, b: int): seq<Batch> {
    if keys == [] then []
    else
      var k := keys[|keys| - 1];
      PlanFor(keys[..|keys| - 1], files, b) + GroupBatches(k, Members(files, k), b)
  }

  /** Every destination of a run over the listing `files`, in creation order. */
  function Plan(files: seq<string>, b: int): seq<Batch> {
    PlanFor(KeysOf(files), files, b)
  }

  /** The directory names of a plan: the returned `created_dirs`. */
  function Dirs(plan: seq<Batch>): (ds: seq<string>)
    ensures |ds| == |plan|
  {
    seq(|plan|, i requires 0 <= i < |plan| => plan[i].dir)
  }

  lemma DirsAppend(plan: seq<Batch>, more: seq<Batch>)
    ensures Dirs(plan + more) == Dirs(plan) + Dirs(more)
  {
  }

  lemma FilesOfAppend(plan: seq<Batch>, more: seq<Batch>)
    ensures FilesOf(plan + more) == FilesOf(plan) + FilesOf(more)
  {
  }

  function FilesOf(plan: seq<Batch>): (fs: seq<seq<string>>)
    ensures |fs| == |plan|
  {
    seq(|plan|, i requires 0 <= i < |plan| => plan[i].files)
  }

  /**
   * A non-empty group needs ceil(N / b) directories, each holding between 1
   * and `b` files, all but the last exactly `b`, and together holding the
   * group in order.
   */
  lemma GroupBatchesSizes(prefix: string, group: seq<string>, b: nat)
    requires b > 0 && |group| > 0
    ensures |GroupBatches(prefix, group, b)| == CeilDiv(|group|, b)
    ensures forall i :: 0 <= i < |GroupBatches(prefix, group, b)| ==> 0 < |GroupBatches(prefix, group, b)[i].files| <= b
    ensures forall i :: 0 <= i < |GroupBatches(prefix, group, b)| - 1 ==> |GroupBatches(prefix, group, b)[i].files| == b
    ensures Concat(FilesOf(GroupBatches(prefix, group, b))) == group
  {
    var bs := GroupBatches(prefix, group, b);
    if |group| <= b {
      var c := CeilDiv(|group|, b);
      if c >= 2 {
        MulMonotone(1, c - 1, b);
      }
      assert FilesOf(bs) == [group];
      assert Concat([group]) == Concat([]) + group;
    } else {
      ChunkSizes(group, b);
      ChunksConcat(group, b);
      assert FilesOf(bs) == Chunks(group, b);
    }
  }

  /**
   * Names of a group's directories: each is named after the group's prefix
   * (the prefix is what precedes its first `_`), it holds a `_` exactly when
   * the group was split, and no two coincide.
   */
  lemma GroupBatchesNames(prefix: string, group: seq<string>, b: nat)
    requires b > 0 && '_' !in prefix
    ensures forall i :: 0 <= i < |GroupBatches(prefix, group, b)| ==> Prefix(GroupBatches(prefix, group, b)[i].dir) == prefix
    ensures forall i :: 0 <= i < |GroupBatches(prefix, group, b)| ==> ('_' in GroupBatches(prefix, group, b)[i].dir <==> |group| > b)
    ensures NoDuplicates(Dirs(GroupBatches(prefix, group, b)))
  {
    var bs := GroupBatches(prefix, group, b);
    if |group| <= b {
      PrefixUnique(prefix, prefix);
    } else {
      var ds := Dirs(bs);
      assert forall i :: 0 <= i < |ds| ==> ds[i] == PartName(prefix, i + 1);
      PartNamesDistinct(prefix, ds);
      assert forall i :: 0 <= i < |bs| ==> bs[i].dir == ds[i];
    }
  }

  /** The names `<prefix>_part1`, `<prefix>_part2`, ... all have prefix `prefix`, all hold a `_`, and are pairwise distinct. */
  lemma PartNamesDistinct(prefix: string, ds: seq<string>)
    requires '_' !in prefix
    requires forall i :: 0 <= i < |ds| ==> ds[i] == PartName(prefix, i + 1)
    ensures forall i :: 0 <= i < |ds| ==> Prefix(ds[i]) == prefix && '_' in ds[i]
    ensures NoDuplicates(ds)
  {
    forall i | 0 <= i < |ds| ensures Prefix(ds[i]) == prefix && '_' in ds[i] {
      PartNamePrefix(prefix, i + 1);
    }
    forall i, j | 0 <= i < j < |ds| ensures ds[i] != ds[j] {
      if ds[i] == ds[j] {
        PartNameInjective(prefix, i + 1, prefix, j + 1);
      }
    }
  }

  /** A group's destinations hold exactly the group, in order (an empty group yields one empty destination). */
  lemma GroupBatchesFiles(prefix: string, group: seq<string>, b: nat)
    requires b > 0
    ensures Concat(FilesOf(GroupBatches(prefix, group, b))) == group
  {
    if |group| > 0 {
      GroupBatchesSizes(prefix, group, b);
    } else {
      var fs := FilesOf(GroupBatches(prefix, group, b));
      assert fs == [group];
      assert fs[..0] == [];
    }
  }

  /** The files of the plan, joined in order, are the groups joined in key order. */
  lemma {:induction false} PlanForFiles(keys: seq<string>, files: seq<string>, b: nat)
    requires b > 0
    ensures Concat(FilesOf(PlanFor(keys, files, b))) == Concat(GroupsOf(keys, files))
  {
    if keys != [] {
      var n := |keys| - 1;
      var k := keys[n];
      var g := Members(files, k);
      var front, last := PlanFor(keys[..n], files, b), GroupBatches(k, g, b);
      assert PlanFor(keys, files, b) == front + last;
      var gs := GroupsOf(keys, files);
      assert gs[..n] == GroupsOf(keys[..n], files) && gs[n] == g;
      calc {
        Concat(FilesOf(front + last));
        { FilesOfAppend(front, last); }
        Concat(FilesOf(front) + FilesOf(last));
        { ConcatAppend(FilesOf(front), FilesOf(last)); }
        Concat(FilesOf(front)) + Concat(FilesOf(last));
        { PlanForFiles(keys[..n], files, b); GroupBatchesFiles(k, g, b); }
        Concat(gs[..n]) + g;
        Concat(gs);
      }
    }
  }

  /** Every destination of a keyed group is one of the plan's destinations. */
  lemma {:induction false} PlanForContainsGroup(keys: seq<string>, files: seq<string>, b: nat, k: string, i: nat)
    requires b > 0 && k in keys && i < |GroupBatches(k, Members(files, k), b)|
    ensures GroupBatches(k, Members(files, k), b)[i] in PlanFor(keys, files, b)
  {
    var n := |keys| - 1;
    var front, last := PlanFor(keys[..n], files, b), GroupBatches(keys[n], Members(files, keys[n]), b);
    assert PlanFor(keys, files, b) == front + last;
    if keys[n] == k {
      assert last[i] in front + last;
    } else {
      assert k in keys[..n];
      PlanForContainsGroup(keys[..n], files, b, k, i);
    }
  }

  /** Nothing is lost or duplicated: the files of all destinations together are a permutation of the listing. */
  lemma PlanPartition(files: seq<string>, b: nat)
    requires b > 0
    ensures multiset(Concat(FilesOf(Plan(files, b)))) == multiset(files)
  {
    PlanForFiles(KeysOf(files), files, b);
    GroupsPartition(files);
  }

  /** Every destination receives between 1 and `b` files. */
  lemma {:induction false} PlanForBatchSizes(keys: seq<string>, files: seq<string>, b: nat)
    requires b > 0
    requires forall k :: k in keys ==> |Members(files, k)| > 0
    ensures forall i :: 0 <= i < |PlanFor(keys, files, b)| ==> 0 < |PlanFor(keys, files, b)[i].files| <= b
  {
    if keys != [] {
      var n := |keys| - 1;
      var k := keys[n];
      PlanForBatchSizes(keys[..n], files, b);
      GroupBatchesSizes(k, Members(files, k), b);
    }
  }

  lemma PlanBatchSizes(files: seq<string>, b: nat)
    requires b > 0
    ensures forall i :: 0 <= i < |Plan(files, b)| ==> 0 < |Plan(files, b)[i].files| <= b
  {
    forall k | k in KeysOf(files) ensures |Members(files, k)| > 0 {
      GroupsNonEmpty(files, k);
    }
    PlanForBatchSizes(KeysOf(files), files, b);
  }

  /** The number of directories a run creates: the sum of ceil(N / b) over its groups. */
  function DirCount(keys: seq<string>, files: seq<string>, b: nat): nat
    requires b > 0
  {
    if keys == [] then 0
    else
      var k := keys[|keys| - 1];
      DirCount(keys[..|keys| - 1], files, b) + CeilDiv(|Members(files, k)|, b)
  }

  lemma {:induction false} PlanForCount(keys: seq<string>, files: seq<string>, b: nat)
    requires b > 0
    requires forall k :: k in keys ==> |Members(files, k)| > 0
    ensures |PlanFor(keys, files, b)| == DirCount(keys, files, b)
  {
    if keys != [] {
      var n := |keys| - 1;
      PlanForCount(keys[..n], files, b);
      GroupBatchesSizes(keys[n], Members(files, keys[n]), b);
    }
  }

  /** A run creates one directory per group that fits a batch and ceil(N / b) for a group of N > b files. */
  lemma PlanCount(files: seq<string>, b: nat)
    requires b > 0
    ensures |Plan(files, b)| == DirCount(KeysOf(files), files, b)
  {
    forall k | k in KeysOf(files) ensures |Members(files, k)| > 0 {
      GroupsNonEmpty(files, k);
    }
    PlanForCount(KeysOf(files), files, b);
  }

  lemma {:induction false} PlanForNonPositive(keys: seq<string>, files: seq<string>, b: int)
    requires b <= 0
    requires forall k :: k in keys ==> |Members(files, k)| > 0
    ensures PlanFor(keys, files, b) == []
  {
    if keys != [] {
      var n := |keys| - 1;
      PlanForNonPositive(keys[..n], files, b);
      assert |Members(files, keys[n])| > 0;
    }
  }

  /** With a batch size of 0 or less no group fits a batch and none is chunked: nothing is planned. */
  lemma PlanNonPositive(files: seq<string>, b: int)
    requires b <= 0
    ensures Plan(files, b) == []
  {
    forall k | k in KeysOf(files) ensures |Members(files, k)| > 0 {
      GroupsNonEmpty(files, k);
    }
    PlanForNonPositive(KeysOf(files), files, b);
  }

  /** Two lists of destinations whose names fall under disjoint prefixes join without a repeated name. */
  lemma DirsDistinctAppend(front: seq<Batch>, last: seq<Batch>, seen: seq<string>, k: string)
    requires NoDuplicates(Dirs(front)) && NoDuplicates(Dirs(last)) && k !in seen
    requires forall i :: 0 <= i < |front| ==> Prefix(front[i].dir) in seen
    requires forall i :: 0 <= i < |last| ==> Prefix(last[i].dir) == k
    ensures NoDuplicates(Dirs(front + last))
  {
    var plan := front + last;
    forall i, j | 0 <= i < j < |plan| ensures plan[i].dir != plan[j].dir {
      if j < |front| {
        assert Dirs(front)[i] != Dirs(front)[j];
      } else if i >= |front| {
        assert Dirs(last)[i - |front|] != Dirs(last)[j - |front|];
      } else {
        assert Prefix(plan[i].dir) in seen;
        assert Prefix(plan[j].dir) == k;
      }
    }
  }

  lemma {:induction false} PlanForDirsDistinct(keys: seq<string>, files: seq<string>, b: nat)
    requires b > 0 && NoDuplicates(keys)
    requires forall k :: k in keys ==> '_' !in k
    ensures forall i :: 0 <= i < |PlanFor(keys, files, b)| ==> Prefix(PlanFor(keys, files, b)[i].dir) in keys
    ensures NoDuplicates(Dirs(PlanFor(keys, files, b)))
  {
    if keys != [] {
      var n := |keys| - 1;
      var k, seen := keys[n], keys[..n];
      var front, last := PlanFor(seen, files, b), GroupBatches(k, Members(files, k), b);
      assert PlanFor(keys, files, b) == front + last;
      assert k !in seen;
      assert forall i :: 0 <= i < |front| ==> Prefix(front[i].dir) in seen by {
        PlanForDirsDistinct(seen, files, b);
      }
      assert NoDuplicates(Dirs(front)) by {
        PlanForDirsDistinct(seen, files, b);
      }
      assert NoDuplicates(Dirs(last)) && forall i :: 0 <= i < |last| ==> Prefix(last[i].dir) == k by {
        GroupBatchesNames(k, Members(files, k), b);
      }
      DirsDistinctAppend(front, last, seen, k);
      forall i | 0 <= i < |front| + |last| ensures Prefix((front + last)[i].dir) in keys {
        if i < |front| {
          assert Prefix(front[i].dir) in seen;
        }
      }
    }
  }

  /**
   * The created directory names are pairwise distinct: groups have distinct
   * prefixes, a directory's name starts with its group's prefix up to the
   * first `_`, and part numbers differ within a group.
   */
  lemma PlanDirsDistinct(files: seq<string>, b: nat)
    requires b > 0
    ensures NoDuplicates(Dirs(Plan(files, b)))
  {
    KeysOfSpec(files);
    forall k | k in KeysOf(files) ensures '_' !in k {
      var i :| 0 <= i < |files| && Prefix(files[i]) == k;
    }
    PlanForDirsDistinct(KeysOf(files), files, b);
  }

  /** The default of the `batch_size` parameter. */
  const DefaultBatchSize: nat := 7500

  /**
   * The worked example: a group of 20,000 files with batch size 7,500 goes
   * to three part directories holding 7,500, 7,500 and 5,000 files.
   */
  lemma ExampleOversizedGroup(group: seq<string>)
    requires |group| == 20000
    ensures Dirs(GroupBatches("PRELIMusc10", group, DefaultBatchSize))
      == ["PRELIMusc10_part1", "PRELIMusc10_part2", "PRELIMusc10_part3"]
    ensures |GroupBatches("PRELIMusc10", group, DefaultBatchSize)[0].files| == DefaultBatchSize
    ensures |GroupBatches("PRELIMusc10", group, DefaultBatchSize)[1].files| == DefaultBatchSize
    ensures |GroupBatches("PRELIMusc10", group, DefaultBatchSize)[2].files| == 5000
  {
    assert CeilDiv(20000, DefaultBatchSize) == 3;
    var bs := GroupBatches("PRELIMusc10", group, DefaultBatchSize);
    assert |bs| == 3;
    var ds := Dirs(bs);
    assert ds == [PartName("PRELIMusc10", 1), PartName("PRELIMusc10", 2), PartName("PRELIMusc10", 3)] by {
      assert ds[0] == PartName("PRELIMusc10", 1);
      assert ds[1] == PartName("PRELIMusc10", 2);
      assert ds[2] == PartName("PRELIMusc10", 3);
    }
    ExamplePartNames();
    ChunkAt(group, DefaultBatchSize, 0);
    ChunkAt(group, DefaultBatchSize, 1);
    ChunkAt(group, DefaultBatchSize, 2);
  }

  lemma ExamplePartNames()
    ensures PartName("PRELIMusc10", 1) == "PRELIMusc10_part1"
    ensures PartName("PRELIMusc10", 2) == "PRELIMusc10_part2"
    ensures PartName("PRELIMusc10", 3) == "PRELIMusc10_part3"
  {
    assert Decimal(1) == "1" && Decimal(2) == "2" && Decimal(3) == "3";
  }

  /** The other worked example: 3,000 files fit one batch of 7,500 and go to a directory named after the prefix. */
  lemma ExampleSmallGroup(group: seq<string>)
    requires |group| == 3000
    ensures GroupBatches("PRELIMusc06", group, DefaultBatchSize) == [Batch("PRELIMusc06", group)]
  {
  }
}
