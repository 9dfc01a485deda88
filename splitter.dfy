/**
 * `split_input_by_source`: the input directory's files are grouped by prefix
 * and moved, group after group and chunk after chunk, into subdirectories of
 * the input directory; the names of the subdirectories are returned in
 * creation order.
 */
module Splitter {
  import opened Seqs
  import opened Naming
  import opened Chunking
  import opened Grouping
  import opened Batching

  /** Where the files sit: file name to directory, relative to the input directory ("" is the input directory). */
  type Locations = map<string, string>

  /** `shutil.move` of each file in turn into `dir`. */
  function MoveAll(loc: Locations, files: seq<string>, dir: string): Locations {
    if files == [] then loc
    else MoveAll(loc, files[..|files| - 1], dir)[files[|files| - 1] := dir]
  }

  /** Carrying out the destinations of a plan one after the other. */
  function ApplyPlan(loc: Locations, plan: seq<Batch>): Locations {
    if plan == [] then loc
    else
      var last := plan[|plan| - 1];
      MoveAll(ApplyPlan(loc, plan[..|plan| - 1]), last.files, last.dir)
  }

  /** Moving files into `dir` puts each of them there, leaves every other file where it was and loses none. */
  lemma {:induction false} MoveAllSpec(loc: Locations, files: seq<string>, dir: string)
    ensures forall f :: f in MoveAll(loc, files, dir) <==> f in loc || f in files
    ensures forall f :: f in files ==> MoveAll(loc, files, dir)[f] == dir
    ensures forall f :: f in loc && f !in files ==> MoveAll(loc, files, dir)[f] == loc[f]
  {
    if files != [] {
      var n := |files| - 1;
      MoveAllSpec(loc, files[..n], dir);
      assert files == files[..n] + [files[n]];
    }
  }

  lemma {:induction false} ApplyPlanAppend(loc: Locations, plan: seq<Batch>, more: seq<Batch>)
    ensures ApplyPlan(loc, plan + more) == ApplyPlan(ApplyPlan(loc, plan), more)
  {
    if more == [] {
      assert plan + more == plan;
    } else {
      var n := |more| - 1;
      assert (plan + more)[..|plan + more| - 1] == plan + more[..n];
      ApplyPlanAppend(loc, plan, more[..n]);
    }
  }

  /** Applying a plan keeps every file that was there, adds the plan's files, and leaves the files outside the plan untouched. */
  lemma {:induction false} ApplyPlanUntouched(loc: Locations, plan: seq<Batch>)
    ensures forall f :: f in ApplyPlan(loc, plan) <==> f in loc || f in Concat(FilesOf(plan))
    ensures forall f :: f in loc && f !in Concat(FilesOf(plan)) ==> ApplyPlan(loc, plan)[f] == loc[f]
  {
    if plan != [] {
      var n := |plan| - 1;
      ApplyPlanUntouched(loc, plan[..n]);
      MoveAllSpec(ApplyPlan(loc, plan[..n]), plan[n].files, plan[n].dir);
      assert FilesOf(plan) == FilesOf(plan[..n]) + [plan[n].files];
    }
  }

  /** A file that only one destination of the plan holds ends up in that destination's directory. */
  lemma {:induction false} ApplyPlanPlaces(loc: Locations, plan: seq<Batch>, k: nat, f: string)
    requires k < |plan| && f in plan[k].files
    requires forall j :: 0 <= j < |plan| && j != k ==> f !in plan[j].files
    ensures f in ApplyPlan(loc, plan) && ApplyPlan(loc, plan)[f] == plan[k].dir
  {
    var n := |plan| - 1;
    MoveAllSpec(ApplyPlan(loc, plan[..n]), plan[n].files, plan[n].dir);
    if k < n {
      ApplyPlanPlaces(loc, plan[..n], k, f);
    }
  }

  /** The `*.txt` names, the files `Path.glob("*.txt")` yields. */
  predicate IsTxt(name: string) {
    |name| >= 4 && name[|name| - 4..] == ".txt"
  }

  /** `listing` is one enumeration order of the `*.txt` files directly in the input directory. */
  ghost predicate IsTxtListing(loc: Locations, listing: seq<string>) {
    && NoDuplicates(listing)
    && forall f :: f in listing <==> f in loc && loc[f] == "" && IsTxt(f)
  }

  /**
   * The effect of a whole run: the listed files are moved and keep their
   * names, every other file stays, each listed file lands in exactly one
   * created directory, and the files that land in created directory `k` are
   * exactly the ones planned for it, at most `b` of them.
   */
  lemma SplitPlacesEveryFileOnce(loc: Locations, files: seq<string>, b: nat)
    requires b > 0 && NoDuplicates(files)
    requires forall f :: f in files ==> f in loc
    ensures ApplyPlan(loc, Plan(files, b)).Keys == loc.Keys
    ensures forall f :: f in loc && f !in files ==> ApplyPlan(loc, Plan(files, b))[f] == loc[f]
    ensures forall f :: f in files ==> ApplyPlan(loc, Plan(files, b))[f] in Dirs(Plan(files, b))
    ensures forall f, k :: f in files && 0 <= k < |Plan(files, b)| ==>
      (ApplyPlan(loc, Plan(files, b))[f] == Plan(files, b)[k].dir <==> f in Plan(files, b)[k].files)
    ensures forall k :: 0 <= k < |Plan(files, b)| ==> 0 < |Plan(files, b)[k].files| <= b
  {
    var plan := Plan(files, b);
    var after := ApplyPlan(loc, plan);
    PlanBatchSizes(files, b);
    assert after.Keys == loc.Keys && forall f :: f in loc && f !in files ==> after[f] == loc[f] by {
      ApplyPlanUntouched(loc, plan);
      PlanFilesAreListed(files, b);
    }
    assert NoDuplicates(Dirs(plan)) by {
      PlanDirsDistinct(files, b);
    }
    forall f | f in files
      ensures after[f] in Dirs(plan)
      ensures forall k :: 0 <= k < |plan| ==> (after[f] == plan[k].dir <==> f in plan[k].files)
    {
      var k := OnlyDestination(files, b, f);
      ApplyPlanPlaces(loc, plan, k, f);
      assert Dirs(plan)[k] == after[f];
      forall j | 0 <= j < |plan| ensures after[f] == plan[j].dir <==> f in plan[j].files {
        if j != k {
          assert Dirs(plan)[j] != Dirs(plan)[k];
        }
      }
    }
  }

  /** The files of the plan are exactly the listed files. */
  lemma PlanFilesAreListed(files: seq<string>, b: nat)
    requires b > 0
    ensures forall f :: f in Concat(FilesOf(Plan(files, b))) <==> f in files
  {
    var all := Concat(FilesOf(Plan(files, b)));
    PlanPartition(files, b);
    forall f ensures f in all <==> f in files {
      assert f in all <==> f in multiset(all);
    }
  }

  /** A listed file belongs to exactly one destination of the plan. */
  lemma OnlyDestination(files: seq<string>, b: nat, f: string) returns (k: nat)
    requires b > 0 && NoDuplicates(files) && f in files
    ensures k < |Plan(files, b)| && f in Plan(files, b)[k].files
    ensures forall j :: 0 <= j < |Plan(files, b)| && j != k ==> f !in Plan(files, b)[j].files
  {
    var plan := Plan(files, b);
    var fs := FilesOf(plan);
    assert f in Concat(fs) by {
      PlanFilesAreListed(files, b);
    }
    InConcat(fs, f);
    k :| 0 <= k < |plan| && f in fs[k];
    assert multiset(Concat(fs))[f] <= 1 by {
      PlanPartition(files, b);
      NoDuplicatesCount(files, f);
    }
    forall j | 0 <= j < |plan| && j != k ensures f !in plan[j].files {
      if f in plan[j].files {
        assert f in fs[j];
        if j < k {
          MultisetConcatTwice(fs, j, k, f);
        } else {
          MultisetConcatTwice(fs, k, j, f);
        }
      }
    }
  }

  /** A listed file is moved to the directory of the destination planned for it. */
  lemma PlacedByPlan(loc: Locations, files: seq<string>, b: nat, f: string, k: nat)
    requires b > 0 && NoDuplicates(files)
    requires forall f :: f in files ==> f in loc
    requires f in files && k < |Plan(files, b)| && f in Plan(files, b)[k].files
    ensures f in ApplyPlan(loc, Plan(files, b)) && ApplyPlan(loc, Plan(files, b))[f] == Plan(files, b)[k].dir
  {
    SplitPlacesEveryFileOnce(loc, files, b);
  }

  /** Which of its group's destinations position `idx` of a group of `groupSize` files goes to. */
  function PartOf(groupSize: nat, b: nat, idx: nat): nat
    requires b > 0
  {
    if groupSize <= b then 0 else ChunkIndex(idx, b)
  }

  /** Position `idx` of a group lies in destination `PartOf(..)` of that group. */
  lemma InGroupBatch(prefix: string, g: seq<string>, b: nat, idx: nat)
    requires b > 0 && idx < |g|
    ensures PartOf(|g|, b, idx) < |GroupBatches(prefix, g, b)|
    ensures g[idx] in GroupBatches(prefix, g, b)[PartOf(|g|, b, idx)].files
    ensures GroupBatches(prefix, g, b)[PartOf(|g|, b, idx)].dir
      == if |g| <= b then prefix else PartName(prefix, ChunkIndex(idx, b) + 1)
  {
    if |g| > b {
      ChunkHolding(g, b, idx);
    }
  }

  /**
   * Where each file goes, computed from the file alone: with `idx` its
   * position in its group, a group of at most `b` files goes to the
   * directory named after the prefix, otherwise the file goes to
   * `<prefix>_part<idx / b + 1>` (`ChunkIndex(idx, b)` is `idx / b`).
   */
  lemma FileDestination(loc: Locations, files: seq<string>, b: nat, f: string, idx: nat)
    requires b > 0 && NoDuplicates(files)
    requires forall f :: f in files ==> f in loc
    requires f in files
    requires idx < |Members(files, Prefix(f))| && Members(files, Prefix(f))[idx] == f
    ensures f in ApplyPlan(loc, Plan(files, b))
    ensures ApplyPlan(loc, Plan(files, b))[f]
      == if |Members(files, Prefix(f))| <= b then Prefix(f) else PartName(Prefix(f), ChunkIndex(idx, b) + 1)
  {
    var p := Prefix(f);
    var g := Members(files, p);
    var bs := GroupBatches(p, g, b);
    var plan := Plan(files, b);
    var c := PartOf(|g|, b, idx);
    InGroupBatch(p, g, b, idx);
    PrefixIsKey(files, f);
    PlanForContainsGroup(KeysOf(files), files, b, p, c);
    var k :| 0 <= k < |plan| && plan[k] == bs[c];
    PlacedByPlan(loc, files, b, f, k);
  }

  /**
   * A listed name without `_` is its own prefix, so when its group fits a
   * batch the directory to be created has the very name of that file.
   */
  lemma UnderscoreFreeNameIsItsOwnDir(files: seq<string>, b: nat, f: string)
    requires b > 0 && f in files && '_' !in f
    requires |Members(files, f)| <= b
    ensures f in Dirs(Plan(files, b))
  {
    PrefixUnique(f, f);
    KeysOfSpec(files);
    var m :| 0 <= m < |files| && files[m] == f;
    assert Prefix(files[m]) == f;
    PlanForContainsGroup(KeysOf(files), files, b, f, 0);
    var plan := Plan(files, b);
    var k :| 0 <= k < |plan| && plan[k] == Batch(f, Members(files, f));
    assert Dirs(plan)[k] == f;
  }

  /** The part of the file system the splitter touches: the input directory. */
  class FileSystem {
    /** The directory each file of the input directory is in. */
    var loc: Locations
    /** The directories that exist, relative to the input directory. */
    var dirs: set<string>

    /** The input directory exists and every file is in an existing directory. */
    ghost predicate Valid()
      reads this
    {
      "" in dirs && forall f :: f in loc ==> loc[f] in dirs
    }

    /** An input directory holding the files `names` and no subdirectory. */
    constructor (names: set<string>)
      ensures Valid()
      ensures loc == map f | f in names :: ""
      ensures dirs == {""}
    {
      loc := map f | f in names :: "";
      dirs := {""};
    }

    /** `Path.mkdir(exist_ok=True)` on a subdirectory of the input directory. */
    method MakeDir(d: string)
      requires Valid()
      modifies this
      ensures Valid()
      ensures dirs == old(dirs) + {d} && loc == old(loc)
    {
      dirs := dirs + {d};
    }

    /** `shutil.move(file, subdir / file.name)`: the file keeps its name and changes directory. */
    method Move(f: string, d: string)
      requires Valid() && f in loc && d in dirs
      modifies this
      ensures Valid()
      ensures loc == old(loc)[f := d] && dirs == old(dirs)
    {
      loc := loc[f := d];
    }
  }

  /** `for file in files: shutil.move(str(file), str(subdir / file.name))` */
  method MoveInto(fs: FileSystem, files: seq<string>, subdir: string)
    requires fs.Valid() && subdir in fs.dirs
    requires forall f :: f in files ==> f in fs.loc
    modifies fs
    ensures fs.Valid() && fs.loc.Keys == old(fs.loc).Keys
    ensures fs.loc == MoveAll(old(fs.loc), files, subdir) && fs.dirs == old(fs.dirs)
  {
    for j := 0 to |files|
      invariant fs.Valid() && fs.dirs == old(fs.dirs)
      invariant fs.loc.Keys == old(fs.loc).Keys
      invariant fs.loc == MoveAll(old(fs.loc), files[..j], subdir)
    {
      assert files[..j + 1][..j] == files[..j];
      fs.Move(files[j], subdir);
    }
    assert files[..|files|] == files;
  }

  /**
   * The body of the loop over `files_by_prefix`: one group goes to the
   * directory named after its prefix when it fits a batch, otherwise chunk
   * `c` (counted from 1) goes to `<prefix>_part<c>`. Returns the directories
   * it created, in order. A group that does not fit a batch of size 0 makes
   * `range` raise `ValueError` (`failed`) before anything is created.
   */
  method MoveGroup(fs: FileSystem, prefix: string, files: seq<string>, batchSize: int)
    returns (created: seq<string>, failed: bool)
    requires fs.Valid()
    requires forall f :: f in files ==> f in fs.loc
    modifies fs
    ensures fs.Valid()
    ensures failed <==> |files| > batchSize == 0
    ensures created == Dirs(GroupBatches(prefix, files, batchSize))
    ensures fs.loc == ApplyPlan(old(fs.loc), GroupBatches(prefix, files, batchSize))
    ensures fs.dirs == old(fs.dirs) + set d | d in created
  {
    ghost var batches := GroupBatches(prefix, files, batchSize);
    failed := false;
    if |files| <= batchSize {
      var subdir := prefix;
      fs.MakeDir(subdir);
      created := [subdir];
      MoveInto(fs, files, subdir);
      assert batches[..0] == [];
    } else if batchSize <= 0 {
      // range(0, len(files), batch_size): a zero step raises, a negative one is empty
      created := [];
      failed := batchSize == 0;
    } else {
      created := [];
      var chunks := Chunks(files, batchSize);
      for c := 0 to |chunks|
        invariant fs.Valid()
        invariant created == Dirs(batches[..c])
        invariant fs.loc == ApplyPlan(old(fs.loc), batches[..c])
        invariant fs.dirs == old(fs.dirs) + set d | d in created
      {
        var subdir := PartName(prefix, c + 1);
        fs.MakeDir(subdir);
        SetOfAppend(created, [subdir]);
        created := created + [subdir];
        assert forall f :: f in chunks[c] ==> f in fs.loc by {
          forall j | 0 <= j < |chunks[c]| ensures chunks[c][j] in files {
            ChunkElement(files, batchSize, c, j);
          }
          ApplyPlanUntouched(old(fs.loc), batches[..c]);
        }
        MoveInto(fs, chunks[c], subdir);
        assert batches[c] == Batch(subdir, chunks[c]);
        PlanPrefixStep(old(fs.loc), batches, c);
      }
      assert batches[..|chunks|] == batches;
    }
  }

  /**
   * `split_input_by_source(input_dir, batch_size)`, where `listing` is the
   * order in which `glob("*.txt")` yields the files. Directories are created
   * and files moved as the plan says, in the plan's order, and the plan's
   * directory names are returned. With a batch size of 0 and at least one
   * file, the first group raises `ValueError` (`failed`) before anything is
   * created or moved.
   */
  method SplitInputBySource(fs: FileSystem, listing: seq<string>, batchSize: int := DefaultBatchSize) returns (created: seq<string>, failed: bool)
    requires fs.Valid() && IsTxtListing(fs.loc, listing)
    modifies fs
    ensures fs.Valid()
    ensures failed <==> batchSize == 0 && listing != []
    ensures created == Dirs(Plan(listing, batchSize))
    ensures fs.loc == ApplyPlan(old(fs.loc), Plan(listing, batchSize))
    ensures fs.dirs == old(fs.dirs) + set d | d in created
  {
    created, failed := [], false;
    var keys, filesByPrefix := GroupByPrefix(listing);
    ghost var listed := set f | f in listing;
    assert listed <= old(fs.loc).Keys;
    assert listing != [] ==> keys != [] by {
      if listing != [] {
        PrefixIsKey(listing, listing[0]);
      }
    }
    for i := 0 to |keys|
      invariant fs.Valid()
      invariant batchSize == 0 ==> i == 0
      invariant created == Dirs(PlanFor(keys[..i], listing, batchSize))
      invariant fs.loc == ApplyPlan(old(fs.loc), PlanFor(keys[..i], listing, batchSize))
      invariant fs.dirs == old(fs.dirs) + set d | d in created
    {
      var prefix := keys[i];
      var files := filesByPrefix[prefix];
      ghost var done := PlanFor(keys[..i], listing, batchSize);
      assert forall f :: f in files ==> f in fs.loc by {
        MembersSpec(listing, prefix);
        ApplyPlanUntouched(old(fs.loc), done);
        assert forall f :: f in files ==> f in listed;
      }
      ghost var batches := GroupBatches(prefix, files, batchSize);
      PlanForStep(keys, listing, batchSize, i);
      ApplyPlanAppend(old(fs.loc), done, batches);
      DirsAppend(done, batches);
      assert |files| > 0 by {
        GroupsNonEmpty(listing, prefix);
      }
      var more, groupFailed := MoveGroup(fs, prefix, files, batchSize);
      SetOfAppend(created, more);
      created := created + more;
      if groupFailed {
        assert i == 0 && listing != [];
        assert Plan(listing, batchSize) == [] by {
          PlanNonPositive(listing, batchSize);
        }
        failed := true;
        return;
      }
    }
    assert keys[..|keys|] == keys;
  }

  /** Extending a plan prefix by one destination: one more name, and that destination's files moved. */
  lemma PlanPrefixStep(loc: Locations, plan: seq<Batch>, c: nat)
    requires c < |plan|
    ensures Dirs(plan[..c + 1]) == Dirs(plan[..c]) + [plan[c].dir]
    ensures ApplyPlan(loc, plan[..c + 1]) == MoveAll(ApplyPlan(loc, plan[..c]), plan[c].files, plan[c].dir)
  {
    assert plan[..c + 1][..c] == plan[..c];
  }

  lemma SetOfAppend(a: seq<string>, b: seq<string>)
    ensures (set d | d in a + b) == (set d | d in a) + (set d | d in b)
  {
  }

  /** The plan for the first `i + 1` keys is the plan for the first `i` followed by the destinations of key `i`. */
  lemma PlanForStep(keys: seq<string>, files: seq<string>, b: int, i: nat)
    requires i < |keys|
    ensures PlanFor(keys[..i + 1], files, b)
      == PlanFor(keys[..i], files, b) + GroupBatches(keys[i], Members(files, keys[i]), b)
  {
    assert keys[..i + 1][..i] == keys[..i];
  }
}
