/**
 * Grouping the enumerated `*.txt` files by prefix: the loop that builds the
 * insertion-ordered dictionary `files_by_prefix`.
 */
module Grouping {
  import opened Naming
  import opened Seqs

  /** The distinct prefixes of `files` in first-seen order: the keys of `files_by_prefix`. */
  function KeysOf(files: seq<string>): seq<string> {
    if files == [] then []
    else
      var keys := KeysOf(files[..|files| - 1]);
      var p := Prefix(files[|files| - 1]);
      if p in keys then keys else keys + [p]
  }

  /** The files whose prefix is `p`, in enumeration order: the list `files_by_prefix[p]`. */
  function Members(files: seq<string>, p: string): seq<string> {
    if files == [] then []
    else
      var g := Members(files[..|files| - 1], p);
      var f := files[|files| - 1];
      if Prefix(f) == p then g + [f] else g
  }

  /** The positions in `files` of the members of group `p`. */
  function MemberIndices(files: seq<string>, p: string): seq<nat> {
    if files == [] then []
    else
      var idx := MemberIndices(files[..|files| - 1], p);
      if Prefix(files[|files| - 1]) == p then idx + [|files| - 1] else idx
  }

  /** The groups listed in the order of `keys`. */
  function GroupsOf(keys: seq<string>, files: seq<string>): (gs: seq<seq<string>>)
    ensures |gs| == |keys|
  {
    seq(|keys|, i requires 0 <= i < |keys| => Members(files, keys[i]))
  }

  /**
   * Builds `files_by_prefix`: a key is added the first time its prefix is met
   * (with an empty list) and every file is appended to its prefix's list.
   * The dictionary is kept as its key order plus a map.
   */
  method GroupByPrefix(files: seq<string>) returns (keys: seq<string>, groups: map<string, seq<string>>)
    ensures keys == KeysOf(files)
    ensures forall p :: p in groups <==> p in keys
    ensures forall p :: p in groups ==> groups[p] == Members(files, p)
  {
    keys, groups := [], map[];
    for i := 0 to |files|
      invariant keys == KeysOf(files[..i])
      invariant forall p :: p in groups <==> p in keys
      invariant forall p :: p in groups ==> groups[p] == Members(files[..i], p)
    {
      assert files[..i + 1][..i] == files[..i];
      assert forall p :: (Members(files[..i + 1], p)
        == if Prefix(files[i]) == p then Members(files[..i], p) + [files[i]] else Members(files[..i], p));
      var prefix := Prefix(files[i]);
      if prefix !in groups {
        KeysOfSpec(files[..i]);
        MembersSpec(files[..i], prefix);
        groups := groups[prefix := []];
        keys := keys + [prefix];
      }
      groups := groups[prefix := groups[prefix] + [files[i]]];
    }
    assert files[..|files|] == files;
  }

  /** The keys are exactly the prefixes that occur, each once. */
  lemma {:induction false} KeysOfSpec(files: seq<string>)
    ensures NoDuplicates(KeysOf(files))
    ensures forall p :: p in KeysOf(files) <==> exists i :: 0 <= i < |files| && Prefix(files[i]) == p
  {
    if files != [] {
      var init := files[..|files| - 1];
      KeysOfSpec(init);
      forall p | p in KeysOf(files)
        ensures exists i :: 0 <= i < |files| && Prefix(files[i]) == p
      {
        if p in KeysOf(init) {
          var i :| 0 <= i < |init| && Prefix(init[i]) == p;
          assert files[i] == init[i];
        } else {
          assert Prefix(files[|files| - 1]) == p;
        }
      }
      forall p | exists i :: 0 <= i < |files| && Prefix(files[i]) == p
        ensures p in KeysOf(files)
      {
        var i :| 0 <= i < |files| && Prefix(files[i]) == p;
        if i < |init| {
          assert init[i] == files[i];
        }
      }
    }
  }

  /** The prefix of every listed file is a key. */
  lemma PrefixIsKey(files: seq<string>, f: string)
    requires f in files
    ensures Prefix(f) in KeysOf(files)
  {
    KeysOfSpec(files);
    var m :| 0 <= m < |files| && files[m] == f;
  }

  /** A file belongs to group `p` exactly when it is one of the files and its prefix is `p`. */
  lemma {:induction false} MembersSpec(files: seq<string>, p: string)
    ensures forall f :: f in Members(files, p) <==> f in files && Prefix(f) == p
    ensures Members(files, p) == [] <==> forall f :: f in files ==> Prefix(f) != p
  {
    if files != [] {
      var init := files[..|files| - 1];
      MembersSpec(init, p);
      assert files == init + [files[|files| - 1]];
      assert forall f :: f in files <==> f in init || f == files[|files| - 1];
    }
  }

  /** Every group that has a key holds at least one file. */
  lemma GroupsNonEmpty(files: seq<string>, p: string)
    requires p in KeysOf(files)
    ensures |Members(files, p)| > 0
  {
    KeysOfSpec(files);
    MembersSpec(files, p);
    var i :| 0 <= i < |files| && Prefix(files[i]) == p;
    assert files[i] in Members(files, p);
  }

  /** A group keeps the files in the order they were enumerated: it picks them out at increasing positions. */
  lemma {:induction false} MembersInOrder(files: seq<string>, p: string)
    ensures |MemberIndices(files, p)| == |Members(files, p)|
    ensures forall k :: 0 <= k < |Members(files, p)| ==>
      MemberIndices(files, p)[k] < |files| && Members(files, p)[k] == files[MemberIndices(files, p)[k]]
    ensures forall k, l :: 0 <= k < l < |Members(files, p)| ==> MemberIndices(files, p)[k] < MemberIndices(files, p)[l]
  {
    if files != [] {
      var init := files[..|files| - 1];
      MembersInOrder(init, p);
      forall k | 0 <= k < |Members(init, p)|
        ensures files[MemberIndices(init, p)[k]] == init[MemberIndices(init, p)[k]]
      {
      }
    }
  }

  /**
   * Keys appear in first-seen order: wherever a later key's prefix occurs in
   * the listing, every earlier key has already been seen before that position.
   */
  lemma {:induction false} KeysFirstSeenOrder(files: seq<string>)
    ensures forall i, j, m ::
      (0 <= i < j < |KeysOf(files)| && 0 <= m < |files| && Prefix(files[m]) == KeysOf(files)[j]
       ==> KeysOf(files)[i] in KeysOf(files[..m]))
  {
    if files != [] {
      var n := |files| - 1;
      var init := files[..n];
      KeysFirstSeenOrder(init);
      KeysOfSpec(init);
      var ks0, ks := KeysOf(init), KeysOf(files);
      forall i, j, m | 0 <= i < j < |ks| && 0 <= m < |files| && Prefix(files[m]) == ks[j]
        ensures ks[i] in KeysOf(files[..m])
      {
        if m == n {
          assert files[..m] == init;
        } else {
          assert files[m] == init[m];
          assert files[..m] == init[..m];
          assert Prefix(init[m]) == ks[j];
          assert ks[j] in ks0;
        }
      }
    }
  }

  /** Appending one element to one of the joined sequences adds exactly that element to the whole. */
  lemma {:induction false} MultisetConcatExtend(ss: seq<seq<string>>, i: nat, x: string)
    requires i < |ss|
    ensures multiset(Concat(ss[i := ss[i] + [x]])) == multiset(Concat(ss)) + multiset{x}
  {
    var n := |ss| - 1;
    var ts := ss[i := ss[i] + [x]];
    assert Concat(ss) == Concat(ss[..n]) + ss[n];
    assert Concat(ts) == Concat(ts[..n]) + ts[n];
    if i < n {
      assert ts[..n] == ss[..n][i := ss[i] + [x]] && ts[n] == ss[n];
      MultisetConcatExtend(ss[..n], i, x);
    } else {
      assert ts[..n] == ss[..n] && ts[n] == ss[n] + [x];
    }
  }

  /** Listing one more file whose prefix is already a key extends that key's group and no other. */
  lemma GroupsOfSnocKnown(ks: seq<string>, files: seq<string>, i: nat)
    requires files != [] && NoDuplicates(ks) && i < |ks| && ks[i] == Prefix(files[|files| - 1])
    ensures GroupsOf(ks, files)
      == GroupsOf(ks, files[..|files| - 1])[i := GroupsOf(ks, files[..|files| - 1])[i] + [files[|files| - 1]]]
  {
  }

  /** Listing one more file with a new prefix adds a group for it at the end. */
  lemma GroupsOfSnocNew(ks: seq<string>, files: seq<string>)
    requires files != [] && Prefix(files[|files| - 1]) !in ks
    ensures GroupsOf(ks + [Prefix(files[|files| - 1])], files)
      == GroupsOf(ks, files[..|files| - 1]) + [Members(files[..|files| - 1], Prefix(files[|files| - 1])) + [files[|files| - 1]]]
  {
    var p := Prefix(files[|files| - 1]);
    forall j | 0 <= j < |ks|
      ensures Members(files, ks[j]) == Members(files[..|files| - 1], ks[j])
    {
      assert ks[j] != p;
    }
  }

  /** Grouping partitions the files: the groups, joined in key order, are a permutation of the listing. */
  lemma {:induction false} GroupsPartition(files: seq<string>)
    ensures multiset(Concat(GroupsOf(KeysOf(files), files))) == multiset(files)
  {
    if files != [] {
      var n := |files| - 1;
      var init, f := files[..n], files[n];
      var p := Prefix(f);
      var ks0 := KeysOf(init);
      var old_gs := GroupsOf(ks0, init);
      GroupsPartition(init);
      assert multiset(files) == multiset(init) + multiset{f} by {
        assert files == init + [f];
      }
      if p in ks0 {
        var i :| 0 <= i < |ks0| && ks0[i] == p;
        assert NoDuplicates(ks0) by {
          KeysOfSpec(init);
        }
        GroupsOfSnocKnown(ks0, files, i);
        MultisetConcatExtend(old_gs, i, f);
      } else {
        assert Members(init, p) == [] by {
          KeysOfSpec(init);
          MembersSpec(init, p);
        }
        GroupsOfSnocNew(ks0, files);
        var gs := old_gs + [[f]];
        assert gs[..|gs| - 1] == old_gs;
      }
    }
  }
}
