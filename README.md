# Input splitter for GraphRAG — a Dafny model

This project models `split_input_by_source(input_dir, batch_size=7500)` from
`batch_processor.py`. The function takes the `*.txt` files directly in an input
directory and groups them by document source. The source is the part of the
file name before the first `_`, e.g. `PRELIMusc06` for `PRELIMusc06_0001.txt`.
Each group is moved into subdirectories of the input directory:

- a group of at most `batch_size` files goes into one directory named after
  the prefix;
- a larger group is cut into consecutive chunks of `batch_size` files, and
  chunk `i` (counted from 1) goes into `<prefix>_part<i>`.

The function returns the created directories in creation order.

The model has six modules:

- `Seqs` (seqs.dfy): shared sequence helpers: `Concat`, `NoDuplicates`, and
  multiset facts about joined sequences.
- `Naming` (naming.dfy): the grouping key `Prefix` (`name.split('_')[0]`),
  decimal rendering of part numbers, and `PartName` (`f"{prefix}_part{i}"`).
- `Chunking` (chunking.dfy): Python's `range(0, n, step)` and `s[i:j]`, and the
  list comprehension that cuts a group into chunks.
- `Grouping` (grouping.dfy):
  - the loop that builds the insertion-ordered dict `files_by_prefix`, as the
    method `GroupByPrefix`;
  - its specification: the key order `KeysOf` and the group lists `Members`.
- `Batching` (batching.dfy): the whole run stated as a value. A plan is the
  sequence of `Batch(dir, files)` destinations in creation order, and `Plan`
  computes it from the listing and the batch size.
- `Splitter` (splitter.dfy):
  - the file system as a class `FileSystem`, holding where every file is
    (`loc`) and which directories exist (`dirs`); `MakeDir` models
    `mkdir(exist_ok=True)` and `Move` models `shutil.move`;
  - the imperative loops `MoveInto`, `MoveGroup` and `SplitInputBySource`, each
    proved to carry out the plan;
  - lemmas about the final location of every file.

Directories are named relative to the input directory. The empty name `""` is
the input directory itself, which is where `input_path / ""` points when a file
name starts with `_`. The order in which `glob("*.txt")` yields the files is
decided by the file system, so it is a parameter (`listing`).
`IsTxtListing` ties it to the state: `listing` has no duplicates and holds
exactly the `*.txt` files in the input directory.

A batch size of 0 or less is handled as the source handles it. Groups are never
empty, so every group then takes the chunking branch (`len(files) <= batch_size`
is false):

- `range(0, n, 0)` raises `ValueError` at the first group, before anything is
  created. The model reports this as `failed` and leaves the state unchanged.
- `range(0, n, b)` with `b < 0` is empty, so nothing is created or moved.
  `PlanNonPositive` proves that the plan is then empty.

## Model

| member | source | states |
|---|---|---|
| Naming.Prefix | batch_processor.py:20 | the key of a name contains no `_`, is a prefix of the name, and is followed in the name by `_` whenever it is shorter than the name |
| Naming.PrefixUnique | batch_processor.py:20 | those three facts determine the key, so `Prefix` is exactly `split('_')[0]`: the text before the first `_`, or the whole name |
| Naming.PrefixOfJoined | batch_processor.py:20 | for an underscore-free `p`, the key of `p + "_" + rest` is `p` whatever `rest` is |
| Naming.Decimal | batch_processor.py:50 | `str(i)` is a non-empty string of digits that starts with `0` only for 0 |
| Naming.ParseDecimalOfDecimal | batch_processor.py:50 | reading back the digits of `n` gives `n` |
| Naming.DecimalInjective | batch_processor.py:50 | different part numbers render differently |
| Naming.PartNamePrefix | batch_processor.py:50 | `<prefix>_part<i>` contains `_`, and its key is `prefix` when the prefix is underscore-free |
| Naming.PartName | batch_processor.py:50 | the directory of part `i` of a split group: `prefix`, then `_part`, then the decimal digits of `i` (the f-string `f"{prefix}_part{i}"`) |
| Naming.PartNameInjective | batch_processor.py:50 | a part directory name determines both the prefix and the part number |
| Chunking.CeilDiv | batch_processor.py:47 | the number of chunks is the least `c` with `c * b >= n` |
| Chunking.Slice | batch_processor.py:47 | `s[i:j]` has `min(j, len(s)) - i` elements (none when that is negative), and element `k` of it is `s[i + k]` |
| Chunking.RangeFromZero | batch_processor.py:47 | `range(0, n, step)` yields `k * step` at position `k`, every value below `n`, and enough values to reach `n` |
| Chunking.Chunks | batch_processor.py:47 | the list comprehension: one slice `s[i:i + b]` for each start `i` of `range(0, len(s), b)`, in order |
| Chunking.ChunkAt | batch_processor.py:47 | chunk `k` starts inside the sequence, at `k * b`, and is the slice `s[k*b : k*b + b]` clamped to the end |
| Chunking.ChunkSizes | batch_processor.py:47 | there are ceil(N / b) chunks, none when N = 0; each holds 1 to `b` elements and all but the last exactly `b` |
| Chunking.ConcatChunksPrefix | batch_processor.py:47 | the first `k` chunks joined are the first `min(k * b, N)` elements |
| Chunking.ChunksConcat | batch_processor.py:47 | joining all chunks gives back the group, so nothing is lost, duplicated or reordered |
| Chunking.ChunkElement | batch_processor.py:47 | element `j` of chunk `k` is element `k * b + j` of the group |
| Chunking.ChunkIndex | batch_processor.py:47 | the chunk holding position `idx` is the `c` with `c * b <= idx < c * b + b` |
| Chunking.ChunkHolding | batch_processor.py:47 | position `idx` of the group lies in chunk `ChunkIndex(idx, b)`, which exists |
| Grouping.KeysOf | batch_processor.py:18-23 | the keys of `files_by_prefix` as the loop leaves them: the listing's prefixes, each added when first met |
| Grouping.Members | batch_processor.py:18-23 | the list `files_by_prefix[p]`: the listed files with prefix `p`, appended in listing order |
| Grouping.GroupByPrefix | batch_processor.py:18-23 | the dict loop yields the keys in `KeysOf` order; a prefix is a key exactly when it has a list, and that list is `Members(files, p)` |
| Grouping.KeysOfSpec | batch_processor.py:18-23 | the keys hold no duplicates, and a prefix is a key exactly when some listed file has it |
| Grouping.PrefixIsKey | batch_processor.py:19-22 | the prefix of every listed file is a key |
| Grouping.MembersSpec | batch_processor.py:18-23 | a file is in group `p` exactly when it is listed and has prefix `p`, so it is in exactly one group; a group is empty exactly when no listed file has its prefix |
| Grouping.GroupsNonEmpty | batch_processor.py:21-23 | every keyed group holds at least one file |
| Grouping.MembersInOrder | batch_processor.py:19-23 | a group picks its files out of the listing at strictly increasing positions, so enumeration order is kept |
| Grouping.KeysFirstSeenOrder | batch_processor.py:21-22 | keys are in first-seen order: wherever a later key's prefix occurs in the listing, every earlier key has been seen before that position |
| Grouping.GroupsPartition | batch_processor.py:18-23 | the groups joined in key order are a permutation of the listing |
| Batching.GroupBatches | batch_processor.py:34-52 | one group's destinations: `Batch(prefix, group)` when it fits a batch, otherwise chunk `i` (from 1) in `<prefix>_part<i>`; none for an oversized group when the batch size is 0 or less |
| Batching.PlanFor | batch_processor.py:31-57 | the destinations of the groups keyed by `keys`, group after group in key order |
| Batching.Plan | batch_processor.py:31-57 | every destination of a run over a listing, in creation order: `PlanFor` over the keys of `files_by_prefix` |
| Batching.GroupBatchesSizes | batch_processor.py:34-57 | a non-empty group gets ceil(N / b) destinations, each holding 1 to `b` files and all but the last exactly `b`, and they hold the group in order |
| Batching.GroupBatchesNames | batch_processor.py:34-52 | every destination of a group has the group's prefix as key; a name contains `_` exactly when the group was split; no two names coincide |
| Batching.GroupBatchesFiles | batch_processor.py:34-57 | a group's destinations hold exactly the group, in order |
| Batching.PlanForFiles | batch_processor.py:31-57 | the files of the plan joined in order are the groups joined in key order |
| Batching.PlanForContainsGroup | batch_processor.py:31-57 | every destination of a keyed group is a destination of the plan |
| Batching.PlanPartition | batch_processor.py:31-57 | the files of all destinations together are a permutation of the listing |
| Batching.PlanBatchSizes | batch_processor.py:31-57 | every destination receives between 1 and `b` files |
| Batching.PlanCount | batch_processor.py:31-57 | the run creates, per group, 1 directory when N <= b and ceil(N / b) otherwise |
| Batching.PlanNonPositive | batch_processor.py:34-47 | with a batch size of 0 or less nothing is planned, because every group takes the chunking branch and `range` yields nothing |
| Batching.PlanDirsDistinct | batch_processor.py:36-50 | the created directory names are pairwise distinct |
| Batching.PartNamesDistinct | batch_processor.py:49-50 | the names `<prefix>_part1`, `<prefix>_part2`, ... have key `prefix`, contain `_`, and are pairwise distinct |
| Batching.ExampleOversizedGroup | batch_processor.py:47-52 | 20,000 files at the default batch size of 7,500 go to `PRELIMusc10_part1`, `_part2` and `_part3`, holding 7,500, 7,500 and 5,000 files |
| Batching.ExamplePartNames | batch_processor.py:50 | the part names of `PRELIMusc10` for 1, 2 and 3 are `PRELIMusc10_part1`, `PRELIMusc10_part2` and `PRELIMusc10_part3` |
| Batching.ExampleSmallGroup | batch_processor.py:34-41 | a group of 3,000 files at the default batch size of 7,500 fits one batch and goes to the single directory named after its prefix |
| Splitter.IsTxt | batch_processor.py:19 | a name matched by `*.txt`: at least four characters, ending in `.txt` |
| Splitter.IsTxtListing | batch_processor.py:19 | a listing is one enumeration of `glob("*.txt")`: no name twice, and exactly the `*.txt` files directly in the input directory |
| Splitter.MoveAll | batch_processor.py:40-41 | the locations after `shutil.move` of each file in turn into `dir` |
| Splitter.ApplyPlan | batch_processor.py:31-57 | the locations after carrying out the destinations of a plan one after the other, each as `MoveAll` |
| Splitter.MoveAllSpec | batch_processor.py:40-41 | moving files into `dir` puts each of them there, leaves every other file where it was, and loses no file |
| Splitter.ApplyPlanUntouched | batch_processor.py:31-57 | carrying out a plan keeps every file, and a file outside the plan stays where it was |
| Splitter.ApplyPlanPlaces | batch_processor.py:31-57 | a file held by only one destination ends up in that destination's directory |
| Splitter.SplitPlacesEveryFileOnce | batch_processor.py:31-57 | after a run the same file names exist; unlisted files are untouched; every listed file is in a created directory, in destination `k` exactly when planned for `k`, with 1 to `b` files per destination |
| Splitter.PlanFilesAreListed | batch_processor.py:31-57 | the files the plan moves are exactly the listed files |
| Splitter.OnlyDestination | batch_processor.py:31-57 | a listed file belongs to exactly one destination of the plan |
| Splitter.PlacedByPlan | batch_processor.py:31-57 | a listed file is moved into the directory of the destination planned for it |
| Splitter.InGroupBatch | batch_processor.py:34-52 | position `idx` of a group lies in a destination named after the prefix when the group fits, otherwise in `<prefix>_part<idx // b + 1>` |
| Splitter.FileDestination | batch_processor.py:34-55 | a listed file at position `idx` of its group ends up in `<prefix>` when the group has at most `b` files, otherwise in `<prefix>_part<idx // b + 1>` |
| Splitter.UnderscoreFreeNameIsItsOwnDir | batch_processor.py:20-37 | a listed name without `_` whose group fits a batch is its own key, so the run creates a directory with exactly that file's name |
| Splitter.FileSystem.MakeDir | batch_processor.py:36-37 | `mkdir(exist_ok=True)` adds the directory, also when it already exists, and moves no file |
| Splitter.FileSystem.Move | batch_processor.py:41 | `shutil.move(file, subdir / file.name)` changes only that file's directory, and the file keeps its name |
| Splitter.MoveInto | batch_processor.py:40-41 | the loop moves the files one by one; the result is `MoveAll`, and no file name appears or disappears |
| Splitter.MoveGroup | batch_processor.py:34-57 | one group's destinations are created and filled in plan order; returns their names; fails exactly when the group does not fit and the batch size is 0 |
| Splitter.SplitInputBySource | batch_processor.py:10-59 | returns the plan's directory names, leaves every file where the plan puts it, and adds exactly the returned directories; fails exactly when the batch size is 0 and there is a file |

## Left out

- `main` (batch_processor.py:61-106) is left out: an interactive confirmation, a hard-coded path and console output.
- The progress messages of `split_input_by_source` (batch_processor.py:25-29, 32, 43, 57) are left out; they are console output only.
- test-integration.py and data_ingestion.py are not part of this model. They drive an external GraphRAG command line and HTML splitting libraries.
- Failures of the file system (`mkdir` or `shutil.move` raising, a run stopped half way) are not modelled. A move is a map update that always succeeds.
- Splitter.FileSystem.MakeDir: does not model a name already taken by a file. `Path.mkdir(exist_ok=True)` raises `FileExistsError` then. This matters for a listed name without `_`: its whole name (with `.txt`) is its prefix. `UnderscoreFreeNameIsItsOwnDir` shows that, when that file's group fits a batch, the run asks for a directory with the file's own name.
- Splitter.FileSystem.Move: does not model a destination that already holds a file of the same name. `Locations` maps each file name to one directory, so names are taken to be unique across the input directory and its subdirectories.
- Splitter.SplitInputBySource: the `ValueError` raised for a batch size of 0 is reported as `failed` with nothing changed. How the exception propagates to the caller is not modelled.
- Batching.GroupBatches: for a batch size of 0 an oversized group is given no destinations. The source raises there instead; `failed` in `MoveGroup` and `SplitInputBySource` carries that outcome.
- The enumeration order of `glob("*.txt")` is decided by the file system and is taken as the parameter `listing`. A directory whose name ends in `.txt` would also be matched by the glob; the model takes every listed name to be a file.
- `created_dirs` holds `Path` objects (`input_path / name`); the model returns each `name` as written, relative to the input directory. Path normalisation is not applied: `input_path / "."` is the input directory itself, which the model names `"."` rather than `""`.
- Batching.PlanDirsDistinct: proves the created directory *names* pairwise distinct, not the directories they denote. pathlib and the file system can make distinct names denote one directory: the prefix `.` (a file `._a.txt`, as macOS creates) is the input directory itself, like the prefix `""`; the prefix `..` (a file `.._x.txt`) is the parent directory, so that file leaves the input directory; and on a case-insensitive or normalisation-insensitive file system (the macOS default) `Abc` and `abc` are one directory. The model treats every name as its own directory.
- Batching.PlanBatchSizes: the bound of `b` files holds per directory name. When two names alias one directory as above, that directory can receive the files of both, e.g. 15,000 files for two case-variant groups of 7,500.
- Splitter.SplitPlacesEveryFileOnce: the same aliasing applies: "at most `b` files per destination" and "in a created directory inside the input directory" are stated per name, and a `..` prefix moves a file into the parent directory.
