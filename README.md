# har: the HDF5 archive controller, in Dafny

`har` packs files and directory trees into one HDF5 file and gets them back.
Every file becomes a dataset of raw bytes, keyed by its path relative to the
directory it was found under. A file given directly is keyed by its base
name. Every directory on a key's path becomes a group. This project models
the three operations of `src/h5.py` that do the work and proves what they
promise:

- `pack_or_append_to_h5` creates (`'w'`) or extends (`'a'`) an archive from
  a list of sources, through its inner `process_file`;
- `extract_h5_to_directory` writes one named dataset, or every dataset, back
  to files below a directory;
- `list_h5_contents` prints a header and the sorted names of the datasets.

The model works on values:

- Paths and keys are sequences of segments, and payloads are `seq<bv8>`.
- The filesystem is a map from paths to files and directories.
- The HDF5 file is a map from keys to payloads plus a set of group keys
  (`Store`). `h5py`'s `require_group` and `create_dataset` are functions on
  it that can fail.
- Each operation is first a function over these values (`Archived`,
  `Extraction`, `DatasetNames`).
- It is then a method of the class `Archive`, the open HDF5 file. The method
  keeps the loops of `src/h5.py` and is proved equal to the function. One
  exception: the two nested loops over `os.walk` (over the directories it
  yields, then over each directory's files) are one loop over the flat list
  of walked files.

The walk of a directory (`os.walk`) and the order `visititems` visits the
archive are parameters. Each walk must list exactly the files below its
directory, each once, in any order. An exception that stops a run (a name
clash in `h5py`, a file in the way of `os.makedirs`, a directory in the way
of `open`) is a failure value. A failure value keeps the partial effect that
was already made.

Files:

- `paths.dfy`: `Option`/`Result`, paths, and key derivation.
- `strings.dfy`: Python's string order, `sorted`, and `/`-joined names.
- `filesystem.dfy`: `os.makedirs` and `open(..., 'wb')`.
- `store.dfy`: the HDF5 file and its two mutators.
- `h5.dfy`: the three operations as functions, and the `Archive` class with
  its methods.
- `pack_properties.dfy`, `extract_properties.dfy`, `listing_properties.dfy`:
  the proved properties.

## Model

| member | source | states |
|---|---|---|
| Paths.DeriveKey | src/h5.py:62-65 | a file under a directory source is keyed by its path relative to that directory (`base + key == file`, key non-empty); a lone file is keyed by its base name only |
| Paths.Relative | src/h5.py:63 | `os.path.relpath` of a file inside `base` is the non-empty rest of its path: `base + key == file` |
| Paths.Basename | src/h5.py:65 | `os.path.basename` is the one last segment, and `dirname + basename` gives the path back |
| Paths.Dirname | src/h5.py:70 | `os.path.dirname` drops exactly the last segment and is a proper prefix |
| Paths.Prefixes | src/h5.py:114 | the directories `os.makedirs(p)` makes are exactly the non-empty prefixes of `p` |
| Paths.PrefixesClosed | src/h5.py:72 | a prefix of a prefix of `p` is again among `p`'s prefixes, so intermediate groups and directories come with every path |
| FileSystem.MakeDirs | src/h5.py:114 | `os.makedirs(d, exist_ok=True)` fails exactly when a component of `d` is a file; otherwise every component is a directory afterwards, nothing existing changes, and only components of `d` are added |
| FileSystem.FileOnPathMeans | src/h5.py:114 | the recursive test `makedirs` fails on means that some prefix of the path is a file |
| FileSystem.WriteFile | src/h5.py:116-117 | `open(p, 'wb').write(data)` fails exactly on a directory; otherwise `p` holds `data` and no other entry changes |
| ArchiveStore.WithGroupEffect | src/h5.py:71-72 | `require_group(g)` fails exactly when a dataset lies on the path to `g`; otherwise `g` and its prefixes are groups, datasets are untouched, no other group appears, and the tree shape is kept |
| ArchiveStore.WithDatasetEffect | src/h5.py:76-81 | `create_dataset(k, data)` fails exactly when `k` is taken (dataset or group) or a dataset lies above it; otherwise `k` holds `data`, exactly `k` is added, no other payload changes, only groups above `k` appear, and the tree shape is kept |
| ArchiveStore.DatasetOnPathMeans | src/h5.py:72 | the recursive conflict test means that some prefix of the path is a dataset |
| ArchiveStore.DatasetOnPathFrame | src/h5.py:70-72 | whether a path runs through a dataset depends on the datasets only, so `require_group` cannot create a conflict for the `create_dataset` after it |
| H5.DirItems | src/h5.py:88-91 | a walked directory yields one entry per walked file, in walk order, keyed by its path relative to the directory |
| H5.SourceItems | src/h5.py:86-95 | every entry one source yields names a readable file under a non-empty key (the keying itself is stated by `PackProperties.TraverseEntries` and `PackProperties.DirItemsKeys`) |
| H5.Traverse | src/h5.py:84-95 | every entry the loop over the sources yields names a readable file under a non-empty key |
| H5.StoreEntryOutcome | src/h5.py:66-81 | in append mode a key already in the archive (dataset or group) is skipped with the store unchanged and a notice; otherwise the parent group is required and then the dataset created, and success leaves exactly `key ↦ data` added; a failure happens exactly when the key is taken or a dataset lies above it, and then stores nothing |
| H5.StoreEntryKeeps | src/h5.py:66-81 | whatever the outcome, no stored payload is overwritten, the only new dataset is the key, groups only grow, and every new group lies above the key |
| H5.StoreEntryConsistent | src/h5.py:66-81 | whatever the outcome, the archive stays a tree: no key is both a dataset and a group, and every proper prefix of a key is a group |
| H5.PackItemsAppend | src/h5.py:84-93 | processing two item lists one after the other is processing their concatenation, stopping at the first exception |
| H5.ExtractDataset | src/h5.py:113-117 | writing a dataset succeeds exactly when no file is on the way to the destination and the destination is no directory; it then holds the bytes, and only the destination and directories above it change |
| H5.ExtractKey | src/h5.py:109-118 | a key not in the archive gives the not-found error and leaves the filesystem unchanged; success means the key was a dataset and `dir + key` holds its bytes; for a dataset, success happens exactly when no file is on the way to `dir + key` and it is no directory; a group key never yields a written file; only the destination and directories above it change |
| H5.ExtractAll | src/h5.py:120-128 | extracting every visited dataset makes no existing path disappear (an existing file at `dir + key` may be overwritten) |
| ExtractProperties.ExtractAllGrew | src/h5.py:120-128 | into any target, whether the run raises or not, only the paths `dir + key` of visited datasets change, and every other new entry is a directory above one of them |
| ExtractProperties.ExtractAllSucceeds | src/h5.py:120-128 | a consistent archive extracted into a target with nothing in the way never raises, in any visit order: the way to `dir` is directories, and each group's path is absent or a directory and each dataset's path is absent or a file; unrelated entries may be present |
| ExtractProperties.ArchiveInTarget | src/h5.py:25-26 | the documented default target, the current directory holding only the archive file (named other than any group), has nothing in the way |
| ExtractProperties.ExtractAllKeeps | src/h5.py:120-128 | into any target, a run that raises nothing leaves alone every existing file that no visited dataset is written over, or that already holds the bytes written over it |
| ExtractProperties.ExtractAllWrites | src/h5.py:120-128 | into any target, a run that raises nothing leaves every visited dataset as a file at `dir + key` with exactly its bytes |
| ExtractProperties.ExtractWholeArchive | src/h5.py:120-128 | with a complete `visititems` pass, a run that raises nothing leaves every dataset of the archive at `dir + key` with its bytes, and into a target with nothing in the way (unrelated entries allowed) the run raises nothing |
| H5.DatasetNames | src/h5.py:135-139 | the names `visitor` collects are exactly the joined keys of the visited datasets, and at most one per visited object |
| H5.Archive.constructor | src/h5.py:59 | opening a file gives an archive with the file's contents |
| H5.Archive.RequireGroup | src/h5.py:72 | the method changes the open file exactly as `WithGroup` says, or reports its failure and changes nothing |
| H5.Archive.CreateDataset | src/h5.py:76-81 | the method changes the open file exactly as `WithDataset` says, or reports its failure and changes nothing |
| H5.Archive.ProcessFile | src/h5.py:60-81 | the open file, the notices and the exception after `process_file(file, base)` are those of `StoreEntry` for the derived key and the file's bytes |
| H5.Archive.PackWalk | src/h5.py:88-91 | the walk loop leaves the file, notices and exception that `PackItems` gives for the walk's entries |
| H5.Archive.PackSource | src/h5.py:85-95 | one pass of the loop over the sources has the effect of `PackItems` on that source's items |
| H5.Archive.Pack | src/h5.py:48-95 | `pack_or_append_to_h5` leaves the open file, notices and exception of `Archived`: mode `'w'` truncates first, then the sources are processed in order up to the first exception |
| H5.Archive.ExtractVisited | src/h5.py:120-126 | the `visititems` callback writes a dataset as `ExtractDataset` says and passes over anything else |
| H5.Archive.Extract | src/h5.py:99-129 | `extract_h5_to_directory` leaves the output filesystem and error of `Extraction`: the single-key branch when a key is given, the `visititems` loop otherwise |
| H5.Archive.List | src/h5.py:131-142 | the printed lines are the header naming the archive followed by the collected dataset names, in `sorted` order and each as often as collected |
| Strings.Sort | src/h5.py:141 | `sorted(keys)` is ordered and a permutation of `keys` |
| Strings.Insert | src/h5.py:141 | inserting into a sorted list keeps it sorted and adds exactly the one element |
| Strings.BelowTotal | src/h5.py:141 | Python's string comparison relates any two strings |
| Strings.BelowTransitive | src/h5.py:141 | Python's string comparison is transitive |
| Strings.BelowAntisymmetric | src/h5.py:141 | two strings each `<=` the other are equal |
| Strings.SortedUnique | src/h5.py:141 | a sorted list is fixed by its elements, so `sorted` gives one answer whatever order the names were collected in |
| Strings.SplitJoin | src/h5.py:138 | splitting a dataset's `/`-joined name gives its key back when no segment holds `/` |
| Strings.JoinInjective | src/h5.py:138 | distinct such keys have distinct names |
| PackProperties.PackItemsKeeps | src/h5.py:67-81 | a run never replaces a stored payload, adds datasets only under keys it was given, never removes a group, and keeps the archive a tree |
| PackProperties.PackItemsStoresAll | src/h5.py:67-81 | after a run that raised nothing every key it was given names a dataset or group in the archive |
| PackProperties.AppendAllPresent | src/h5.py:67-69 | appending entries whose keys are all present changes nothing and prints one skip notice per entry |
| PackProperties.DirItemsKeys | src/h5.py:88-91 | the keys of a walked directory are exactly the relative paths of the files below it |
| PackProperties.TraverseKeys | src/h5.py:84-93 | which keys the sources yield does not depend on the order the walks list files in |
| PackProperties.AppendIdempotent | src/h5.py:67-69 | a second append of the same sources, in any walk order, after a first one that raised nothing leaves the archive exactly as the first left it and prints only skips and the invalid-source warnings, one notice per item |
| PackProperties.AppendKeepsArchive | src/h5.py:67-69 | append leaves every existing payload unchanged, and a key naming an existing group is never turned into a dataset |
| PackProperties.WriteRunExact | src/h5.py:73-81 | a create run that raised nothing stores every entry under its key with exactly its file's bytes, empty files included, and nothing else |
| PackProperties.TraverseEntries | src/h5.py:84-93 | every walked file appears among the items under its relative key, and every file source under its base name |
| PackProperties.CreateStoresSources | src/h5.py:59-93 | a create (`'w'`) run that raised nothing holds exactly the traversal's keys, each file under its relative path or base name with its exact bytes, and every key's parent groups exist |
| PackProperties.InvalidSourceSkipped | src/h5.py:84-95 | a source that is neither directory nor file, at any position among the sources, leaves the same archive and exception as the run without it; when the sources before it raised nothing, its one warning follows their notices and the rest of the run is unchanged |
| PackProperties.TraverseAppend | src/h5.py:84-95 | the loop over two lists of sources one after the other yields the items of their concatenation |
| PackProperties.WriteRunSucceeds | src/h5.py:70-81 | a create run raises nothing when its keys are prefix-free and clear of what the archive already holds |
| PackProperties.DirItemsPrefixFree | src/h5.py:88-91 | on a real filesystem the relative paths of one walk are prefix-free |
| PackProperties.CreateDirectorySucceeds | src/h5.py:84-91 | creating an archive from one directory never raises |
| PackProperties.CreateDirectoryStores | src/h5.py:84-91 | creating an archive from one directory raises nothing, keeps the tree shape, and stores every file below it under its relative path with its exact bytes |
| PackProperties.CreateExample | tests/test_h5.py:47-54 | packing `src` with `file1.txt` and `subdir/file2.txt` stores both under their relative keys with their bytes, and `subdir` is a group |
| ExtractProperties.EmptyDirectoryReady | src/h5.py:120-128 | an existing directory with nothing below it is a valid target for extracting any archive |
| ExtractProperties.ExtractDatasetFaithful | src/h5.py:122-126 | writing a dataset of a well-formed archive into such a directory succeeds and keeps the directory holding only the archive's datasets and groups |
| ExtractProperties.ExtractAllFaithful | src/h5.py:120-128 | for a consistent archive extracted into a directory holding only this archive's extraction (an empty one, say), whole-archive extraction raises nothing; every visited dataset becomes a file at `dir + key` with exactly its bytes; groups become directories at most |
| ExtractProperties.ExtractKeyFaithful | src/h5.py:113-118 | for a consistent archive and a target with nothing in the way (unrelated entries allowed), extracting a present dataset raises nothing, writes exactly its bytes at `dir + key`, and every other changed entry is a directory |
| ExtractProperties.CreateThenExtract | test/test_h5.py:66-80 | create from one directory then extract everything into an empty directory gives back every file at the same relative path with the same bytes |
| ExtractProperties.CreateThenExtractWhole | test/test_h5.py:66-80 | the same round trip when extraction is a complete `visititems` pass of the created archive, with no other assumption on the visit |
| ListingProperties.DatasetNamesPermutation | src/h5.py:135-139 | visiting the same objects in another order collects the same names, perhaps in another order |
| ListingProperties.ListingOrderIndependent | src/h5.py:139-142 | two listings of the same archive under any two visit orders are the same lines |
| ListingProperties.DatasetNamesDistinct | src/h5.py:135-139 | a visit that meets no object twice collects no name twice |
| ListingProperties.ListingExact | src/h5.py:131-142 | after a complete `visititems` pass the listed lines are exactly the archive's dataset names, each once |
| ListingProperties.ListingOmitsGroups | src/h5.py:136-138 | a group's name is never listed |
| ListingProperties.SortExample | src/h5.py:141 | `sorted` puts `a.txt` before `a/c.txt` before `b.txt` |

## Left out

- Real I/O is not modelled: `h5py.File` opening and closing, `open`/`read`, and `os.path.expanduser`. The filesystem and the archive are values, and reading a file is looking it up.
- `os.walk` and `visititems` orders are parameters. A walk must list exactly the files below its directory, each once. Symbolic links and special files are not distinguished from regular files.
- `os.walk` silently skips directories it cannot read (`onerror=None`). The model demands that a walk list every file below its directory, so a partial walk is not modelled.
- A visit is constrained only to non-empty keys. Where a lemma needs the whole archive visited, each object once, it requires `IsVisit`.
- `h5py.File(output_h5, 'w')` creates the archive on disk before the sources are walked. An archive written inside a source directory is therefore walked and stored as a dataset holding its own half-written bytes. The filesystem here is a fixed value that the archive is not part of, so this case is not modelled.
- Progress and timing output is not modelled: the "Storing:" and "Extracted:" lines, "Extraction complete!", and the elapsed time. The notices keep only the skip message and the invalid-source warning.
- The `numpy` conversion (`np.frombuffer`, `dtype=np.uint8`, `compression=None`, `[()].tobytes()`) is the identity on bytes here.
- `main` and its argument parsing are not part of this model. An empty key given to extraction is treated, like `None`, as extracting everything, as `if file_key:` does.
- H5.ExtractKey: the key-not-found branch ends the process with `sys.exit(1)`. Here it is the `KeyNotFound` failure, with the filesystem unchanged.
- H5.ExtractKey: reading a group's value raises in `h5py`. Here that is the `NotADataset` failure, after the directories have been made.
- FileSystem.WriteFile: `open` also fails when the parent directory is missing. Every write in the model follows a successful `os.makedirs` of that parent, so that case does not arise.
- Paths are absolute and normalised. `..`, `.` and trailing separators are not modelled.
- Keys are sequences of segments, and the destination is always `dir + key`. A user-given key with a leading `/` passes the `in` test, and `os.path.join` then discards the output directory (src/h5.py:113), so that write lands outside it. The model does not capture this.
- Opening a missing archive in mode `'a'` creates it empty. That is `Archived` applied to `EMPTY`.
- ArchiveStore.WithGroupEffect: the model does not separate `h5py`'s distinct exception types (`TypeError`, `ValueError`). All of them are one `Conflict` value.
- ListingProperties.ListingOmitsGroups and Strings.SplitJoin require that no key segment contains `/`, which holds for file names.
