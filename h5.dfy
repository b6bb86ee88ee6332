/**
  The archive controller: `pack_or_append_to_h5`, `extract_h5_to_directory`
  and `list_h5_contents`. Each is specified by a function on values (the
  traversal of the sources, the stores and filesystems it passes through) and
  implemented by a method of `Archive`, the open HDF5 file, that keeps the
  loops of `src/h5.py`.
 */
module H5 {
  import opened Wrappers
  import opened Paths
  import opened Strings
  import opened FileSystem
  import opened ArchiveStore

  /** `file_mode`: 'w' truncates the archive first, 'a' appends to it. */
  datatype Mode = Write | Append

  /** The notices the archiver reports besides its progress lines. */
  datatype Notice = Skipped(key: Key) | NotASource(source: Path)

  /** One thing the traversal of the sources yields. */
  datatype Item = Entry(key: Key, file: Path) | Invalid(source: Path)

  /** Where a create or append run ends: the archive, the notices, and the exception that stopped it, if any. */
  datatype PackRun = PackRun(store: Store, log: seq<Notice>, failure: Option<Conflict>)

  /** The `os.walk` of every directory source lists exactly the files below it. */
  predicate WalksFit(fs: FS, sources: seq<Path>, walks: seq<seq<Path>>) {
    |walks| == |sources| &&
    forall i :: 0 <= i < |sources| && IsDir(fs, sources[i]) ==> IsWalk(fs, sources[i], walks[i])
  }

  /** Every entry names a file that can be read, under a non-empty key. */
  predicate Readable(fs: FS, items: seq<Item>) {
    forall i :: 0 <= i < |items| && items[i].Entry? ==> IsFile(fs, items[i].file) && |items[i].key| > 0
  }

  /** The keys of the entries among `items`. */
  function Keys(items: seq<Item>): set<Key> {
    if items == [] then {}
    else (if items[0].Entry? then {items[0].key} else {}) + Keys(items[1..])
  }

  // ---------------------------------------------------------------------
  // Traversal (src/h5.py:84-95)
  // ---------------------------------------------------------------------

  /** The files of one `os.walk`, each keyed by its path relative to the walked directory. */
  function DirItems(root: Path, files: seq<Path>): (items: seq<Item>)
    requires forall i :: 0 <= i < |files| ==> IsProperPrefix(root, files[i])
    ensures |items| == |files|
    ensures forall i :: 0 <= i < |files| ==> items[i].Entry? && root + items[i].key == files[i] && items[i].file == files[i]
  {
    if files == [] then []
    else [Entry(Relative(files[0], root), files[0])] + DirItems(root, files[1..])
  }

  /** A directory yields its walk, a file yields itself under its base name, anything else a warning. */
  function SourceItems(fs: FS, source: Path, walk: seq<Path>): (items: seq<Item>)
    requires IsDir(fs, source) ==> IsWalk(fs, source, walk)
    ensures Readable(fs, items)
  {
    if IsDir(fs, source) then DirItems(source, walk)
    else if IsFile(fs, source) then [Entry(Basename(source), source)]
    else [Invalid(source)]
  }

  /** What the loop over the sources visits, in order. */
  function Traverse(fs: FS, sources: seq<Path>, walks: seq<seq<Path>>): (items: seq<Item>)
    requires WalksFit(fs, sources, walks)
    ensures Readable(fs, items)
  {
    if sources == [] then []
    else
      assert WalksFit(fs, sources[1..], walks[1..]) by {
        forall i | 0 <= i < |sources| - 1 && IsDir(fs, sources[1..][i])
          ensures IsWalk(fs, sources[1..][i], walks[1..][i])
        {
          assert sources[1..][i] == sources[i + 1] && walks[1..][i] == walks[i + 1];
        }
      }
      var first := SourceItems(fs, sources[0], walks[0]);
      var rest := Traverse(fs, sources[1..], walks[1..]);
      assert forall i :: |first| <= i < |first + rest| ==> (first + rest)[i] == rest[i - |first|];
      first + rest
  }

  // ---------------------------------------------------------------------
  // Create and append (src/h5.py:48-95)
  // ---------------------------------------------------------------------

  /** `process_file` once the key is known: skip in append mode, else make the parent group, then the dataset. */
  function StoreEntry(s: Store, mode: Mode, key: Key, data: Bytes): PackRun
    requires |key| > 0
  {
    if mode == Append && Has(s, key) then PackRun(s, [Skipped(key)], None)
    else
      var parent := Dirname(key);
      var grouped := if parent == [] then Success(s) else WithGroup(s, parent);
      match grouped
      case Failure(e) => PackRun(s, [], Some(e))
      case Success(s1) =>
        match WithDataset(s1, key, data)
        case Failure(e) => PackRun(s1, [], Some(e))
        case Success(s2) => PackRun(s2, [], None)
  }

  /**
    What `process_file` does to the archive: in append mode a key already
    there (as a dataset or a group) is skipped; otherwise the entry is stored
    unless `h5py` raises, which happens exactly on a clash and stores nothing.
   */
  lemma StoreEntryOutcome(s: Store, mode: Mode, key: Key, data: Bytes)
    requires |key| > 0
    ensures var r := StoreEntry(s, mode, key, data);
            && (r.failure.None? ==> Has(r.store, key))
            && (r.failure.None? && !(mode == Append && Has(s, key)) ==> r.store.datasets == s.datasets[key := data])
            && (mode == Append && Has(s, key) ==> r.store == s && r.log == [Skipped(key)] && r.failure.None?)
            && (r.failure.Some? <==> !(mode == Append && Has(s, key)) && (Has(s, key) || DatasetOnPath(s, Dirname(key))))
            && (r.failure.Some? ==> r.store.datasets == s.datasets && r.log == [])
            && (r.failure.Some? && Consistent(s) ==> r.store == s)
  {
    if !(mode == Append && Has(s, key)) {
      var parent := Dirname(key);
      assert parent == [] ==> !DatasetOnPath(s, parent);
      var grouped := if parent == [] then Success(s) else WithGroup(s, parent);
      if parent != [] {
        WithGroupEffect(s, parent);
      }
      if grouped.Success? {
        var s1 := grouped.value;
        WithDatasetEffect(s1, key, data);
        assert !IsPrefix(key, parent);
        assert Has(s1, key) <==> Has(s, key);
        DatasetOnPathFrame(s, s1, parent);
        assert Consistent(s) && Has(s, key) ==> s1 == s by {
          if Consistent(s) && Has(s, key) && parent != [] {
            forall h | h in s1.groups ensures h in s.groups {}
          }
        }
      }
    }
  }

  /**
    Whatever `process_file` meets, no payload already in the archive is
    overwritten, the only new dataset is `key`, and groups are only added, and
    only above `key`.
   */
  lemma StoreEntryKeeps(s: Store, mode: Mode, key: Key, data: Bytes)
    requires |key| > 0
    ensures var r := StoreEntry(s, mode, key, data);
            && (forall k :: k in s.datasets ==> k in r.store.datasets && r.store.datasets[k] == s.datasets[k])
            && (forall k :: k in r.store.datasets ==> k in s.datasets || k == key)
            && s.groups <= r.store.groups
            && (forall h :: h in r.store.groups ==> h in s.groups || IsProperPrefix(h, key))
  {
    if !(mode == Append && Has(s, key)) {
      var parent := Dirname(key);
      var grouped := if parent == [] then Success(s) else WithGroup(s, parent);
      if parent != [] {
        WithGroupEffect(s, parent);
      }
      if grouped.Success? {
        var s1 := grouped.value;
        WithDatasetEffect(s1, key, data);
        forall h | h in s1.groups && h !in s.groups ensures IsProperPrefix(h, key) {
          assert IsPrefix(h, parent);
        }
      }
    }
  }

  /** Storing an entry keeps the archive a tree, whatever the outcome. */
  lemma StoreEntryConsistent(s: Store, mode: Mode, key: Key, data: Bytes)
    requires |key| > 0
    ensures Consistent(s) ==> Consistent(StoreEntry(s, mode, key, data).store)
  {
    if !(mode == Append && Has(s, key)) {
      var parent := Dirname(key);
      var grouped := if parent == [] then Success(s) else WithGroup(s, parent);
      if parent != [] {
        WithGroupEffect(s, parent);
      }
      if grouped.Success? {
        WithDatasetEffect(grouped.value, key, data);
      }
    }
  }

  /** One item of the traversal: an entry is stored, an invalid source only warned about. */
  function Step(s: Store, mode: Mode, fs: FS, item: Item): PackRun
    requires item.Entry? ==> IsFile(fs, item.file) && |item.key| > 0
  {
    match item
    case Entry(key, file) => StoreEntry(s, mode, key, fs[file].data)
    case Invalid(source) => PackRun(s, [NotASource(source)], None)
  }

  /** `r` after notices `log` were already reported. */
  function Then(log: seq<Notice>, r: PackRun): PackRun {
    PackRun(r.store, log + r.log, r.failure)
  }

  lemma ThenThen(l1: seq<Notice>, l2: seq<Notice>, r: PackRun)
    ensures Then(l1, Then(l2, r)) == Then(l1 + l2, r)
  {
    assert l1 + (l2 + r.log) == (l1 + l2) + r.log;
  }

  /** The items processed in order until the first exception. */
  function PackItems(s: Store, mode: Mode, fs: FS, items: seq<Item>): (r: PackRun)
    requires Readable(fs, items)
    decreases |items|
  {
    if items == [] then PackRun(s, [], None)
    else
      var first := Step(s, mode, fs, items[0]);
      if first.failure.Some? then first
      else Then(first.log, PackItems(first.store, mode, fs, items[1..]))
  }

  /** The archive the mode opens: empty for 'w', as it was for 'a'. */
  function Opened(s: Store, mode: Mode): Store {
    if mode == Write then EMPTY else s
  }

  /** `pack_or_append_to_h5(sources, output_h5, file_mode)` on an archive holding `s`. */
  function Archived(s: Store, mode: Mode, fs: FS, sources: seq<Path>, walks: seq<seq<Path>>): PackRun
    requires WalksFit(fs, sources, walks)
  {
    PackItems(Opened(s, mode), mode, fs, Traverse(fs, sources, walks))
  }

  lemma PackItemsCons(s: Store, mode: Mode, fs: FS, x: Item, rest: seq<Item>)
    requires x.Entry? ==> IsFile(fs, x.file) && |x.key| > 0
    requires Readable(fs, rest)
    ensures Readable(fs, [x] + rest)
    ensures var first := Step(s, mode, fs, x);
            PackItems(s, mode, fs, [x] + rest) ==
              if first.failure.Some? then first else Then(first.log, PackItems(first.store, mode, fs, rest))
  {
    assert ([x] + rest)[0] == x && ([x] + rest)[1..] == rest;
    assert forall i :: 0 <= i < |rest| ==> rest[i] == ([x] + rest)[i + 1];
  }

  /** Item `j` processed after notices `log`: it stops the run or hands the items after it to the next store. */
  lemma PackItemsNext(s: Store, mode: Mode, fs: FS, items: seq<Item>, j: nat, log: seq<Notice>, next: PackRun)
    requires Readable(fs, items) && j < |items|
    requires next == Step(s, mode, fs, items[j])
    ensures Readable(fs, items[j..]) && Readable(fs, items[j + 1..])
    ensures next.failure.Some? ==> Then(log, PackItems(s, mode, fs, items[j..])) == Then(log, next)
    ensures next.failure.None? ==>
              Then(log, PackItems(s, mode, fs, items[j..])) == Then(log + next.log, PackItems(next.store, mode, fs, items[j + 1..]))
  {
    assert forall i :: j <= i < |items| ==> items[j..][i - j] == items[i];
    assert items[j..][0] == items[j] && items[j..][1..] == items[j + 1..];
    ThenThen(log, next.log, PackItems(next.store, mode, fs, items[j + 1..]));
  }

  lemma ReadableTail(fs: FS, items: seq<Item>)
    requires Readable(fs, items) && |items| > 0
    ensures Readable(fs, items[1..])
  {
    assert forall i :: 0 <= i < |items| - 1 ==> items[1..][i] == items[i + 1];
  }

  lemma {:induction false} PackItemsAppend(s: Store, mode: Mode, fs: FS, a: seq<Item>, b: seq<Item>)
    requires Readable(fs, a) && Readable(fs, b)
    ensures Readable(fs, a + b)
    ensures var ra := PackItems(s, mode, fs, a);
            PackItems(s, mode, fs, a + b) ==
              if ra.failure.Some? then ra else Then(ra.log, PackItems(ra.store, mode, fs, b))
    decreases |a|
  {
    if a == [] {
      assert a + b == b;
    } else {
      ReadableTail(fs, a);
      assert (a + b)[0] == a[0] && (a + b)[1..] == a[1..] + b;
      var first := Step(s, mode, fs, a[0]);
      PackItemsAppend(first.store, mode, fs, a[1..], b);
      if first.failure.None? {
        var rr := PackItems(first.store, mode, fs, a[1..]);
        if rr.failure.None? {
          ThenThen(first.log, rr.log, PackItems(rr.store, mode, fs, b));
        }
      }
    }
  }

  /** A run over `a + b` after notices `log`, once the run over `a` is known. */
  lemma PackItemsThen(s: Store, mode: Mode, fs: FS, a: seq<Item>, b: seq<Item>, log: seq<Notice>, ra: PackRun)
    requires Readable(fs, a) && Readable(fs, b)
    requires ra == PackItems(s, mode, fs, a)
    ensures Readable(fs, a + b)
    ensures ra.failure.Some? ==> Then(log, PackItems(s, mode, fs, a + b)) == Then(log, ra)
    ensures ra.failure.None? ==>
              Then(log, PackItems(s, mode, fs, a + b)) == Then(log + ra.log, PackItems(ra.store, mode, fs, b))
  {
    PackItemsAppend(s, mode, fs, a, b);
    ThenThen(log, ra.log, PackItems(ra.store, mode, fs, b));
  }

  lemma TraverseCons(fs: FS, sources: seq<Path>, walks: seq<seq<Path>>)
    requires WalksFit(fs, sources, walks) && |sources| > 0
    ensures WalksFit(fs, sources[1..], walks[1..])
    ensures Traverse(fs, sources, walks) == SourceItems(fs, sources[0], walks[0]) + Traverse(fs, sources[1..], walks[1..])
  {
    assert forall i :: 0 <= i < |sources| - 1 ==> sources[1..][i] == sources[i + 1] && walks[1..][i] == walks[i + 1];
  }

  // ---------------------------------------------------------------------
  // Extraction (src/h5.py:99-129)
  // ---------------------------------------------------------------------

  /** The exceptions extraction stops on. */
  datatype ExtractError =
    | KeyNotFound(key: Key)        // the "not found in archive" error and exit status 1
    | NotADataset(key: Key)        // reading a group's value
    | NotADirectory(path: Path)    // os.makedirs met a file
    | IsADirectory(path: Path)     // open(..., 'wb') met a directory

  datatype ExtractRun = ExtractRun(fs: FS, failure: Option<ExtractError>)

  /** `after` is `before` with files written at `dests` and directories added above them, nothing else. */
  predicate Grew(before: FS, after: FS, dests: set<Path>) {
    && (forall p :: p in before ==> p in after && (p !in dests ==> after[p] == before[p]))
    && (forall p :: p in after && p !in before && p !in dests ==>
          after[p] == Dir && exists d :: d in dests && IsProperPrefix(p, d))
  }

  /** Makes the parent directories of `dir + name` and writes `data` there. */
  function ExtractDataset(fs: FS, dir: Path, name: Key, data: Bytes): (r: ExtractRun)
    requires |name| > 0
    ensures r.failure.None? <==> !FileOnPath(fs, Dirname(dir + name)) && !IsDir(fs, dir + name)
    ensures r.failure.None? ==> dir + name in r.fs && r.fs[dir + name] == File(data)
    ensures Grew(fs, r.fs, {dir + name})
  {
    var dest := dir + name;
    match MakeDirs(fs, Dirname(dest))
    case Failure(p) => ExtractRun(fs, Some(NotADirectory(p)))
    case Success(fs1) =>
      assert dest !in Prefixes(Dirname(dest));
      assert forall p :: p in fs1 && p !in fs ==> IsProperPrefix(p, dest);
      match WriteFile(fs1, dest, data)
      case Failure(p) => ExtractRun(fs1, Some(IsADirectory(p)))
      case Success(fs2) => ExtractRun(fs2, None)
  }

  /** Extraction of one named key (src/h5.py:109-118). */
  function ExtractKey(s: Store, fs: FS, dir: Path, key: Key): (r: ExtractRun)
    requires |key| > 0
    ensures r.failure == Some(KeyNotFound(key)) <==> !Has(s, key)
    ensures !Has(s, key) ==> r.fs == fs
    ensures r.failure.None? ==> key in s.datasets && dir + key in r.fs && r.fs[dir + key] == File(s.datasets[key])
    ensures key in s.datasets ==> (r.failure.None? <==> !FileOnPath(fs, Dirname(dir + key)) && !IsDir(fs, dir + key))
    ensures Grew(fs, r.fs, {dir + key})
    ensures key !in s.datasets ==> r.failure.Some? && !(dir + key in r.fs && r.fs[dir + key].File? && dir + key !in fs)
  {
    if key in s.datasets then ExtractDataset(fs, dir, key, s.datasets[key])
    else if key in s.groups then
      match MakeDirs(fs, Dirname(dir + key))
      case Failure(p) => ExtractRun(fs, Some(NotADirectory(p)))
      case Success(fs1) =>
        assert forall p :: p in fs1 && p !in fs ==> IsProperPrefix(p, dir + key);
        ExtractRun(fs1, Some(NotADataset(key)))
    else ExtractRun(fs, Some(KeyNotFound(key)))
  }

  /** `visititems` hands the callback non-empty names only. */
  predicate VisitOrder(order: seq<Key>) {
    forall i :: 0 <= i < |order| ==> |order[i]| > 0
  }

  /** A whole `visititems` pass: every dataset and every group of the archive, each once. */
  predicate IsVisit(s: Store, order: seq<Key>) {
    && (forall k :: k in order ==> Has(s, k))
    && (forall k :: k in s.datasets ==> k in order)
    && (forall k :: k in s.groups ==> k in order)
    && (forall i, j :: 0 <= i < j < |order| ==> order[i] != order[j])
  }

  /** Extraction of every dataset, in the order `visititems` visits the archive's objects (src/h5.py:120-128). */
  function ExtractAll(s: Store, fs: FS, dir: Path, order: seq<Key>): (r: ExtractRun)
    requires VisitOrder(order)
    ensures forall p :: p in fs ==> p in r.fs
    decreases |order|
  {
    if order == [] then ExtractRun(fs, None)
    else
      assert VisitOrder(order[1..]) by {
        assert forall i :: 0 <= i < |order| - 1 ==> order[1..][i] == order[i + 1];
      }
      if order[0] !in s.datasets then ExtractAll(s, fs, dir, order[1..])
      else
        var first := ExtractDataset(fs, dir, order[0], s.datasets[order[0]]);
        if first.failure.Some? then first else ExtractAll(s, first.fs, dir, order[1..])
  }

  lemma ExtractAllCons(s: Store, fs: FS, dir: Path, order: seq<Key>)
    requires VisitOrder(order) && |order| > 0
    ensures VisitOrder(order[1..])
    ensures ExtractAll(s, fs, dir, order) ==
              if order[0] !in s.datasets then ExtractAll(s, fs, dir, order[1..])
              else
                var first := ExtractDataset(fs, dir, order[0], s.datasets[order[0]]);
                if first.failure.Some? then first else ExtractAll(s, first.fs, dir, order[1..])
  {
    assert forall i :: 0 <= i < |order| - 1 ==> order[1..][i] == order[i + 1];
  }

  /** `extract_h5_to_directory(h5_path, extract_dir, file_key)`; an empty key means the whole archive. */
  function Extraction(s: Store, fs: FS, dir: Path, key: Option<Key>, order: seq<Key>): ExtractRun
    requires VisitOrder(order)
  {
    if key.Some? && key.value != [] then ExtractKey(s, fs, dir, key.value)
    else ExtractAll(s, fs, dir, order)
  }

  // ---------------------------------------------------------------------
  // Listing (src/h5.py:131-142)
  // ---------------------------------------------------------------------

  /** The names `visitor` collects: those of the datasets, in visiting order. */
  function DatasetNames(s: Store, order: seq<Key>): (names: seq<string>)
    ensures forall n :: n in names <==> exists i :: 0 <= i < |order| && order[i] in s.datasets && Join(order[i]) == n
    ensures |names| <= |order|
  {
    if order == [] then []
    else
      var init := order[..|order| - 1];
      var last := order[|order| - 1];
      assert forall i :: 0 <= i < |init| ==> init[i] == order[i];
      DatasetNames(s, init) + (if last in s.datasets then [Join(last)] else [])
  }

  function Header(archive: string): string {
    "Contents of " + archive
  }

  // ---------------------------------------------------------------------
  // The open archive
  // ---------------------------------------------------------------------

  /** An open HDF5 file (`h5fobj`): its datasets and its groups. */
  class Archive {
    var datasets: map<Key, Bytes>
    var groups: set<Key>

    function Value(): Store
      reads this
    {
      Store(datasets, groups)
    }

    /** Opens a file that holds `s`. */
    constructor (s: Store)
      ensures Value() == s
    {
      datasets := s.datasets;
      groups := s.groups;
    }

    /** `h5fobj.require_group(g)`. */
    method RequireGroup(g: Key) returns (failure: Option<Conflict>)
      requires |g| > 0
      modifies this
      ensures WithGroup(old(Value()), g).Success? ==> failure.None? && Value() == WithGroup(old(Value()), g).value
      ensures WithGroup(old(Value()), g).Failure? ==> failure == Some(WithGroup(old(Value()), g).error) && Value() == old(Value())
    {
      match WithGroup(Value(), g)
      case Success(s) =>
        datasets, groups := s.datasets, s.groups;
        failure := None;
      case Failure(e) =>
        failure := Some(e);
    }

    /** `h5fobj.create_dataset(k, data=data)`. */
    method CreateDataset(k: Key, data: Bytes) returns (failure: Option<Conflict>)
      requires |k| > 0
      modifies this
      ensures WithDataset(old(Value()), k, data).Success? ==> failure.None? && Value() == WithDataset(old(Value()), k, data).value
      ensures WithDataset(old(Value()), k, data).Failure? ==> failure == Some(WithDataset(old(Value()), k, data).error) && Value() == old(Value())
    {
      match WithDataset(Value(), k, data)
      case Success(s) =>
        datasets, groups := s.datasets, s.groups;
        failure := None;
      case Failure(e) =>
        failure := Some(e);
    }

    /** The inner `process_file(file_path, base_dir)`. */
    method ProcessFile(mode: Mode, fs: FS, file: Path, base: Option<Path>) returns (log: seq<Notice>, failure: Option<Conflict>)
      requires IsFile(fs, file)
      requires base.Some? ==> IsProperPrefix(base.value, file)
      modifies this
      ensures PackRun(Value(), log, failure) == StoreEntry(old(Value()), mode, DeriveKey(file, base), fs[file].data)
    {
      var key := DeriveKey(file, base);
      log, failure := [], None;
      if mode == Append && (key in datasets || key in groups) {
        log := [Skipped(key)];
        return;
      }
      var parent := Dirname(key);
      if parent != [] {
        failure := RequireGroup(parent);
        if failure.Some? {
          return;
        }
      }
      var content := fs[file].data;
      failure := CreateDataset(key, content);
    }

    /** The `os.walk` branch of the loop over the sources: every file found is processed, relative to `source`. */
    method PackWalk(mode: Mode, fs: FS, source: Path, walk: seq<Path>) returns (log: seq<Notice>, failure: Option<Conflict>)
      requires forall i :: 0 <= i < |walk| ==> IsFile(fs, walk[i]) && IsProperPrefix(source, walk[i])
      modifies this
      ensures PackRun(Value(), log, failure) == PackItems(old(Value()), mode, fs, DirItems(source, walk))
    {
      log, failure := [], None;
      ghost var items := DirItems(source, walk);
      ghost var whole := PackItems(Value(), mode, fs, items);
      var j := 0;
      assert items[j..] == items;
      while j < |walk|
        invariant 0 <= j <= |walk|
        invariant whole == PackItems(old(Value()), mode, fs, items)
        invariant whole == Then(log, PackItems(Value(), mode, fs, items[j..]))
      {
        assert items[j] == Entry(DeriveKey(walk[j], Some(source)), walk[j]);
        ghost var before := Value();
        var notices, err := ProcessFile(mode, fs, walk[j], Some(source));
        PackItemsNext(before, mode, fs, items, j, log, PackRun(Value(), notices, err));
        log := log + notices;
        if err.Some? {
          failure := err;
          assert whole == PackRun(Value(), log, failure);
          return;
        }
        j := j + 1;
      }
    }

    /** One source of the loop in `pack_or_append_to_h5`: a directory is walked, a file stored, anything else warned about. */
    method PackSource(mode: Mode, fs: FS, source: Path, walk: seq<Path>) returns (log: seq<Notice>, failure: Option<Conflict>)
      requires IsDir(fs, source) ==> IsWalk(fs, source, walk)
      modifies this
      ensures PackRun(Value(), log, failure) == PackItems(old(Value()), mode, fs, SourceItems(fs, source, walk))
    {
      if IsDir(fs, source) {
        log, failure := PackWalk(mode, fs, source, walk);
      } else if IsFile(fs, source) {
        PackItemsCons(Value(), mode, fs, Entry(Basename(source), source), []);
        log, failure := ProcessFile(mode, fs, source, None);
      } else {
        PackItemsCons(Value(), mode, fs, Invalid(source), []);
        log, failure := [NotASource(source)], None;
      }
    }

    /** `pack_or_append_to_h5(sources, output_h5, file_mode)`, with `walks[i]` the walk of `sources[i]`. */
    method Pack(mode: Mode, fs: FS, sources: seq<Path>, walks: seq<seq<Path>>) returns (log: seq<Notice>, failure: Option<Conflict>)
      requires WalksFit(fs, sources, walks)
      modifies this
      ensures PackRun(Value(), log, failure) == Archived(old(Value()), mode, fs, sources, walks)
    {
      if mode == Write {
        datasets, groups := map[], {};
      }
      ghost var whole := PackItems(Value(), mode, fs, Traverse(fs, sources, walks));
      assert whole == Archived(old(Value()), mode, fs, sources, walks);
      log, failure := [], None;
      var i := 0;
      assert sources[i..] == sources && walks[i..] == walks;
      while i < |sources|
        invariant 0 <= i <= |sources|
        invariant WalksFit(fs, sources[i..], walks[i..])
        invariant whole == Archived(old(Value()), mode, fs, sources, walks)
        invariant whole == Then(log, PackItems(Value(), mode, fs, Traverse(fs, sources[i..], walks[i..])))
      {
        TraverseCons(fs, sources[i..], walks[i..]);
        assert sources[i..][0] == sources[i] && walks[i..][0] == walks[i];
        assert sources[i..][1..] == sources[i + 1..] && walks[i..][1..] == walks[i + 1..];
        ghost var here := SourceItems(fs, sources[i], walks[i]);
        ghost var later := Traverse(fs, sources[i + 1..], walks[i + 1..]);
        ghost var before := Value();
        var notices, err := PackSource(mode, fs, sources[i], walks[i]);
        PackItemsThen(before, mode, fs, here, later, log, PackRun(Value(), notices, err));
        log := log + notices;
        if err.Some? {
          failure := err;
          assert whole == PackRun(Value(), log, failure);
          return;
        }
        i := i + 1;
      }
    }

    /** The `extract_dataset` callback of `visititems`: a dataset is written below `dir`, a group is passed over. */
    method ExtractVisited(fs: FS, dir: Path, name: Key) returns (fs': FS, failure: Option<ExtractError>)
      requires |name| > 0
      ensures name in datasets ==> ExtractRun(fs', failure) == ExtractDataset(fs, dir, name, datasets[name])
      ensures name !in datasets ==> fs' == fs && failure.None?
    {
      fs', failure := fs, None;
      if name in datasets {
        var dest := dir + name;
        var made := MakeDirs(fs, Dirname(dest));
        if made.Failure? {
          return fs, Some(NotADirectory(made.error));
        }
        var written := WriteFile(made.value, dest, datasets[name]);
        if written.Failure? {
          return made.value, Some(IsADirectory(written.error));
        }
        fs' := written.value;
      }
    }

    /** `extract_h5_to_directory(h5_path, dir, key)` writing into the filesystem `out`. */
    method Extract(out: FS, dir: Path, key: Option<Key>, order: seq<Key>) returns (fs: FS, failure: Option<ExtractError>)
      requires VisitOrder(order)
      ensures ExtractRun(fs, failure) == Extraction(Value(), out, dir, key, order)
    {
      if key.Some? && key.value != [] {
        var k := key.value;
        if !(k in datasets || k in groups) {
          return out, Some(KeyNotFound(k));
        }
        var dest := dir + k;
        var made := MakeDirs(out, Dirname(dest));
        if made.Failure? {
          return out, Some(NotADirectory(made.error));
        }
        if k !in datasets {
          return made.value, Some(NotADataset(k));
        }
        var written := WriteFile(made.value, dest, datasets[k]);
        if written.Failure? {
          return made.value, Some(IsADirectory(written.error));
        }
        return written.value, None;
      }
      fs, failure := out, None;
      var i := 0;
      assert order[i..] == order;
      while i < |order|
        invariant 0 <= i <= |order|
        invariant failure.None?
        invariant ExtractAll(Value(), out, dir, order) == ExtractAll(Value(), fs, dir, order[i..])
      {
        ExtractAllCons(Value(), fs, dir, order[i..]);
        assert order[i..][0] == order[i] && order[i..][1..] == order[i + 1..];
        fs, failure := ExtractVisited(fs, dir, order[i]);
        if failure.Some? {
          return;
        }
        i := i + 1;
      }
    }

    /** `list_h5_contents(h5_path)`: the lines it prints. */
    method List(archive: string, order: seq<Key>) returns (lines: seq<string>)
      ensures |lines| >= 1 && lines[0] == Header(archive)
      ensures Sorted(lines[1..])
      ensures multiset(lines[1..]) == multiset(DatasetNames(Value(), order))
    {
      var keys: seq<string> := [];
      var i := 0;
      while i < |order|
        invariant 0 <= i <= |order|
        invariant keys == DatasetNames(Value(), order[..i])
      {
        assert order[..i + 1][..i] == order[..i];
        if order[i] in datasets {
          keys := keys + [Join(order[i])];
        }
        i := i + 1;
      }
      assert order[..|order|] == order;
      lines := [Header(archive)] + Sort(keys);
    }
  }
}
