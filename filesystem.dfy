/**
  The filesystem the archiver reads from and extracts into: a map from paths
  to files and directories. The root (the empty path) is always a directory
  and is never an entry of the map.
 */
module FileSystem {
  import opened Wrappers
  import opened Paths

  datatype Node = File(data: Bytes) | Dir

  type FS = map<Path, Node>

  /** `os.path.isdir`. */
  predicate IsDir(fs: FS, p: Path) {
    p == [] || (p in fs && fs[p].Dir?)
  }

  /** `os.path.isfile`. */
  predicate IsFile(fs: FS, p: Path) {
    p != [] && p in fs && fs[p].File?
  }

  /** Every entry hangs below directories, as on a real filesystem. */
  predicate WellFormed(fs: FS) {
    && [] !in fs
    && forall p, i :: p in fs && 0 < i < |p| ==> p[..i] in fs && fs[p[..i]].Dir?
  }

  /**
    What `os.walk(root)` yields, flattened to the files' paths: every file
    below `root`, each once, in an order the walk chooses.
   */
  predicate IsWalk(fs: FS, root: Path, files: seq<Path>) {
    && (forall i :: 0 <= i < |files| ==> IsFile(fs, files[i]) && IsProperPrefix(root, files[i]))
    && (forall f :: f in fs && IsFile(fs, f) && IsProperPrefix(root, f) ==> f in files)
    && (forall i, j :: 0 <= i < j < |files| ==> files[i] != files[j])
  }

  /** Some directory on the way to `d`, `d` included, is a file. */
  predicate FileOnPath(fs: FS, d: Path)
    decreases |d|
  {
    |d| > 0 && (IsFile(fs, d) || FileOnPath(fs, Dirname(d)))
  }

  lemma {:induction false} FileOnPathMeans(fs: FS, d: Path)
    ensures FileOnPath(fs, d) <==> exists q :: q in Prefixes(d) && IsFile(fs, q)
    decreases |d|
  {
    if |d| > 0 {
      FileOnPathMeans(fs, Dirname(d));
      assert Prefixes(d) == Prefixes(Dirname(d)) + {d};
    }
  }

  /**
    `os.makedirs(d, exist_ok=True)`: makes the parent first, then `d`; fails at
    the first component that is a file, otherwise makes every missing
    component a directory and changes nothing else.
   */
  function MakeDirs(fs: FS, d: Path): (r: Result<FS, Path>)
    ensures r.Failure? <==> FileOnPath(fs, d)
    ensures r.Success? ==> forall q :: q in Prefixes(d) ==> IsDir(r.value, q)
    ensures r.Success? ==> forall p :: p in fs ==> p in r.value && r.value[p] == fs[p]
    ensures r.Success? ==> forall p :: p in r.value && p !in fs ==> p in Prefixes(d) && r.value[p] == Dir
    decreases |d|
  {
    if d == [] then Success(fs)
    else
      assert Prefixes(d) == Prefixes(Dirname(d)) + {d};
      match MakeDirs(fs, Dirname(d))
      case Failure(q) => Failure(q)
      case Success(made) =>
        if IsFile(fs, d) then Failure(d)
        else if d in fs then Success(made)
        else Success(made[d := Dir])
  }

  /** `open(p, 'wb').write(data)`: fails on a directory, otherwise (over)writes the file. */
  function WriteFile(fs: FS, p: Path, data: Bytes): (r: Result<FS, Path>)
    ensures r.Failure? <==> IsDir(fs, p)
    ensures r.Success? ==> p in r.value && r.value[p] == File(data)
    ensures r.Success? ==> r.value.Keys == fs.Keys + {p}
    ensures r.Success? ==> forall q :: q in fs && q != p ==> r.value[q] == fs[q]
  {
    if IsDir(fs, p) then Failure(p) else Success(fs[p := File(data)])
  }
}
