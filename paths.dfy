/** Optional values and results, used for the archive's and the filesystem's error paths. */
module Wrappers {
  datatype Option<T> = None | Some(value: T)

  datatype Result<T, E> = Success(value: T) | Failure(error: E)
}

/**
  Paths of the filesystem and keys of the archive. Both are sequences of path
  segments: `src/sub/file.txt` is `["src", "sub", "file.txt"]`, and the
  filesystem root is the empty path.
 */
module Paths {
  import opened Wrappers

  type Segment = string
  type Path = seq<Segment>
  /** An archive key: a dataset or group name, relative to the archive's root. */
  type Key = seq<Segment>
  type Bytes = seq<bv8>

  predicate IsPrefix(p: Path, q: Path) {
    |p| <= |q| && q[..|p|] == p
  }

  predicate IsProperPrefix(p: Path, q: Path) {
    |p| < |q| && q[..|p|] == p
  }

  /** The non-empty prefixes of `p`, `p` included: the directories `os.makedirs(p)` makes. */
  function Prefixes(p: Path): (r: set<Path>)
    ensures forall q :: q in r <==> 0 < |q| && IsPrefix(q, p)
    decreases |p|
  {
    if p == [] then {}
    else
      var d := p[..|p| - 1];
      assert forall q :: IsPrefix(q, p) && q != p ==> IsPrefix(q, d) by {
        forall q | IsPrefix(q, p) && q != p ensures IsPrefix(q, d) {
          assert |q| < |p|;
          assert d[..|q|] == p[..|q|];
        }
      }
      assert forall q :: IsPrefix(q, d) ==> IsPrefix(q, p) by {
        forall q | IsPrefix(q, d) ensures IsPrefix(q, p) {
          assert p[..|q|] == d[..|q|];
        }
      }
      Prefixes(d) + {p}
  }

  /** A prefix of a prefix of `p` is a prefix of `p`: what `os.makedirs` makes is closed under `dirname`. */
  lemma PrefixesClosed(p: Path)
    ensures forall h, i :: h in Prefixes(p) && 0 < i < |h| ==> h[..i] in Prefixes(p)
  {
    forall h, i | h in Prefixes(p) && 0 < i < |h| ensures h[..i] in Prefixes(p) {
      assert p[..i] == h[..i];
    }
  }

  /** `os.path.dirname`: everything but the last segment. */
  function Dirname(p: Path): (d: Path)
    requires |p| > 0
    ensures IsProperPrefix(d, p) && |d| == |p| - 1
  {
    p[..|p| - 1]
  }

  /** `os.path.basename`, as a one-segment key. */
  function Basename(p: Path): (k: Key)
    requires |p| > 0
    ensures |k| == 1 && Dirname(p) + k == p
  {
    [p[|p| - 1]]
  }

  /** `os.path.relpath(file, base)` for a file inside the directory `base`. */
  function Relative(file: Path, base: Path): (k: Key)
    requires IsProperPrefix(base, file)
    ensures |k| > 0 && base + k == file
  {
    file[|base|..]
  }

  /**
    The key `process_file` gives a file: its path relative to the directory
    source it was found under, or its base name when it is itself a source.
   */
  function DeriveKey(file: Path, base: Option<Path>): (k: Key)
    requires base.Some? ==> IsProperPrefix(base.value, file)
    requires base.None? ==> |file| > 0
    ensures |k| > 0
    ensures base.Some? ==> base.value + k == file
    ensures base.None? ==> |k| == 1 && k[0] == file[|file| - 1]
  {
    match base
    case Some(dir) => Relative(file, dir)
    case None => Basename(file)
  }
}
