/**
  What extraction promises: a missing key writes nothing, a present dataset is
  written with exactly its bytes, the whole archive lands below the output
  directory as files for datasets and directories for groups, and an archive
  created from a directory extracts back to that directory's files.
 */
module ExtractProperties {
  import opened Wrappers
  import opened Paths
  import opened FileSystem
  import opened ArchiveStore
  import opened H5
  import opened PackProperties

  /**
    Below `dir` lies only what extracting `s` writes: files holding a
    dataset's bytes under its key, directories for its groups; and the way to
    `dir` is made of directories.
   */
  predicate ExtractedInto(fs: FS, s: Store, dir: Path) {
    && (forall q :: q in Prefixes(dir) ==> IsDir(fs, q))
    && (forall p :: p in fs && IsProperPrefix(dir, p) && fs[p].File? ==>
          p[|dir|..] in s.datasets && fs[p].data == s.datasets[p[|dir|..]])
    && (forall p :: p in fs && IsProperPrefix(dir, p) && fs[p].Dir? ==> p[|dir|..] in s.groups)
  }

  /**
    Nothing in the way of extracting `s` into `dir`: the way to `dir` is made
    of directories, and below it every group's path is absent or a directory
    and every dataset's path is absent or a file. Any other entry may be there.
   */
  predicate Unobstructed(fs: FS, s: Store, dir: Path) {
    && (forall q :: q in Prefixes(dir) ==> IsDir(fs, q))
    && (forall g :: g in s.groups && dir + g in fs ==> fs[dir + g].Dir?)
    && (forall k :: k in s.datasets && dir + k in fs ==> fs[dir + k].File?)
  }

  /** A directory holding only this archive's extraction has nothing in the way. */
  lemma ExtractedIsUnobstructed(fs: FS, s: Store, dir: Path)
    requires Consistent(s) && ExtractedInto(fs, s, dir)
    ensures Unobstructed(fs, s, dir)
  {
    forall g | g in s.groups && dir + g in fs ensures fs[dir + g].Dir? {
      assert IsProperPrefix(dir, dir + g) && (dir + g)[|dir|..] == g;
    }
    forall k | k in s.datasets && dir + k in fs ensures fs[dir + k].File? {
      assert IsProperPrefix(dir, dir + k) && (dir + k)[|dir|..] == k;
    }
  }

  /**
    The default target, the current directory, holds the archive file itself:
    a directory holding just one file, named other than any group, has nothing
    in the way.
   */
  lemma ArchiveInTarget(fs: FS, s: Store, dir: Path, name: Segment)
    requires Consistent(s) && WellFormed(fs) && IsDir(fs, dir)
    requires [name] !in s.groups
    requires forall p :: p in fs && IsProperPrefix(dir, p) ==> p == dir + [name] && fs[p].File?
    ensures Unobstructed(fs, s, dir)
  {
    forall q | q in Prefixes(dir) ensures IsDir(fs, q) {
      if |q| < |dir| {
        assert dir[..|q|] == q;
      }
    }
    forall g | g in s.groups ensures dir + g !in fs {
      assert IsProperPrefix(dir, dir + g) && (dir + g)[|dir|..] == g;
    }
    forall k | k in s.datasets && dir + k in fs ensures fs[dir + k].File? {
      assert IsProperPrefix(dir, dir + k);
    }
  }

  /** With nothing in the way, writing a dataset of a well-formed archive cannot fail. */
  lemma UnobstructedWayIsFree(s: Store, fs: FS, dir: Path, k: Key)
    requires Consistent(s) && Unobstructed(fs, s, dir) && k in s.datasets
    ensures |k| > 0 && !FileOnPath(fs, Dirname(dir + k)) && !IsDir(fs, dir + k)
  {
    var dest := dir + k;
    FileOnPathMeans(fs, Dirname(dest));
    forall q | q in Prefixes(Dirname(dest)) ensures !IsFile(fs, q) {
      if |q| <= |dir| {
        assert dir[..|q|] == q;
        assert q in Prefixes(dir);
      } else {
        var j := q[|dir|..];
        assert 0 < |j| < |k| && k[..|j|] == j;
        assert j in s.groups && q == dir + j;
      }
    }
  }

  /** Writing one dataset and the directories above it leaves nothing in the way of the rest. */
  lemma UnobstructedGrowth(s: Store, fs: FS, after: FS, dir: Path, k: Key)
    requires Consistent(s) && Unobstructed(fs, s, dir) && k in s.datasets
    requires Grew(fs, after, {dir + k})
    requires dir + k in after && after[dir + k] == File(s.datasets[k])
    ensures Unobstructed(after, s, dir)
  {
    var dest := dir + k;
    forall q | q in Prefixes(dir) ensures IsDir(after, q) {
      assert q != dest;
    }
    forall g | g in s.groups && dir + g in after ensures after[dir + g].Dir? {
      assert (dir + g)[|dir|..] == g;
    }
    forall p | p in after && p !in fs && p != dest && IsProperPrefix(dir, p)
      ensures p[|dir|..] in s.groups
    {
      var j := p[|dir|..];
      assert IsProperPrefix(p, dest);
      assert 0 < |j| < |k| && k[..|j|] == j;
    }
    forall j | j in s.datasets && dir + j in after ensures after[dir + j].File? {
      assert IsProperPrefix(dir, dir + j) && (dir + j)[|dir|..] == j;
    }
  }

  /** An existing directory with nothing below it is ready for any archive. */
  lemma EmptyDirectoryReady(fs: FS, s: Store, dir: Path)
    requires WellFormed(fs) && IsDir(fs, dir)
    requires forall p :: p in fs ==> !IsProperPrefix(dir, p)
    ensures ExtractedInto(fs, s, dir)
  {
    forall q | q in Prefixes(dir) ensures IsDir(fs, q) {
      if |q| < |dir| {
        assert dir[..|q|] == q;
      }
    }
  }

  /** Nothing below `dir` stands in the way of writing a dataset of a well-formed archive. */
  lemma WayIsFree(s: Store, fs: FS, dir: Path, k: Key)
    requires Consistent(s) && ExtractedInto(fs, s, dir) && k in s.datasets
    ensures |k| > 0 && !FileOnPath(fs, Dirname(dir + k)) && !IsDir(fs, dir + k)
  {
    var dest := dir + k;
    assert IsProperPrefix(dir, dest) && dest[|dir|..] == k;
    FileOnPathMeans(fs, Dirname(dest));
    forall q | q in Prefixes(Dirname(dest)) ensures !IsFile(fs, q) {
      if |q| <= |dir| {
        assert dir[..|q|] == q;
        assert q in Prefixes(dir);
      } else {
        var j := q[|dir|..];
        assert 0 < |j| < |k| && k[..|j|] == j;
        assert j in s.groups;
        assert IsProperPrefix(dir, q);
      }
    }
    if dest in fs {
      assert fs[dest].Dir? ==> k in s.groups;
    }
  }

  /** Adding the file of dataset `k` and directories above it keeps `dir` in the extracted state. */
  lemma GrowthKeepsExtracted(s: Store, fs: FS, after: FS, dir: Path, k: Key)
    requires Consistent(s) && ExtractedInto(fs, s, dir) && k in s.datasets
    requires Grew(fs, after, {dir + k})
    requires dir + k in after && after[dir + k] == File(s.datasets[k])
    ensures ExtractedInto(after, s, dir)
  {
    var dest := dir + k;
    assert dest[|dir|..] == k;
    forall q | q in Prefixes(dir) ensures IsDir(after, q) {
      assert q != dest;
    }
    forall p | p in after && IsProperPrefix(dir, p) && after[p].Dir?
      ensures p[|dir|..] in s.groups
    {
      if p !in fs {
        var j := p[|dir|..];
        assert IsProperPrefix(p, dest);
        assert 0 < |j| < |k| && k[..|j|] == j;
      }
    }
  }

  /**
    Writing one dataset of a well-formed archive into a directory that holds
    only that archive's extraction succeeds, writes its bytes at `dir + k`, and
    keeps the directory in that state.
   */
  lemma ExtractDatasetFaithful(s: Store, fs: FS, dir: Path, k: Key)
    requires Consistent(s) && ExtractedInto(fs, s, dir) && k in s.datasets
    ensures |k| > 0
    ensures var r := ExtractDataset(fs, dir, k, s.datasets[k]);
            r.failure.None? && ExtractedInto(r.fs, s, dir)
  {
    WayIsFree(s, fs, dir, k);
    var r := ExtractDataset(fs, dir, k, s.datasets[k]);
    GrowthKeepsExtracted(s, fs, r.fs, dir, k);
  }

  /**
    Into any target: a run that raises nothing leaves alone every file that is
    either not written or already holds the bytes written over it.
   */
  lemma {:induction false} ExtractAllKeeps(s: Store, fs: FS, dir: Path, order: seq<Key>, p: Path)
    requires VisitOrder(order) && p in fs && fs[p].File?
    requires forall k :: k in order && k in s.datasets && dir + k == p ==> fs[p] == File(s.datasets[k])
    ensures var r := ExtractAll(s, fs, dir, order);
            r.failure.None? ==> p in r.fs && r.fs[p] == fs[p]
    decreases |order|
  {
    if order != [] {
      ExtractAllCons(s, fs, dir, order);
      var k := order[0];
      assert forall j :: j in order[1..] ==> j in order;
      if k in s.datasets {
        var first := ExtractDataset(fs, dir, k, s.datasets[k]);
        if first.failure.None? {
          ExtractAllKeeps(s, first.fs, dir, order[1..], p);
        }
      } else {
        ExtractAllKeeps(s, fs, dir, order[1..], p);
      }
    }
  }

  /**
    Into any target, a whole-archive extraction that raises nothing leaves
    every visited dataset as a file at `dir + key` holding exactly its bytes.
   */
  lemma {:induction false} ExtractAllWrites(s: Store, fs: FS, dir: Path, order: seq<Key>)
    requires VisitOrder(order)
    ensures var r := ExtractAll(s, fs, dir, order);
            r.failure.None? ==>
              forall k :: k in order && k in s.datasets ==> dir + k in r.fs && r.fs[dir + k] == File(s.datasets[k])
    decreases |order|
  {
    if order != [] {
      ExtractAllCons(s, fs, dir, order);
      var k := order[0];
      var rest := order[1..];
      assert forall j :: j in order ==> j == k || j in rest;
      if k in s.datasets {
        var first := ExtractDataset(fs, dir, k, s.datasets[k]);
        if first.failure.None? {
          ExtractAllWrites(s, first.fs, dir, rest);
          forall j | j in rest && j in s.datasets && dir + j == dir + k
            ensures first.fs[dir + k] == File(s.datasets[j])
          {
            assert j == (dir + j)[|dir|..];
          }
          ExtractAllKeeps(s, first.fs, dir, rest, dir + k);
        }
      } else {
        ExtractAllWrites(s, fs, dir, rest);
      }
    }
  }

  /**
    Extracting the whole of a well-formed archive into a directory that holds
    only its extraction (an empty one, say) raises nothing, and afterwards
    every dataset the visit reaches is a file at `dir + key` with exactly its
    bytes; groups become directories at most.
   */
  lemma {:induction false} ExtractAllFaithful(s: Store, fs: FS, dir: Path, order: seq<Key>)
    requires Consistent(s) && ExtractedInto(fs, s, dir) && VisitOrder(order)
    ensures var r := ExtractAll(s, fs, dir, order);
            && r.failure.None?
            && ExtractedInto(r.fs, s, dir)
            && forall k :: k in order && k in s.datasets ==> dir + k in r.fs && r.fs[dir + k] == File(s.datasets[k])
    decreases |order|
  {
    if order != [] {
      ExtractAllCons(s, fs, dir, order);
      var k := order[0];
      var next := fs;
      if k in s.datasets {
        ExtractDatasetFaithful(s, fs, dir, k);
        next := ExtractDataset(fs, dir, k, s.datasets[k]).fs;
      }
      ExtractAllFaithful(s, next, dir, order[1..]);
      var r := ExtractAll(s, fs, dir, order);
      forall j | j in order && j in s.datasets ensures dir + j in r.fs && r.fs[dir + j] == File(s.datasets[j]) {
        if j == k {
          assert dir + j in next;
        } else {
          assert j in order[1..];
        }
        assert IsProperPrefix(dir, dir + j) && (dir + j)[|dir|..] == j;
        assert r.fs[dir + j].Dir? ==> j in s.groups;
      }
    }
  }

  /**
    Into a target with nothing in the way (an empty directory, or the current
    directory holding only the archive file), extracting a well-formed archive
    raises nothing, whatever the visit order.
   */
  lemma {:induction false} ExtractAllSucceeds(s: Store, fs: FS, dir: Path, order: seq<Key>)
    requires Consistent(s) && Unobstructed(fs, s, dir) && VisitOrder(order)
    ensures ExtractAll(s, fs, dir, order).failure.None?
    decreases |order|
  {
    if order != [] {
      ExtractAllCons(s, fs, dir, order);
      var k := order[0];
      if k in s.datasets {
        UnobstructedWayIsFree(s, fs, dir, k);
        var first := ExtractDataset(fs, dir, k, s.datasets[k]);
        UnobstructedGrowth(s, fs, first.fs, dir, k);
        ExtractAllSucceeds(s, first.fs, dir, order[1..]);
      } else {
        ExtractAllSucceeds(s, fs, dir, order[1..]);
      }
    }
  }

  /** Growth in two steps is growth by both steps' destinations. */
  lemma GrewChain(a: FS, b: FS, c: FS, d1: set<Path>, d2: set<Path>, d: set<Path>)
    requires Grew(a, b, d1) && Grew(b, c, d2) && d1 <= d && d2 <= d
    ensures Grew(a, c, d)
  {
    forall p | p in c && p !in a && p !in d
      ensures c[p] == Dir && exists x :: x in d && IsProperPrefix(p, x)
    {
      if p in b {
        var x :| x in d1 && IsProperPrefix(p, x);
        assert x in d;
      } else {
        var x :| x in d2 && IsProperPrefix(p, x);
        assert x in d;
      }
    }
  }

  /**
    Whatever the target and however the run ends, a whole-archive extraction
    changes only the paths of the visited datasets and adds only directories
    above them; nothing else is touched, removed or replaced.
   */
  lemma {:induction false} ExtractAllGrew(s: Store, fs: FS, dir: Path, order: seq<Key>)
    requires VisitOrder(order)
    ensures Grew(fs, ExtractAll(s, fs, dir, order).fs, set k | k in order && k in s.datasets :: dir + k)
    decreases |order|
  {
    var dests := set k | k in order && k in s.datasets :: dir + k;
    if order != [] {
      ExtractAllCons(s, fs, dir, order);
      var k := order[0];
      var rest := order[1..];
      var later := set j | j in rest && j in s.datasets :: dir + j;
      assert later <= dests by {
        forall x | x in later ensures x in dests {
          var j :| j in rest && j in s.datasets && x == dir + j;
          assert j in order;
        }
      }
      var r := ExtractAll(s, fs, dir, order);
      if k in s.datasets {
        var first := ExtractDataset(fs, dir, k, s.datasets[k]);
        assert dir + k in dests;
        if first.failure.Some? {
          GrewChain(fs, first.fs, first.fs, {dir + k}, {}, dests);
        } else {
          ExtractAllGrew(s, first.fs, dir, rest);
          GrewChain(fs, first.fs, r.fs, {dir + k}, later, dests);
        }
      } else {
        ExtractAllGrew(s, fs, dir, rest);
        GrewChain(fs, fs, r.fs, {}, later, dests);
      }
    }
  }

  /**
    A whole `visititems` pass extracts every dataset of the archive: whatever
    the target holds, a run that raises nothing leaves each dataset at
    `dir + key` with exactly its bytes, and into a target with nothing in the
    way the run raises nothing.
   */
  lemma ExtractWholeArchive(s: Store, fs: FS, dir: Path, order: seq<Key>)
    requires Consistent(s) && IsVisit(s, order)
    ensures VisitOrder(order)
    ensures var r := ExtractAll(s, fs, dir, order);
            && (r.failure.None? ==>
                  forall k :: k in s.datasets ==> dir + k in r.fs && r.fs[dir + k] == File(s.datasets[k]))
            && (Unobstructed(fs, s, dir) ==> r.failure.None?)
  {
    assert VisitOrder(order) by {
      forall i | 0 <= i < |order| ensures |order[i]| > 0 {
        assert order[i] in order;
      }
    }
    ExtractAllWrites(s, fs, dir, order);
    if Unobstructed(fs, s, dir) {
      ExtractAllSucceeds(s, fs, dir, order);
    }
  }

  /**
    `extract_h5_to_directory(archive, dir, key)` for a dataset of a
    well-formed archive, into a target with nothing in the way, writes exactly
    its bytes at `dir + key`; besides that file it only adds directories above it.
   */
  lemma ExtractKeyFaithful(s: Store, fs: FS, dir: Path, key: Key, order: seq<Key>)
    requires Consistent(s) && Unobstructed(fs, s, dir) && key in s.datasets && VisitOrder(order)
    ensures |key| > 0
    ensures var r := Extraction(s, fs, dir, Some(key), order);
            && r.failure.None?
            && dir + key in r.fs && r.fs[dir + key] == File(s.datasets[key])
            && forall p :: p in r.fs && p != dir + key ==> (p in fs && r.fs[p] == fs[p]) || r.fs[p] == Dir
  {
    UnobstructedWayIsFree(s, fs, dir, key);
  }

  /**
    Create then extract: an archive made from one directory, extracted whole
    into an empty directory, gives back every file of the directory at the
    same relative path with the same bytes.
   */
  lemma CreateThenExtract(s: Store, fs: FS, src: Path, walk: seq<Path>, out: FS, dir: Path, order: seq<Key>)
    requires WellFormed(fs) && IsDir(fs, src) && IsWalk(fs, src, walk)
    requires WellFormed(out) && IsDir(out, dir) && forall p :: p in out ==> !IsProperPrefix(dir, p)
    requires VisitOrder(order)
    requires forall f :: f in walk ==> IsProperPrefix(src, f) && Relative(f, src) in order
    ensures WalksFit(fs, [src], [walk])
    ensures var created := Archived(s, Write, fs, [src], [walk]);
            var extracted := Extraction(created.store, out, dir, None, order);
            && created.failure.None?
            && extracted.failure.None?
            && forall f :: f in walk ==>
                 dir + Relative(f, src) in extracted.fs && extracted.fs[dir + Relative(f, src)] == File(fs[f].data)
  {
    CreateDirectoryStores(s, fs, src, walk);
    var stored := Archived(s, Write, fs, [src], [walk]).store;
    EmptyDirectoryReady(out, stored, dir);
    ExtractAllFaithful(stored, out, dir, order);
  }

  /**
    The same round trip when extraction visits the whole created archive, as
    `visititems` does: no assumption on the visit beyond that it is complete.
   */
  lemma CreateThenExtractWhole(s: Store, fs: FS, src: Path, walk: seq<Path>, out: FS, dir: Path, order: seq<Key>)
    requires WellFormed(fs) && IsDir(fs, src) && IsWalk(fs, src, walk) && WalksFit(fs, [src], [walk])
    requires WellFormed(out) && IsDir(out, dir) && forall p :: p in out ==> !IsProperPrefix(dir, p)
    requires IsVisit(Archived(s, Write, fs, [src], [walk]).store, order)
    ensures var created := Archived(s, Write, fs, [src], [walk]);
            && VisitOrder(order)
            && created.failure.None?
            && var extracted := Extraction(created.store, out, dir, None, order);
               && extracted.failure.None?
               && forall f :: f in walk ==>
                    dir + Relative(f, src) in extracted.fs && extracted.fs[dir + Relative(f, src)] == File(fs[f].data)
  {
    CreateDirectoryStores(s, fs, src, walk);
    var stored := Archived(s, Write, fs, [src], [walk]).store;
    EmptyDirectoryReady(out, stored, dir);
    ExtractedIsUnobstructed(out, stored, dir);
    ExtractWholeArchive(stored, out, dir, order);
  }
}
