/**
  What create and append runs promise: stored payloads are never replaced,
  append skips whatever the archive already holds (and so is idempotent),
  create stores exactly the bytes of the files it finds, and a source that is
  neither a file nor a directory only costs a warning.
 */
module PackProperties {
  import opened Wrappers
  import opened Paths
  import opened FileSystem
  import opened ArchiveStore
  import opened H5

  /** The notices a run prints when every entry is skipped. */
  function SkipNotices(items: seq<Item>): (log: seq<Notice>)
    ensures |log| == |items|
  {
    if items == [] then []
    else
      (match items[0]
       case Entry(key, _) => [Skipped(key)]
       case Invalid(source) => [NotASource(source)]) + SkipNotices(items[1..])
  }

  lemma {:induction false} KeysMeans(items: seq<Item>)
    ensures forall k :: k in Keys(items) <==> exists i :: 0 <= i < |items| && items[i].Entry? && items[i].key == k
    decreases |items|
  {
    if items != [] {
      KeysMeans(items[1..]);
      assert forall i :: 0 <= i < |items| - 1 ==> items[1..][i] == items[i + 1];
      forall k | exists i :: 0 <= i < |items| && items[i].Entry? && items[i].key == k
        ensures k in Keys(items)
      {
        var i :| 0 <= i < |items| && items[i].Entry? && items[i].key == k;
        if i > 0 {
          assert items[1..][i - 1] == items[i];
        }
      }
    }
  }

  lemma {:induction false} KeysAppend(a: seq<Item>, b: seq<Item>)
    ensures Keys(a + b) == Keys(a) + Keys(b)
    decreases |a|
  {
    if a != [] {
      assert (a + b)[0] == a[0] && (a + b)[1..] == a[1..] + b;
      KeysAppend(a[1..], b);
    } else {
      assert a + b == b;
    }
  }

  /**
    A run never replaces a stored payload, adds datasets only under the keys
    it was given, never removes a group, and keeps the archive a tree.
   */
  lemma {:induction false} PackItemsKeeps(s: Store, mode: Mode, fs: FS, items: seq<Item>)
    requires Readable(fs, items)
    ensures var r := PackItems(s, mode, fs, items);
            && (forall k :: k in s.datasets ==> k in r.store.datasets && r.store.datasets[k] == s.datasets[k])
            && (forall k :: k in r.store.datasets ==> k in s.datasets || k in Keys(items))
            && s.groups <= r.store.groups
            && (Consistent(s) ==> Consistent(r.store))
    decreases |items|
  {
    if items != [] {
      ReadableTail(fs, items);
      var first := Step(s, mode, fs, items[0]);
      if items[0].Entry? {
        StoreEntryKeeps(s, mode, items[0].key, fs[items[0].file].data);
        StoreEntryConsistent(s, mode, items[0].key, fs[items[0].file].data);
      }
      if first.failure.None? {
        PackItemsKeeps(first.store, mode, fs, items[1..]);
      }
    }
  }

  /** After a run that raised nothing, every key it was given names something in the archive. */
  lemma {:induction false} PackItemsStoresAll(s: Store, mode: Mode, fs: FS, items: seq<Item>)
    requires Readable(fs, items)
    requires PackItems(s, mode, fs, items).failure.None?
    ensures forall k :: k in Keys(items) ==> Has(PackItems(s, mode, fs, items).store, k)
    decreases |items|
  {
    if items != [] {
      ReadableTail(fs, items);
      var first := Step(s, mode, fs, items[0]);
      PackItemsStoresAll(first.store, mode, fs, items[1..]);
      PackItemsKeeps(first.store, mode, fs, items[1..]);
    }
  }

  /** Appending entries whose keys are all present changes nothing and reports a skip for each. */
  lemma {:induction false} AppendAllPresent(s: Store, fs: FS, items: seq<Item>)
    requires Readable(fs, items)
    requires forall k :: k in Keys(items) ==> Has(s, k)
    ensures PackItems(s, Append, fs, items) == PackRun(s, SkipNotices(items), None)
    decreases |items|
  {
    if items != [] {
      ReadableTail(fs, items);
      AppendAllPresent(s, fs, items[1..]);
    }
  }

  /** The walk of a directory yields, as keys, exactly the relative paths of the files below it. */
  lemma DirItemsKeys(fs: FS, root: Path, walk: seq<Path>)
    requires IsWalk(fs, root, walk)
    ensures forall k :: k in Keys(DirItems(root, walk)) <==> |k| > 0 && IsFile(fs, root + k)
  {
    var items := DirItems(root, walk);
    KeysMeans(items);
    forall k | |k| > 0 && IsFile(fs, root + k)
      ensures k in Keys(items)
    {
      assert IsProperPrefix(root, root + k) by {
        assert (root + k)[..|root|] == root;
      }
      var i :| 0 <= i < |walk| && walk[i] == root + k;
      assert items[i].key == (root + items[i].key)[|root|..] == (root + k)[|root|..] == k;
    }
  }

  /** Which keys a traversal yields does not depend on the order the walks list the files in. */
  lemma {:induction false} TraverseKeys(fs: FS, sources: seq<Path>, w1: seq<seq<Path>>, w2: seq<seq<Path>>)
    requires WalksFit(fs, sources, w1) && WalksFit(fs, sources, w2)
    ensures Keys(Traverse(fs, sources, w1)) == Keys(Traverse(fs, sources, w2))
    decreases |sources|
  {
    if sources != [] {
      TraverseCons(fs, sources, w1);
      TraverseCons(fs, sources, w2);
      TraverseKeys(fs, sources[1..], w1[1..], w2[1..]);
      KeysAppend(SourceItems(fs, sources[0], w1[0]), Traverse(fs, sources[1..], w1[1..]));
      KeysAppend(SourceItems(fs, sources[0], w2[0]), Traverse(fs, sources[1..], w2[1..]));
      if IsDir(fs, sources[0]) {
        DirItemsKeys(fs, sources[0], w1[0]);
        DirItemsKeys(fs, sources[0], w2[0]);
      }
    }
  }

  /**
    Appending the same sources a second time, however the walks order the
    files, leaves the archive as the first append left it: every key is
    already there and is skipped.
   */
  lemma AppendIdempotent(s: Store, fs: FS, sources: seq<Path>, w1: seq<seq<Path>>, w2: seq<seq<Path>>)
    requires WalksFit(fs, sources, w1) && WalksFit(fs, sources, w2)
    requires Archived(s, Append, fs, sources, w1).failure.None?
    ensures var first := Archived(s, Append, fs, sources, w1);
            Archived(first.store, Append, fs, sources, w2) ==
              PackRun(first.store, SkipNotices(Traverse(fs, sources, w2)), None)
  {
    var first := Archived(s, Append, fs, sources, w1);
    PackItemsStoresAll(s, Append, fs, Traverse(fs, sources, w1));
    TraverseKeys(fs, sources, w1, w2);
    AppendAllPresent(first.store, fs, Traverse(fs, sources, w2));
  }

  /** Append leaves every payload it finds in place, and a key naming a group never becomes a dataset. */
  lemma AppendKeepsArchive(s: Store, fs: FS, sources: seq<Path>, walks: seq<seq<Path>>)
    requires WalksFit(fs, sources, walks) && Consistent(s)
    ensures var r := Archived(s, Append, fs, sources, walks).store;
            && (forall k :: k in s.datasets ==> k in r.datasets && r.datasets[k] == s.datasets[k])
            && (forall g :: g in s.groups ==> g in r.groups && g !in r.datasets)
            && Consistent(r)
  {
    PackItemsKeeps(s, Append, fs, Traverse(fs, sources, walks));
  }

  /**
    A create run that raised nothing stored each entry under its key with
    exactly the bytes of its file, and nothing besides.
   */
  lemma {:induction false} WriteRunExact(s: Store, fs: FS, items: seq<Item>)
    requires Readable(fs, items)
    requires PackItems(s, Write, fs, items).failure.None?
    ensures var r := PackItems(s, Write, fs, items).store;
            && r.datasets.Keys == s.datasets.Keys + Keys(items)
            && forall x :: x in items && x.Entry? ==> x.key in r.datasets && r.datasets[x.key] == fs[x.file].data
    decreases |items|
  {
    if items != [] {
      ReadableTail(fs, items);
      var first := Step(s, Write, fs, items[0]);
      WriteRunExact(first.store, fs, items[1..]);
      PackItemsKeeps(first.store, Write, fs, items[1..]);
      forall x | x in items && x.Entry?
        ensures x in items[1..] || x == items[0]
      {
        var i :| 0 <= i < |items| && items[i] == x;
        if i > 0 {
          assert items[1..][i - 1] == x;
        }
      }
    }
  }

  /** A file a walk lists appears among the directory's items under its relative path. */
  lemma DirItemsHas(root: Path, files: seq<Path>, f: Path)
    requires forall i :: 0 <= i < |files| ==> IsProperPrefix(root, files[i])
    requires f in files
    ensures IsProperPrefix(root, f) && Entry(Relative(f, root), f) in DirItems(root, files)
  {
    var items := DirItems(root, files);
    var j :| 0 <= j < |files| && files[j] == f;
    assert items[j].key == (root + items[j].key)[|root|..] == f[|root|..];
  }

  /** Every file a walk lists, and every file source, appears in the traversal under its key. */
  lemma {:induction false} TraverseEntries(fs: FS, sources: seq<Path>, walks: seq<seq<Path>>)
    requires WalksFit(fs, sources, walks)
    ensures forall i, f :: 0 <= i < |sources| && IsDir(fs, sources[i]) && f in walks[i] ==>
              IsProperPrefix(sources[i], f) && Entry(Relative(f, sources[i]), f) in Traverse(fs, sources, walks)
    ensures forall i :: 0 <= i < |sources| && IsFile(fs, sources[i]) ==>
              Entry(Basename(sources[i]), sources[i]) in Traverse(fs, sources, walks)
    decreases |sources|
  {
    if sources != [] {
      TraverseCons(fs, sources, walks);
      TraverseEntries(fs, sources[1..], walks[1..]);
      var here := SourceItems(fs, sources[0], walks[0]);
      var later := Traverse(fs, sources[1..], walks[1..]);
      forall i, f | 0 <= i < |sources| && IsDir(fs, sources[i]) && f in walks[i]
        ensures IsProperPrefix(sources[i], f) && Entry(Relative(f, sources[i]), f) in here + later
      {
        if i == 0 {
          DirItemsHas(sources[0], walks[0], f);
        } else {
          assert sources[i] == sources[1..][i - 1] && walks[i] == walks[1..][i - 1];
        }
      }
      forall i | 0 <= i < |sources| && IsFile(fs, sources[i])
        ensures Entry(Basename(sources[i]), sources[i]) in here + later
      {
        if i > 0 {
          assert sources[i] == sources[1..][i - 1];
        }
      }
    }
  }

  /**
    `pack_or_append_to_h5(sources, output, 'w')` that raised nothing: the
    archive holds exactly the traversal's keys, a file found under a directory
    source is stored under its relative path and a file source under its base
    name, each with the bytes of the file, and every key's parent groups exist.
   */
  lemma CreateStoresSources(s: Store, fs: FS, sources: seq<Path>, walks: seq<seq<Path>>)
    requires WalksFit(fs, sources, walks)
    requires Archived(s, Write, fs, sources, walks).failure.None?
    ensures var r := Archived(s, Write, fs, sources, walks).store;
            && Consistent(r)
            && r.datasets.Keys == Keys(Traverse(fs, sources, walks))
            && (forall i, f :: 0 <= i < |sources| && IsDir(fs, sources[i]) && f in walks[i] ==>
                  IsProperPrefix(sources[i], f) &&
                  Relative(f, sources[i]) in r.datasets && r.datasets[Relative(f, sources[i])] == fs[f].data)
            && (forall i :: 0 <= i < |sources| && IsFile(fs, sources[i]) ==>
                  Basename(sources[i]) in r.datasets && r.datasets[Basename(sources[i])] == fs[sources[i]].data)
  {
    var items := Traverse(fs, sources, walks);
    assert Consistent(EMPTY);
    PackItemsKeeps(EMPTY, Write, fs, items);
    WriteRunExact(EMPTY, fs, items);
    TraverseEntries(fs, sources, walks);
  }

  lemma WalksFitAppend(fs: FS, a: seq<Path>, wa: seq<seq<Path>>, b: seq<Path>, wb: seq<seq<Path>>)
    requires WalksFit(fs, a, wa) && WalksFit(fs, b, wb)
    ensures WalksFit(fs, a + b, wa + wb)
  {
    forall i | 0 <= i < |a + b| && IsDir(fs, (a + b)[i]) ensures IsWalk(fs, (a + b)[i], (wa + wb)[i]) {
      if i < |a| {
        assert (a + b)[i] == a[i] && (wa + wb)[i] == wa[i];
      } else {
        assert (a + b)[i] == b[i - |a|] && (wa + wb)[i] == wb[i - |a|];
      }
    }
  }

  /** One step of `TraverseAppend`: the first source of `a + b` is the first source of `a`. */
  lemma TraverseAppendCons(fs: FS, a: seq<Path>, wa: seq<seq<Path>>, b: seq<Path>, wb: seq<seq<Path>>)
    requires WalksFit(fs, a, wa) && WalksFit(fs, b, wb) && |a| > 0
    ensures WalksFit(fs, a[1..], wa[1..])
    ensures WalksFit(fs, a + b, wa + wb)
    ensures var head := SourceItems(fs, a[0], wa[0]);
            && Traverse(fs, a, wa) == head + Traverse(fs, a[1..], wa[1..])
            && Traverse(fs, a + b, wa + wb) == head + Traverse(fs, a[1..] + b, wa[1..] + wb)
  {
    WalksFitAppend(fs, a, wa, b, wb);
    TraverseCons(fs, a, wa);
    TraverseCons(fs, a + b, wa + wb);
    assert (a + b)[0] == a[0] && (wa + wb)[0] == wa[0];
    assert (a + b)[1..] == a[1..] + b && (wa + wb)[1..] == wa[1..] + wb;
  }

  /** The traversal of two lists of sources one after the other is the traversal of their concatenation. */
  lemma {:induction false} TraverseAppend(fs: FS, a: seq<Path>, wa: seq<seq<Path>>, b: seq<Path>, wb: seq<seq<Path>>)
    requires WalksFit(fs, a, wa) && WalksFit(fs, b, wb)
    ensures WalksFit(fs, a + b, wa + wb)
    ensures Traverse(fs, a + b, wa + wb) == Traverse(fs, a, wa) + Traverse(fs, b, wb)
    decreases |a|
  {
    WalksFitAppend(fs, a, wa, b, wb);
    if a == [] {
      assert a + b == b && wa + wb == wb;
    } else {
      assert Traverse(fs, a + b, wa + wb) == Traverse(fs, a, wa) + Traverse(fs, b, wb) by {
        TraverseAppendCons(fs, a, wa, b, wb);
        TraverseAppend(fs, a[1..], wa[1..], b, wb);
        var head, x, y := SourceItems(fs, a[0], wa[0]), Traverse(fs, a[1..], wa[1..]), Traverse(fs, b, wb);
        assert head + (x + y) == (head + x) + y;
      }
    }
  }

  /** Sources around a bad one traverse to their own items around one `Invalid` item. */
  lemma TraverseAround(fs: FS, pre: seq<Path>, pw: seq<seq<Path>>, bad: Path, walk: seq<Path>, post: seq<Path>, qw: seq<seq<Path>>)
    requires !IsDir(fs, bad) && !IsFile(fs, bad)
    requires WalksFit(fs, pre, pw) && WalksFit(fs, post, qw)
    ensures WalksFit(fs, pre + [bad] + post, pw + [walk] + qw) && WalksFit(fs, pre + post, pw + qw)
    ensures Traverse(fs, pre + [bad] + post, pw + [walk] + qw) == Traverse(fs, pre, pw) + ([Invalid(bad)] + Traverse(fs, post, qw))
    ensures Traverse(fs, pre + post, pw + qw) == Traverse(fs, pre, pw) + Traverse(fs, post, qw)
  {
    var tail, tailWalks := [bad] + post, [walk] + qw;
    var c := Traverse(fs, post, qw);
    assert WalksFit(fs, tail, tailWalks) && Traverse(fs, tail, tailWalks) == [Invalid(bad)] + c by {
      WalksFitAppend(fs, [bad], [walk], post, qw);
      TraverseCons(fs, tail, tailWalks);
      assert tail[1..] == post && tailWalks[1..] == qw;
    }
    assert pre + [bad] + post == pre + tail && pw + [walk] + qw == pw + tailWalks;
    TraverseAppend(fs, pre, pw, tail, tailWalks);
    TraverseAppend(fs, pre, pw, post, qw);
  }

  /** An `Invalid` item between two runs of items only adds its warning, and only when the first run raised nothing. */
  lemma PackItemsAround(s: Store, mode: Mode, fs: FS, a: seq<Item>, bad: Path, c: seq<Item>)
    requires Readable(fs, a) && Readable(fs, c)
    ensures Readable(fs, [Invalid(bad)] + c) && Readable(fs, a + c) && Readable(fs, a + ([Invalid(bad)] + c))
    ensures var before := PackItems(s, mode, fs, a);
            var with := PackItems(s, mode, fs, a + ([Invalid(bad)] + c));
            var without := PackItems(s, mode, fs, a + c);
            && (before.failure.Some? ==> with == before && without == before)
            && (before.failure.None? ==>
                  var rest := PackItems(before.store, mode, fs, c);
                  without == Then(before.log, rest) && with == Then(before.log + [NotASource(bad)], rest))
  {
    PackItemsCons(s, mode, fs, Invalid(bad), c);
    PackItemsAppend(s, mode, fs, a, [Invalid(bad)] + c);
    PackItemsAppend(s, mode, fs, a, c);
    var before := PackItems(s, mode, fs, a);
    if before.failure.None? {
      PackItemsCons(before.store, mode, fs, Invalid(bad), c);
      ThenThen(before.log, [NotASource(bad)], PackItems(before.store, mode, fs, c));
    }
  }

  /**
    A source that is neither a directory nor a file, wherever it stands among
    the sources, changes nothing but the notices: the run ends with the archive
    and the exception of the same run without it, and when the sources before
    it raised nothing, its one warning comes right after their notices.
   */
  lemma InvalidSourceSkipped(s: Store, mode: Mode, fs: FS, pre: seq<Path>, pw: seq<seq<Path>>, bad: Path, walk: seq<Path>,
                             post: seq<Path>, qw: seq<seq<Path>>)
    requires !IsDir(fs, bad) && !IsFile(fs, bad)
    requires WalksFit(fs, pre, pw) && WalksFit(fs, post, qw)
    ensures WalksFit(fs, pre + [bad] + post, pw + [walk] + qw) && WalksFit(fs, pre + post, pw + qw)
    ensures var with := Archived(s, mode, fs, pre + [bad] + post, pw + [walk] + qw);
            var without := Archived(s, mode, fs, pre + post, pw + qw);
            var before := Archived(s, mode, fs, pre, pw);
            && with.store == without.store && with.failure == without.failure
            && (before.failure.Some? ==> with == before && without == before)
            && (before.failure.None? ==>
                  var rest := PackItems(before.store, mode, fs, Traverse(fs, post, qw));
                  without == Then(before.log, rest) && with == Then(before.log + [NotASource(bad)], rest))
  {
    TraverseAround(fs, pre, pw, bad, walk, post, qw);
    PackItemsAround(Opened(s, mode), mode, fs, Traverse(fs, pre, pw), bad, Traverse(fs, post, qw));
  }

  /** Nothing stored lies on the way to `k` and nothing stored lies below it. */
  predicate Clear(s: Store, k: Key) {
    && (forall d :: d in s.datasets ==> !IsPrefix(d, k))
    && (forall g :: g in s.groups ==> !IsPrefix(k, g))
  }

  /** No entry's key is a prefix of another entry's key (or equal to it). */
  predicate PrefixFree(items: seq<Item>) {
    forall i, j :: 0 <= i < |items| && 0 <= j < |items| && i != j && items[i].Entry? && items[j].Entry? ==>
      !IsPrefix(items[i].key, items[j].key)
  }

  lemma PrefixTransitive(a: Path, b: Path, c: Path)
    requires IsPrefix(a, b) && IsPrefix(b, c)
    ensures IsPrefix(a, c)
  {
    assert c[..|a|] == c[..|b|][..|a|];
  }

  /** A create run raises nothing when its keys are prefix-free and clear of what the archive holds. */
  lemma {:induction false} WriteRunSucceeds(s: Store, fs: FS, items: seq<Item>)
    requires Readable(fs, items) && PrefixFree(items)
    requires forall x :: x in items && x.Entry? ==> Clear(s, x.key)
    ensures PackItems(s, Write, fs, items).failure.None?
    decreases |items|
  {
    if items != [] {
      ReadableTail(fs, items);
      var rest := items[1..];
      assert forall i :: 0 <= i < |rest| ==> rest[i] == items[i + 1];
      var first := Step(s, Write, fs, items[0]);
      if items[0].Entry? {
        var k := items[0].key;
        StoreEntryOutcome(s, Write, k, fs[items[0].file].data);
        StoreEntryKeeps(s, Write, k, fs[items[0].file].data);
        DatasetOnPathMeans(s, Dirname(k));
        forall q | q in Prefixes(Dirname(k)) && q in s.datasets ensures false {
          PrefixTransitive(q, Dirname(k), k);
        }
        forall x | x in rest && x.Entry? ensures Clear(first.store, x.key) {
          var j :| 0 <= j < |rest| && rest[j] == x;
          assert items[j + 1] == x;
          forall h | h in first.store.groups && h !in s.groups ensures !IsPrefix(x.key, h) {
            if IsPrefix(x.key, h) {
              PrefixTransitive(x.key, h, k);
            }
          }
        }
      }
      WriteRunSucceeds(first.store, fs, rest);
    }
  }

  /** On a real filesystem the files one walk lists have prefix-free relative paths. */
  lemma DirItemsPrefixFree(fs: FS, root: Path, walk: seq<Path>)
    requires WellFormed(fs) && IsWalk(fs, root, walk)
    ensures PrefixFree(DirItems(root, walk))
  {
    var items := DirItems(root, walk);
    forall i, j | 0 <= i < |items| && 0 <= j < |items| && i != j
      ensures !IsPrefix(items[i].key, items[j].key)
    {
      var a, b := items[i].key, items[j].key;
      var n := |root| + |a|;
      if |a| == |b| {
        assert walk[i] != walk[j];
        assert a != b;
      } else if |a| < |b| {
        assert walk[j][..n] in fs && fs[walk[j][..n]].Dir?;
        assert walk[j][..n] != walk[i];
        assert walk[j][..n] == root + b[..|a|];
        assert b[..|a|] != a;
      }
    }
  }

  /**
    `pack_or_append_to_h5([directory], output, 'w')` raises nothing: a
    directory's files go into a fresh archive without a name clash.
   */
  lemma CreateDirectorySucceeds(s: Store, fs: FS, src: Path, walk: seq<Path>)
    requires WellFormed(fs) && IsDir(fs, src) && IsWalk(fs, src, walk)
    ensures WalksFit(fs, [src], [walk])
    ensures Archived(s, Write, fs, [src], [walk]).failure.None?
  {
    TraverseCons(fs, [src], [walk]);
    assert Traverse(fs, [src], [walk]) == DirItems(src, walk) + [];
    assert DirItems(src, walk) + [] == DirItems(src, walk);
    DirItemsPrefixFree(fs, src, walk);
    WriteRunSucceeds(EMPTY, fs, DirItems(src, walk));
  }

  /** Creating an archive from one directory stores every file below it under its relative path, with its bytes. */
  lemma CreateDirectoryStores(s: Store, fs: FS, src: Path, walk: seq<Path>)
    requires WellFormed(fs) && IsDir(fs, src) && IsWalk(fs, src, walk)
    ensures WalksFit(fs, [src], [walk])
    ensures var r := Archived(s, Write, fs, [src], [walk]);
            && r.failure.None?
            && Consistent(r.store)
            && forall f :: f in walk ==>
                 Relative(f, src) in r.store.datasets && r.store.datasets[Relative(f, src)] == fs[f].data
  {
    CreateDirectorySucceeds(s, fs, src, walk);
    CreateStoresSources(s, fs, [src], [walk]);
    var r := Archived(s, Write, fs, [src], [walk]);
    forall f | f in walk
      ensures Relative(f, src) in r.store.datasets && r.store.datasets[Relative(f, src)] == fs[f].data
    {
      assert [src][0] == src && [walk][0] == walk;
    }
  }

  /**
    The source tree of the archive-creation scenario, with its names left
    open: a directory `d` holding a file `f1` and a subdirectory `sub` that
    holds a file `f2` (`src`, `file1.txt`, `subdir`, `file2.txt`).
   */
  function ExampleTree(d: string, f1: string, sub: string, f2: string, one: Bytes, two: Bytes): FS {
    map[[d] := Dir, [d, f1] := File(one), [d, sub] := Dir, [d, sub, f2] := File(two)]
  }

  lemma ExampleTreeWellFormed(d: string, f1: string, sub: string, f2: string, one: Bytes, two: Bytes)
    requires f1 != sub
    ensures WellFormed(ExampleTree(d, f1, sub, f2, one, two))
  {
    var fs := ExampleTree(d, f1, sub, f2, one, two);
    forall p, i | p in fs && 0 < i < |p| ensures p[..i] in fs && fs[p[..i]].Dir? {
      if |p| == 3 && i == 2 {
        assert p[..i] == [d, sub];
      } else {
        assert p[..i] == [d];
      }
    }
  }

  lemma ExampleTreeWalk(d: string, f1: string, sub: string, f2: string, one: Bytes, two: Bytes)
    requires f1 != sub
    ensures IsWalk(ExampleTree(d, f1, sub, f2, one, two), [d], [[d, f1], [d, sub, f2]])
  {
    var fs := ExampleTree(d, f1, sub, f2, one, two);
    forall f | f in fs && IsFile(fs, f) && IsProperPrefix([d], f) ensures f in [[d, f1], [d, sub, f2]] {
      assert f == [d, f1] || f == [d, sub, f2];
    }
  }

  /**
    The archive-creation scenario: packing `src` holding `file1.txt` and
    `subdir/file2.txt` stores both under their relative paths with their
    bytes, and `subdir` is a group.
   */
  lemma CreateExample(d: string, f1: string, sub: string, f2: string, one: Bytes, two: Bytes)
    requires f1 != sub
    ensures WalksFit(ExampleTree(d, f1, sub, f2, one, two), [[d]], [[[d, f1], [d, sub, f2]]])
    ensures var r := Archived(EMPTY, Write, ExampleTree(d, f1, sub, f2, one, two), [[d]], [[[d, f1], [d, sub, f2]]]);
            && r.failure.None?
            && [f1] in r.store.datasets && r.store.datasets[[f1]] == one
            && [sub, f2] in r.store.datasets && r.store.datasets[[sub, f2]] == two
            && [sub] in r.store.groups
  {
    var fs, src, walk := ExampleTree(d, f1, sub, f2, one, two), [d], [[d, f1], [d, sub, f2]];
    ExampleTreeWellFormed(d, f1, sub, f2, one, two);
    ExampleTreeWalk(d, f1, sub, f2, one, two);
    CreateDirectorySucceeds(EMPTY, fs, src, walk);
    CreateStoresSources(EMPTY, fs, [src], [walk]);
    assert [src][0] == src && [walk][0] == walk;
    assert walk[0] in walk && walk[1] in walk;
    assert Relative(walk[0], src) == [f1] && Relative(walk[1], src) == [sub, f2];
    assert [sub, f2][..1] == [sub];
  }
}
