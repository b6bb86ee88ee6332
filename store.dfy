/**
  The HDF5 file as the archiver sees it: datasets (byte payloads) under
  `/`-separated keys, and the groups those keys pass through. The two h5py
  calls the archiver makes, `require_group` and `create_dataset`, are given
  here as functions on the file's contents.
 */
module ArchiveStore {
  import opened Wrappers
  import opened Paths

  datatype Store = Store(datasets: map<Key, Bytes>, groups: set<Key>)

  /** A file just opened with mode 'w'. */
  const EMPTY: Store := Store(map[], {})

  /** h5py's `key in file`: true for a dataset and for a group alike. */
  predicate Has(s: Store, k: Key) {
    k in s.datasets || k in s.groups
  }

  /**
    The shape of every HDF5 file: a tree whose inner nodes are groups. The root
    is neither a dataset nor a named group, no key is both, and every proper
    prefix of a key is a group.
   */
  predicate Consistent(s: Store) {
    && [] !in s.datasets && [] !in s.groups
    && (forall k :: k in s.datasets ==> k !in s.groups)
    && (forall k, i :: k in s.datasets && 0 < i < |k| ==> k[..i] in s.groups)
    && (forall g, i :: g in s.groups && 0 < i < |g| ==> g[..i] in s.groups)
  }

  /** The exceptions h5py raises when a name is taken or a path runs through a dataset. */
  datatype Conflict = PathThroughDataset(path: Key) | NameTaken(key: Key)

  /** Some non-empty prefix of `p`, `p` included, is a dataset. */
  predicate DatasetOnPath(s: Store, p: Path)
    decreases |p|
  {
    |p| > 0 && (p in s.datasets || DatasetOnPath(s, Dirname(p)))
  }

  lemma {:induction false} DatasetOnPathMeans(s: Store, p: Path)
    ensures DatasetOnPath(s, p) <==> exists q :: q in Prefixes(p) && q in s.datasets
    decreases |p|
  {
    if |p| > 0 {
      DatasetOnPathMeans(s, Dirname(p));
      assert Prefixes(p) == Prefixes(Dirname(p)) + {p};
    }
  }

  /** Whether a path runs through a dataset depends on the datasets alone. */
  lemma {:induction false} DatasetOnPathFrame(s: Store, t: Store, p: Path)
    requires s.datasets == t.datasets
    ensures DatasetOnPath(s, p) == DatasetOnPath(t, p)
    decreases |p|
  {
    if |p| > 0 {
      DatasetOnPathFrame(s, t, Dirname(p));
    }
  }

  /** `require_group(g)`: makes `g` and every group above it exist, unless a dataset lies on the way. */
  function WithGroup(s: Store, g: Key): Result<Store, Conflict>
    requires |g| > 0
  {
    if DatasetOnPath(s, g) then Failure(PathThroughDataset(g))
    else Success(Store(s.datasets, s.groups + Prefixes(g)))
  }

  /**
    `require_group(g)` fails exactly when the path to `g` runs through a
    dataset; otherwise `g` and the groups above it exist, no other group
    appears, and datasets are untouched.
   */
  lemma WithGroupEffect(s: Store, g: Key)
    requires |g| > 0
    ensures var r := WithGroup(s, g);
            && (r.Failure? <==> DatasetOnPath(s, g))
            && (r.Success? ==> r.value.datasets == s.datasets)
            && (r.Success? ==> g in r.value.groups && s.groups <= r.value.groups)
            && (r.Success? ==> forall h :: h in r.value.groups ==> h in s.groups || IsPrefix(h, g))
            && (r.Success? && Consistent(s) ==> Consistent(r.value))
  {
    if !DatasetOnPath(s, g) {
      DatasetOnPathMeans(s, g);
      PrefixesClosed(g);
    }
  }

  /** `create_dataset(k, data)`: stores `data` under `k`, unless the name is taken or a dataset lies above it. */
  function WithDataset(s: Store, k: Key, data: Bytes): Result<Store, Conflict>
    requires |k| > 0
  {
    if k in s.datasets || k in s.groups then Failure(NameTaken(k))
    else if DatasetOnPath(s, Dirname(k)) then Failure(PathThroughDataset(k))
    else Success(Store(s.datasets[k := data], s.groups + Prefixes(Dirname(k))))
  }

  /**
    `create_dataset(k, data)` fails exactly when `k` already names a dataset
    or a group, or when the path to it runs through a dataset; otherwise `k`
    holds `data`, exactly `k` is added, no other payload changes, only groups
    above `k` appear, and the archive stays a tree.
   */
  lemma WithDatasetEffect(s: Store, k: Key, data: Bytes)
    requires |k| > 0
    ensures var r := WithDataset(s, k, data);
            && (r.Failure? <==> Has(s, k) || DatasetOnPath(s, Dirname(k)))
            && (r.Success? ==> k in r.value.datasets && r.value.datasets[k] == data)
            && (r.Success? ==> r.value.datasets.Keys == s.datasets.Keys + {k})
            && (r.Success? ==> forall j :: j in s.datasets ==> r.value.datasets[j] == s.datasets[j])
            && (r.Success? ==> s.groups <= r.value.groups)
            && (r.Success? ==> forall h :: h in r.value.groups ==> h in s.groups || IsProperPrefix(h, k))
            && (r.Success? && Consistent(s) ==> Consistent(r.value))
  {
    if !Has(s, k) && !DatasetOnPath(s, Dirname(k)) {
      DatasetOnPathMeans(s, Dirname(k));
      PrefixesClosed(Dirname(k));
      forall i | 0 < i < |k| ensures k[..i] in Prefixes(Dirname(k)) {
        assert Dirname(k)[..i] == k[..i];
      }
    }
  }
}
