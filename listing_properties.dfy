/**
  What listing promises: the lines after the header are the names of the
  datasets, never of groups, in `sorted` order, and they do not depend on the
  order in which `visititems` happens to visit the archive.
 */
module ListingProperties {
  import opened Paths
  import opened Strings
  import opened ArchiveStore
  import opened H5

  lemma {:induction false} DatasetNamesAppend(s: Store, a: seq<Key>, b: seq<Key>)
    ensures DatasetNames(s, a + b) == DatasetNames(s, a) + DatasetNames(s, b)
    decreases |b|
  {
    if b == [] {
      assert a + b == a;
    } else {
      var init := b[..|b| - 1];
      assert (a + b)[..|a + b| - 1] == a + init && (a + b)[|a + b| - 1] == b[|b| - 1];
      DatasetNamesAppend(s, a, init);
    }
  }

  /** Taking the object at `j` out of a visit takes its name, if any, out of the collected names. */
  lemma DatasetNamesRemove(s: Store, o: seq<Key>, j: nat)
    requires j < |o|
    ensures multiset(o[..j] + o[j + 1..]) == multiset(o) - multiset{o[j]}
    ensures multiset(DatasetNames(s, o)) == multiset(DatasetNames(s, o[..j] + o[j + 1..])) + multiset(DatasetNames(s, [o[j]]))
  {
    var pre, mid, post := o[..j], [o[j]], o[j + 1..];
    assert o == pre + mid + post;
    assert DatasetNames(s, o) == DatasetNames(s, pre) + DatasetNames(s, mid) + DatasetNames(s, post) by {
      DatasetNamesAppend(s, pre, mid);
      DatasetNamesAppend(s, pre + mid, post);
    }
    DatasetNamesAppend(s, pre, post);
  }

  /** Visiting the same objects in another order collects the same names, perhaps in another order. */
  lemma {:induction false} DatasetNamesPermutation(s: Store, o1: seq<Key>, o2: seq<Key>)
    requires multiset(o1) == multiset(o2)
    ensures multiset(DatasetNames(s, o1)) == multiset(DatasetNames(s, o2))
    decreases |o1|
  {
    if o1 != [] {
      var i := |o1| - 1;
      var x := o1[i];
      assert x in multiset(o2);
      var j :| 0 <= j < |o2| && o2[j] == x;
      DatasetNamesRemove(s, o1, i);
      DatasetNamesRemove(s, o2, j);
      assert o1[..i] + o1[i + 1..] == o1[..i];
      DatasetNamesPermutation(s, o1[..i], o2[..j] + o2[j + 1..]);
    } else {
      assert o2 == [];
    }
  }

  /**
    What `list_h5_contents` prints is fixed by the archive alone: two listings
    meeting `List`'s contract for visits of the same objects in any two orders
    are the same lines.
   */
  lemma ListingOrderIndependent(s: Store, o1: seq<Key>, o2: seq<Key>, lines1: seq<string>, lines2: seq<string>, archive: string)
    requires multiset(o1) == multiset(o2)
    requires |lines1| >= 1 && lines1[0] == Header(archive) && Sorted(lines1[1..])
    requires multiset(lines1[1..]) == multiset(DatasetNames(s, o1))
    requires |lines2| >= 1 && lines2[0] == Header(archive) && Sorted(lines2[1..])
    requires multiset(lines2[1..]) == multiset(DatasetNames(s, o2))
    ensures lines1 == lines2
  {
    DatasetNamesPermutation(s, o1, o2);
    SameSortedTail(lines1, lines2);
  }

  lemma SameSortedTail(lines1: seq<string>, lines2: seq<string>)
    requires |lines1| >= 1 && |lines2| >= 1 && lines1[0] == lines2[0]
    requires Sorted(lines1[1..]) && Sorted(lines2[1..]) && multiset(lines1[1..]) == multiset(lines2[1..])
    ensures lines1 == lines2
  {
    SortedUnique(lines1[1..], lines2[1..]);
    assert lines1 == [lines1[0]] + lines1[1..] && lines2 == [lines2[0]] + lines2[1..];
  }

  /** A visit that meets no object twice collects no name twice, when segments hold no `/`. */
  lemma {:induction false} DatasetNamesDistinct(s: Store, order: seq<Key>)
    requires forall i, j :: 0 <= i < j < |order| ==> order[i] != order[j]
    requires forall k :: k in s.datasets ==> ValidKey(k)
    ensures var names := DatasetNames(s, order);
            forall i, j :: 0 <= i < j < |names| ==> names[i] != names[j]
    decreases |order|
  {
    if order != [] {
      var init, last := order[..|order| - 1], order[|order| - 1];
      assert forall i :: 0 <= i < |init| ==> init[i] == order[i];
      DatasetNamesDistinct(s, init);
      if last in s.datasets {
        forall i | 0 <= i < |init| && init[i] in s.datasets ensures Join(init[i]) != Join(last) {
          JoinInjective(init[i], last);
        }
        var before := DatasetNames(s, init);
        assert forall a, b :: 0 <= a < b < |before| ==> before[a] != before[b];
        assert Join(last) !in before;
        var names := DatasetNames(s, order);
        assert names == before + [Join(last)];
        forall i, j | 0 <= i < j < |names| ensures names[i] != names[j] {
          if j < |before| {
            assert names[i] == before[i] && names[j] == before[j];
          } else {
            assert j == |before| && names[j] == Join(last);
            assert names[i] == before[i] && before[i] in before;
          }
        }
      } else {
        assert DatasetNames(s, order) == DatasetNames(s, init);
      }
    }
  }

  /** A list without repetitions holds each element once. */
  lemma {:induction false} DistinctOnce(xs: seq<string>, x: string)
    requires forall i, j :: 0 <= i < j < |xs| ==> xs[i] != xs[j]
    ensures multiset(xs)[x] <= 1
    decreases |xs|
  {
    if xs != [] {
      assert xs == [xs[0]] + xs[1..];
      assert forall i :: 0 <= i < |xs| - 1 ==> xs[1..][i] == xs[i + 1];
      DistinctOnce(xs[1..], x);
      if x == xs[0] {
        assert x !in xs[1..];
      }
    }
  }

  /** An element at two places of a list is counted at least twice. */
  lemma TwiceCounted(xs: seq<string>, i: nat, j: nat)
    requires i < j < |xs| && xs[i] == xs[j]
    ensures multiset(xs)[xs[i]] >= 2
  {
    assert xs == xs[..j] + [xs[j]] + xs[j + 1..];
    assert xs[i] in xs[..j];
  }

  /**
    After a whole `visititems` pass, the listing is exactly the archive's
    dataset names, each once: every dataset is listed, nothing else is, and no
    line is repeated.
   */
  lemma ListingExact(s: Store, order: seq<Key>, lines: seq<string>, archive: string)
    requires IsVisit(s, order)
    requires forall k :: k in s.datasets ==> ValidKey(k)
    requires |lines| >= 1 && lines[0] == Header(archive) && Sorted(lines[1..])
    requires multiset(lines[1..]) == multiset(DatasetNames(s, order))
    ensures forall n :: n in lines[1..] <==> exists k :: k in s.datasets && Join(k) == n
    ensures forall i, j :: 1 <= i < j < |lines| ==> lines[i] != lines[j]
  {
    var names := DatasetNames(s, order);
    forall n ensures n in lines[1..] <==> n in names {
      assert n in lines[1..] <==> n in multiset(lines[1..]);
    }
    forall n | exists k :: k in s.datasets && Join(k) == n ensures n in names {
      var k :| k in s.datasets && Join(k) == n;
      assert k in order;
      var i :| 0 <= i < |order| && order[i] == k;
    }
    DatasetNamesDistinct(s, order);
    forall i, j | 1 <= i < j < |lines| ensures lines[i] != lines[j] {
      if lines[i] == lines[j] {
        var tail := lines[1..];
        assert tail[i - 1] == lines[i] && tail[j - 1] == lines[j];
        TwiceCounted(tail, i - 1, j - 1);
        DistinctOnce(names, lines[i]);
        assert false;
      }
    }
  }

  /** In an archive whose segments hold no `/`, the name of a group is never listed. */
  lemma ListingOmitsGroups(s: Store, order: seq<Key>, g: Key)
    requires Consistent(s) && g in s.groups && ValidKey(g)
    requires forall k :: k in s.datasets ==> ValidKey(k)
    ensures Join(g) !in DatasetNames(s, order)
  {
    forall i | 0 <= i < |order| && order[i] in s.datasets ensures Join(order[i]) != Join(g) {
      JoinInjective(order[i], g);
    }
  }

  /** Python orders `a.txt` before `a/c.txt` before `b.txt`: code points, with `.` below `/`. */
  lemma SortExample()
    ensures Sort(["b.txt", "a/c.txt", "a.txt"]) == ["a.txt", "a/c.txt", "b.txt"]
  {
    var xs: seq<string> := ["b.txt", "a/c.txt", "a.txt"];
    var ys: seq<string> := ["a.txt", "a/c.txt", "b.txt"];
    assert Below("a.txt", "a/c.txt") && Below("a/c.txt", "b.txt") && Below("a.txt", "b.txt");
    assert Sorted(ys);
    assert multiset(xs) == multiset(ys);
    SortedUnique(Sort(xs), ys);
  }
}
