/**
 * `TimeOrderedFileList`, a `std::multimap<std::time_t, fs::path>`, modelled
 * as a sequence of (time, path) pairs in iteration order. `multimap::insert`
 * puts a new pair after every pair whose key is not greater (C++11), so
 * pairs with equal times keep their insertion order.
 */
module TimeOrdered {
  import opened FsPath

  datatype TimedPath = TimedPath(mtime: int, path: Path)

  type TimeOrderedFileList = seq<TimedPath>

  /** Iteration order of a multimap: keys never decrease. */
  ghost predicate Sorted(l: TimeOrderedFileList)
  {
    forall i, j :: 0 <= i < j < |l| ==> l[i].mtime <= l[j].mtime
  }

  /** `multimap::insert`: at the upper bound of the new key. */
  function InsertByTime(l: TimeOrderedFileList, e: TimedPath): (r: TimeOrderedFileList)
    ensures multiset(r) == multiset(l) + multiset{e}
  {
    if l == [] then [e]
    else if e.mtime < l[0].mtime then [e] + l
    else
      var rest := InsertByTime(l[1..], e);
      assert l == [l[0]] + l[1..];
      [l[0]] + rest
  }

  /** A pair whose time is not above any time in a sorted list can lead it. */
  lemma PrependSorted(x: TimedPath, l: TimeOrderedFileList)
    requires Sorted(l)
    requires forall j :: 0 <= j < |l| ==> x.mtime <= l[j].mtime
    ensures Sorted([x] + l)
  {
    var r := [x] + l;
    forall i, j | 0 <= i < j < |r| ensures r[i].mtime <= r[j].mtime {
      assert r[j] == l[j - 1];
      if i > 0 {
        assert r[i] == l[i - 1];
      }
    }
  }

  /** Inserting keeps the multimap in key order. */
  lemma {:induction false} InsertByTimeSorted(l: TimeOrderedFileList, e: TimedPath)
    requires Sorted(l)
    ensures Sorted(InsertByTime(l, e))
  {
    if l == [] {
    } else if e.mtime < l[0].mtime {
      PrependSorted(e, l);
    } else {
      var rest := InsertByTime(l[1..], e);
      InsertByTimeSorted(l[1..], e);
      forall j | 0 <= j < |rest| ensures l[0].mtime <= rest[j].mtime {
        var x := rest[j];
        assert x in multiset(rest);
        if x != e {
          assert x in multiset(l[1..]);
          var i :| 0 <= i < |l[1..]| && l[1..][i] == x;
          assert l[i + 1] == x;
        }
      }
      PrependSorted(l[0], rest);
    }
  }

  /** The pairs with time `k`, in iteration order. */
  function WithTime(l: TimeOrderedFileList, k: int): TimeOrderedFileList
  {
    if l == [] then []
    else (if l[0].mtime == k then [l[0]] else []) + WithTime(l[1..], k)
  }

  lemma {:induction false} WithTimeConcat(a: TimeOrderedFileList, b: TimeOrderedFileList, k: int)
    ensures WithTime(a + b, k) == WithTime(a, k) + WithTime(b, k)
  {
    if a == [] {
      assert a + b == b;
    } else {
      var ab := a + b;
      assert ab[0] == a[0];
      assert ab[1..] == a[1..] + b;
      var head := if a[0].mtime == k then [a[0]] else [];
      calc {
        WithTime(ab, k);
        head + WithTime(a[1..] + b, k);
        { WithTimeConcat(a[1..], b, k); }
        head + (WithTime(a[1..], k) + WithTime(b, k));
        (head + WithTime(a[1..], k)) + WithTime(b, k);
      }
    }
  }

  lemma {:induction false} WithTimeAbove(l: TimeOrderedFileList, k: int)
    requires forall i :: 0 <= i < |l| ==> l[i].mtime > k
    ensures WithTime(l, k) == []
  {
    if l != [] {
      WithTimeAbove(l[1..], k);
    }
  }

  /**
   * Inserting into a sorted list appends the new pair to the run of pairs
   * with its time, and leaves every other run as it was: ties keep insertion order.
   */
  lemma {:induction false} InsertByTimeKeepsTies(l: TimeOrderedFileList, e: TimedPath, k: int)
    requires Sorted(l)
    ensures WithTime(InsertByTime(l, e), k) == WithTime(l, k) + (if e.mtime == k then [e] else [])
  {
    var r := InsertByTime(l, e);
    if l == [] {
      assert r == [e] && r[1..] == [];
    } else if e.mtime < l[0].mtime {
      assert r == [e] + l && r[1..] == l;
      if e.mtime == k {
        SortedAboveHead(l, k);
      }
    } else {
      var rest := InsertByTime(l[1..], e);
      assert r == [l[0]] + rest;
      assert r[0] == l[0] && r[1..] == rest;
      var head := if l[0].mtime == k then [l[0]] else [];
      var added := if e.mtime == k then [e] else [];
      calc {
        WithTime(r, k);
        head + WithTime(rest, k);
        { SortedTail(l); InsertByTimeKeepsTies(l[1..], e, k); }
        head + (WithTime(l[1..], k) + added);
        (head + WithTime(l[1..], k)) + added;
      }
    }
  }

  lemma SortedTail(l: TimeOrderedFileList)
    requires Sorted(l) && l != []
    ensures Sorted(l[1..])
  {
    forall i, j | 0 <= i < j < |l[1..]| ensures l[1..][i].mtime <= l[1..][j].mtime {
      assert l[1..][i] == l[i + 1] && l[1..][j] == l[j + 1];
    }
  }

  /** In a sorted list whose first time is above `k`, no pair has time `k`. */
  lemma SortedAboveHead(l: TimeOrderedFileList, k: int)
    requires Sorted(l) && l != [] && l[0].mtime > k
    ensures WithTime(l, k) == []
  {
    forall i | 0 <= i < |l| ensures l[i].mtime > k {
      assert i == 0 || l[0].mtime <= l[i].mtime;
    }
    WithTimeAbove(l, k);
  }

  /** The regular files of a listing of `dir`, keyed by their write time, in listing order. */
  function RegularFiles(dir: string, scan: seq<DirEntry>): (r: TimeOrderedFileList)
    ensures |r| <= |scan|
  {
    if scan == [] then []
    else
      var e := scan[|scan| - 1];
      RegularFiles(dir, scan[..|scan| - 1])
        + (if e.isRegularFile then [TimedPath(e.mtime, Path(dir, e.name))] else [])
  }

  /** Every entry of RegularFiles comes from a regular file of the listing, under `dir`. */
  lemma {:induction false} RegularFilesFromScan(dir: string, scan: seq<DirEntry>, t: TimedPath)
    requires t in RegularFiles(dir, scan)
    ensures t.path.dir == dir && DirEntry(t.path.name, true, t.mtime) in scan
  {
    var prefix := scan[..|scan| - 1];
    if t in RegularFiles(dir, prefix) {
      RegularFilesFromScan(dir, prefix, t);
      assert prefix[..] <= scan;
    }
  }

  /** Every regular file of the listing has its entry in RegularFiles. */
  lemma {:induction false} RegularFilesComplete(dir: string, scan: seq<DirEntry>, i: int)
    requires 0 <= i < |scan| && scan[i].isRegularFile
    ensures TimedPath(scan[i].mtime, Path(dir, scan[i].name)) in RegularFiles(dir, scan)
  {
    var prefix := scan[..|scan| - 1];
    if i < |scan| - 1 {
      assert prefix[i] == scan[i];
      RegularFilesComplete(dir, prefix, i);
    }
  }

  /**
   * The loop of createTimeOrderedFilesList: starting from an empty
   * multimap, insert every regular file of the listing in listing order.
   */
  function BuildTimeOrdered(dir: string, scan: seq<DirEntry>): (r: TimeOrderedFileList)
    ensures Sorted(r)
    ensures multiset(r) == multiset(RegularFiles(dir, scan))
  {
    if scan == [] then []
    else
      var e := scan[|scan| - 1];
      var prior := BuildTimeOrdered(dir, scan[..|scan| - 1]);
      if e.isRegularFile then
        InsertByTimeSorted(prior, TimedPath(e.mtime, Path(dir, e.name)));
        InsertByTime(prior, TimedPath(e.mtime, Path(dir, e.name)))
      else prior
  }

  /** One more pass of the listing loop: the next entry is inserted when it is a regular file. */
  lemma BuildTimeOrderedStep(dir: string, scan: seq<DirEntry>, i: int)
    requires 0 <= i < |scan|
    ensures var e := scan[i];
      BuildTimeOrdered(dir, scan[..i + 1])
      == if e.isRegularFile then InsertByTime(BuildTimeOrdered(dir, scan[..i]), TimedPath(e.mtime, Path(dir, e.name)))
         else BuildTimeOrdered(dir, scan[..i])
  {
    assert scan[..i + 1][..i] == scan[..i];
  }

  /** Files with equal write times come out in the order the listing gave them. */
  lemma {:induction false} BuildTimeOrderedKeepsTies(dir: string, scan: seq<DirEntry>, k: int)
    ensures WithTime(BuildTimeOrdered(dir, scan), k) == WithTime(RegularFiles(dir, scan), k)
  {
    if scan != [] {
      var e := scan[|scan| - 1];
      var prefix := scan[..|scan| - 1];
      BuildTimeOrderedKeepsTies(dir, prefix, k);
      var t := TimedPath(e.mtime, Path(dir, e.name));
      if e.isRegularFile {
        assert BuildTimeOrdered(dir, scan) == InsertByTime(BuildTimeOrdered(dir, prefix), t);
        assert RegularFiles(dir, scan) == RegularFiles(dir, prefix) + [t];
        InsertByTimeKeepsTies(BuildTimeOrdered(dir, prefix), t, k);
        WithTimeConcat(RegularFiles(dir, prefix), [t], k);
        assert [t][1..] == [];
        assert WithTime([t], k) == (if e.mtime == k then [t] else []) + WithTime([], k);
      } else {
        assert RegularFiles(dir, scan) == RegularFiles(dir, prefix) + [];
        assert RegularFiles(dir, prefix) + [] == RegularFiles(dir, prefix);
        assert BuildTimeOrdered(dir, scan) == BuildTimeOrdered(dir, prefix);
      }
    }
  }

  /** Reverse iteration of the multimap, stopped after `n` pairs. */
  function MostRecent(l: TimeOrderedFileList, n: int): (r: TimeOrderedFileList)
  {
    var count := if n <= 0 then 0 else if n < |l| then n else |l|;
    seq(count, j requires 0 <= j < count => l[|l| - 1 - j])
  }

  /** One more step of the reverse iteration appends the next pair from the end. */
  lemma MostRecentStep(l: TimeOrderedFileList, c: int)
    requires 0 <= c < |l|
    ensures MostRecent(l, c + 1) == MostRecent(l, c) + [l[|l| - 1 - c]]
  {
  }

  /** MostRecentStep for names that already hold the first `c` file names after some `prefix`. */
  lemma AppendNameStep(names: seq<string>, prefix: seq<string>, l: TimeOrderedFileList, c: int)
    requires 0 <= c < |l|
    requires names == prefix + FileNames(MostRecent(l, c))
    ensures names + [l[|l| - 1 - c].path.name] == prefix + FileNames(MostRecent(l, c + 1))
  {
    MostRecentStep(l, c);
    assert FileNames(MostRecent(l, c + 1)) == FileNames(MostRecent(l, c)) + [l[|l| - 1 - c].path.name];
  }

  /**
   * The MRU selection: min(n, |l|) pairs (none when n <= 0), newest first,
   * and no pair left out is newer than any pair taken.
   */
  lemma MostRecentIsNewestFirst(l: TimeOrderedFileList, n: int)
    requires Sorted(l)
    ensures |MostRecent(l, n)| == if n <= 0 then 0 else if n < |l| then n else |l|
    ensures forall i, j :: 0 <= i < j < |MostRecent(l, n)| ==> MostRecent(l, n)[i].mtime >= MostRecent(l, n)[j].mtime
    ensures forall i, j :: 0 <= i < |l| - |MostRecent(l, n)| && 0 <= j < |MostRecent(l, n)| ==> l[i].mtime <= MostRecent(l, n)[j].mtime
    ensures multiset(MostRecent(l, n)) <= multiset(l)
  {
    MostRecentOrdered(l, n);
    MostRecentDrawnFromList(l, n);
  }

  lemma MostRecentOrdered(l: TimeOrderedFileList, n: int)
    requires Sorted(l)
    ensures forall i, j :: 0 <= i < j < |MostRecent(l, n)| ==> MostRecent(l, n)[i].mtime >= MostRecent(l, n)[j].mtime
    ensures forall i, j :: 0 <= i < |l| - |MostRecent(l, n)| && 0 <= j < |MostRecent(l, n)| ==> l[i].mtime <= MostRecent(l, n)[j].mtime
  {
    var r := MostRecent(l, n);
    forall i, j | 0 <= i < j < |r| ensures r[i].mtime >= r[j].mtime {
      assert r[i] == l[|l| - 1 - i] && r[j] == l[|l| - 1 - j];
    }
    forall i, j | 0 <= i < |l| - |r| && 0 <= j < |r| ensures l[i].mtime <= r[j].mtime {
      assert r[j] == l[|l| - 1 - j];
    }
  }

  lemma MostRecentDrawnFromList(l: TimeOrderedFileList, n: int)
    ensures multiset(MostRecent(l, n)) <= multiset(l)
  {
    var r := MostRecent(l, n);
    var taken := l[|l| - |r|..];
    assert multiset(r) == multiset(taken) by {
      ReversedSameMultiset(taken, r);
    }
    assert multiset(taken) <= multiset(l) by {
      assert l == l[..|l| - |r|] + taken;
    }
  }

  lemma {:induction false} ReversedSameMultiset(a: TimeOrderedFileList, b: TimeOrderedFileList)
    requires |a| == |b|
    requires forall j :: 0 <= j < |b| ==> b[j] == a[|a| - 1 - j]
    ensures multiset(a) == multiset(b)
  {
    if a != [] {
      var a' := a[1..];
      var b' := b[..|b| - 1];
      ReversedSameMultiset(a', b');
      assert a == [a[0]] + a';
      assert b == b' + [b[|b| - 1]];
    }
  }

  /**
   * The names the listing loops push back, one per pair and in order: each
   * is `filename()` of the pair's full path, since names read from a
   * directory hold no separator.
   */
  function FileNames(l: TimeOrderedFileList): (r: seq<string>)
    ensures |r| == |l|
    ensures forall j :: 0 <= j < |l| && '/' !in l[j].path.name ==> r[j] == FileName(l[j].path.ToString())
  {
    seq(|l|, j requires 0 <= j < |l| => l[j].path.name)
  }
}
