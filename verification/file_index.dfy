/**
 * `FileMonitor`: an index of the large regular files below a root directory,
 * ordered from largest to smallest, and threshold queries against it.
 */
module FileIndex {
  import opened Text
  import opened DirEntry
  import opened Sorting

  /** An indexed file. The formatted size string is not modelled. */
  datatype FileInfo = FileInfo(path: string, name: string, sizeBytes: nat)

  /** Only files strictly larger than 10 MiB are indexed. */
  const LargeFloor: nat := 10 * 1024 * 1024

  predicate IsLarge(e: Entry) {
    e.regular && e.size > LargeFloor
  }

  function InfoOf(e: Entry): FileInfo {
    FileInfo(e.path, e.name, e.size)
  }

  /** The indexed form of the large regular files of a traversal, in
      traversal order. */
  function LargeOnly(entries: seq<Entry>): seq<FileInfo> {
    if entries == [] then []
    else
      var last := entries[|entries| - 1];
      LargeOnly(entries[..|entries| - 1]) + (if IsLarge(last) then [InfoOf(last)] else [])
  }

  /** A file is in the index exactly when a large regular entry describes it. */
  lemma {:induction false} LargeOnlyMembers(entries: seq<Entry>, f: FileInfo)
    ensures f in LargeOnly(entries) <==> exists i :: 0 <= i < |entries| && IsLarge(entries[i]) && InfoOf(entries[i]) == f
  {
    if entries != [] {
      var front := entries[..|entries| - 1];
      var last := entries[|entries| - 1];
      LargeOnlyMembers(front, f);
      if exists i :: 0 <= i < |front| && IsLarge(front[i]) && InfoOf(front[i]) == f {
        var i :| 0 <= i < |front| && IsLarge(front[i]) && InfoOf(front[i]) == f;
        assert entries[i] == front[i];
      }
      if exists i :: 0 <= i < |entries| && IsLarge(entries[i]) && InfoOf(entries[i]) == f {
        var i :| 0 <= i < |entries| && IsLarge(entries[i]) && InfoOf(entries[i]) == f;
        if i < |front| {
          assert front[i] == entries[i];
        }
      }
    }
  }

  function SizeKey(f: FileInfo): int {
    -(f.sizeBytes as int)
  }

  /** Largest first. */
  ghost predicate BySizeDescending(s: seq<FileInfo>) {
    forall i, j :: 0 <= i < j < |s| ==> s[i].sizeBytes >= s[j].sizeBytes
  }

  /** The files of `s` whose size reaches `threshold`, in order. */
  function Qualifying(s: seq<FileInfo>, threshold: nat): (r: seq<FileInfo>)
    ensures |r| <= |s|
  {
    if s == [] then []
    else
      var last := s[|s| - 1];
      Qualifying(s[..|s| - 1], threshold) + (if last.sizeBytes >= threshold then [last] else [])
  }

  /** A file qualifies exactly when it is in `s` and reaches the threshold. */
  lemma {:induction false} QualifyingMembers(s: seq<FileInfo>, threshold: nat, f: FileInfo)
    ensures f in Qualifying(s, threshold) <==> f in s && f.sizeBytes >= threshold
  {
    if s != [] {
      var front := s[..|s| - 1];
      QualifyingMembers(front, threshold, f);
      assert s == front + [s[|s| - 1]];
    }
  }

  lemma {:induction false} QualifyingAppend(a: seq<FileInfo>, b: seq<FileInfo>, threshold: nat)
    ensures Qualifying(a + b, threshold) == Qualifying(a, threshold) + Qualifying(b, threshold)
  {
    if b == [] {
      assert a + b == a;
    } else {
      var front := b[..|b| - 1];
      assert (a + b)[..|a + b| - 1] == a + front;
      QualifyingAppend(a, front, threshold);
    }
  }

  lemma {:induction false} QualifyingAll(s: seq<FileInfo>, threshold: nat)
    requires forall i :: 0 <= i < |s| ==> s[i].sizeBytes >= threshold
    ensures Qualifying(s, threshold) == s
  {
    if s != [] {
      QualifyingAll(s[..|s| - 1], threshold);
    }
  }

  /** On a largest-first index the qualifying files are a prefix of it: the
      largest ones. */
  lemma {:induction false} QualifyingOfDescending(s: seq<FileInfo>, threshold: nat)
    requires BySizeDescending(s)
    ensures Qualifying(s, threshold) == s[..|Qualifying(s, threshold)|]
  {
    if s != [] {
      var front := s[..|s| - 1];
      var last := s[|s| - 1];
      if last.sizeBytes >= threshold {
        QualifyingAll(s, threshold);
      } else {
        QualifyingOfDescending(front, threshold);
        var k := |Qualifying(front, threshold)|;
        assert front[..k] == s[..k];
      }
    }
  }

  /** What `getLargeFiles` returns: the qualifying files, cut to `limit` unless
      `limit` is -1. The limit is checked after each push, so a limit of 0 or
      below (other than -1) still lets the first qualifying file through. */
  function LargeFiles(index: seq<FileInfo>, threshold: nat, limit: int): seq<FileInfo> {
    var q := Qualifying(index, threshold);
    if limit == -1 then q else q[..Min(Max(limit, 1), |q|)]
  }

  /** The result is a prefix of the qualifying files: every file in it reaches
      the threshold, it keeps index order, and its length is set by `limit`. */
  lemma LargeFilesSpec(index: seq<FileInfo>, threshold: nat, limit: int)
    ensures var r := LargeFiles(index, threshold, limit);
      var q := Qualifying(index, threshold);
      r == q[..|r|] &&
      (forall f :: f in r ==> f in index && f.sizeBytes >= threshold) &&
      (limit == -1 ==> r == q) &&
      (limit >= 1 ==> |r| == Min(limit, |q|)) &&
      (limit != -1 && limit <= 0 ==> |r| == Min(1, |q|))
  {
    var r := LargeFiles(index, threshold, limit);
    var q := Qualifying(index, threshold);
    forall f | f in r ensures f in index && f.sizeBytes >= threshold {
      var i :| 0 <= i < |r| && r[i] == f;
      assert q[i] == f;
      QualifyingMembers(index, threshold, f);
    }
  }

  /** After a scan (largest first), the result is a prefix of the index: the
      largest files. */
  lemma LargeFilesAreLargest(index: seq<FileInfo>, threshold: nat, limit: int)
    requires BySizeDescending(index)
    ensures LargeFiles(index, threshold, limit) == index[..|LargeFiles(index, threshold, limit)|]
  {
    QualifyingOfDescending(index, threshold);
    LargeFilesSpec(index, threshold, limit);
  }

  /** Where the loop of `getLargeFiles` breaks: once the files qualifying in
      the first `n` reach the limit, the answer is exactly those. */
  lemma LargeFilesAtCut(index: seq<FileInfo>, threshold: nat, limit: int, n: nat)
    requires n <= |index| && limit != -1
    requires |Qualifying(index[..n], threshold)| == Max(limit, 1)
    ensures LargeFiles(index, threshold, limit) == Qualifying(index[..n], threshold)
  {
    QualifyingAppend(index[..n], index[n..], threshold);
    assert index[..n] + index[n..] == index;
  }

  const MiB: nat := 1024 * 1024

  /** A traversal with regular files of 5, 15 and 200 MiB. */
  const ExampleTraversal: seq<Entry> :=
    [Entry("/d/a", "a", true, 5 * MiB), Entry("/d/b", "b", true, 15 * MiB), Entry("/d/c", "c", true, 200 * MiB)]

  lemma ExampleLargeOnly()
    ensures LargeOnly(ExampleTraversal) == [FileInfo("/d/b", "b", 15 * MiB), FileInfo("/d/c", "c", 200 * MiB)]
  {
    var t := ExampleTraversal;
    assert t[..2] == t[..|t| - 1] && t[..2][..1] == [t[0]] && [t[0]][..0] == [];
    assert LargeOnly([t[0]]) == [];
  }

  /** Two different files, ordered largest first, have only one order. */
  lemma PairDescending(index: seq<FileInfo>, big: FileInfo, small: FileInfo)
    requires big.sizeBytes > small.sizeBytes
    requires multiset(index) == multiset([small, big])
    requires BySizeDescending(index)
    ensures index == [big, small]
  {
    assert |index| == |multiset(index)| == 2;
    assert index[0] in multiset(index) && index[1] in multiset(index);
    assert index == [index[0], index[1]];
  }

  /** Whatever order the sort leaves equal sizes in, a scan of the example
      indexes [200 MiB, 15 MiB]. */
  lemma ScanExample(index: seq<FileInfo>)
    requires multiset(index) == multiset(LargeOnly(ExampleTraversal))
    requires BySizeDescending(index)
    ensures index == [FileInfo("/d/c", "c", 200 * MiB), FileInfo("/d/b", "b", 15 * MiB)]
  {
    ExampleLargeOnly();
    PairDescending(index, FileInfo("/d/c", "c", 200 * MiB), FileInfo("/d/b", "b", 15 * MiB));
  }

  class FileMonitor {
    /** The directory of the last scan (initially the home directory). */
    var currentRootPath: string
    /** The large files found by the last scan, largest first. */
    var fileIndex: seq<FileInfo>

    /** `home` is `$HOME`, or the password-database home directory. */
    constructor (home: string)
      ensures currentRootPath == home && fileIndex == []
    {
      currentRootPath := home;
      fileIndex := [];
    }

    method GetCurrentRoot() returns (root: string)
      ensures root == currentRootPath
    {
      root := currentRootPath;
    }

    /** `scanDirectory`: clear the index, record the root, push every large
        regular file, sort largest first; return how many were pushed. */
    method ScanDirectory(rootPath: string, traversal: seq<Entry>) returns (count: nat)
      modifies this
      ensures currentRootPath == rootPath
      ensures multiset(fileIndex) == multiset(LargeOnly(traversal))
      ensures BySizeDescending(fileIndex)
      ensures count == |fileIndex|
    {
      fileIndex := [];
      currentRootPath := rootPath;
      count := 0;
      for i := 0 to |traversal|
        invariant currentRootPath == rootPath
        invariant fileIndex == LargeOnly(traversal[..i])
        invariant count == |fileIndex|
      {
        var entry := traversal[i];
        assert traversal[..i + 1][..i] == traversal[..i];
        if entry.regular {
          var size := entry.size;
          if size > 10 * 1024 * 1024 {
            fileIndex := fileIndex + [FileInfo(entry.path, entry.name, size)];
            count := count + 1;
          }
        }
      }
      assert traversal[..|traversal|] == traversal;
      fileIndex := SortBy(fileIndex, SizeKey);
    }

    /** `getLargeFiles` with the threshold already converted to bytes. */
    method GetLargeFiles(threshold: nat, limit: int) returns (result: seq<FileInfo>)
      ensures result == LargeFiles(fileIndex, threshold, limit)
    {
      result := [];
      var count := 0;
      var i := 0;
      while i < |fileIndex|
        invariant 0 <= i <= |fileIndex|
        invariant result == Qualifying(fileIndex[..i], threshold)
        invariant count == |result|
        invariant limit == -1 || count < Max(limit, 1)
      {
        var file := fileIndex[i];
        assert fileIndex[..i + 1][..i] == fileIndex[..i];
        if file.sizeBytes >= threshold {
          result := result + [file];
          count := count + 1;
          if limit != -1 && count >= limit {
            LargeFilesAtCut(fileIndex, threshold, limit, i + 1);
            return;
          }
        }
        i := i + 1;
      }
      assert fileIndex[..i] == fileIndex;
    }
  }
}
