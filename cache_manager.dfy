/**
 * `CacheManager`: where cached media files live on disk, and the size-driven eviction that
 * `cleanup_cache` performs over them.
 */
module CacheManager {
  import opened Text

  // ---------------------------------------------------------------------------------------------
  // Cache paths

  const Suffix: string := ".cache"

  /** `get_cache_path`: `<cache dir>/<key>.cache`, from which the key can be read back. */
  function CachePath(dir: string, key: string): (path: string)
    ensures CacheKeyOf(dir, path) == Some(key)
  {
    var p := dir + "/" + key + Suffix;
    var n := |dir| + 1;
    assert p[..n] == dir + "/";
    assert p[|p| - |Suffix|..] == Suffix;
    assert p[n..|p| - |Suffix|] == key;
    p
  }

  /** The key a cache path was built from, when `path` has the shape `<dir>/<key>.cache`. */
  function CacheKeyOf(dir: string, path: string): (key: Option<string>)
    ensures key.Some? ==> |dir| + 1 + |Suffix| <= |path| && path[|path| - |Suffix|..] == Suffix
  {
    var n := |dir| + 1;
    if n + |Suffix| <= |path| && path[..n] == dir + "/" && path[|path| - |Suffix|..] == Suffix
    then Some(path[n..|path| - |Suffix|])
    else None
  }

  /** Distinct keys never share a cache file. */
  lemma {:induction false} CachePathInjective(dir: string, k1: string, k2: string)
    requires CachePath(dir, k1) == CachePath(dir, k2)
    ensures k1 == k2
  {
    assert CacheKeyOf(dir, CachePath(dir, k1)) == Some(k1);
  }

  // ---------------------------------------------------------------------------------------------
  // Cache listing

  /** One `(cache_file, st_mtime, st_size)` entry of the listing. */
  datatype CacheFile = CacheFile(path: string, mtime: int, size: nat)

  function TotalSize(files: seq<CacheFile>): nat
    decreases |files|
  {
    if files == [] then 0 else files[0].size + TotalSize(files[1..])
  }

  lemma {:induction false} TotalSizeAppend(a: seq<CacheFile>, b: seq<CacheFile>)
    ensures TotalSize(a + b) == TotalSize(a) + TotalSize(b)
    decreases |a|
  {
    if a == [] {
      assert a + b == b;
    } else {
      assert (a + b)[1..] == a[1..] + b;
      TotalSizeAppend(a[1..], b);
    }
  }

  /** `cache_size <= MAX_CACHE_SIZE * 0.8`, on integers: exact for any maximum divisible by 5. */
  predicate WithinTarget(size: int, maxCacheSize: int) {
    5 * size <= 4 * maxCacheSize
  }

  // ---------------------------------------------------------------------------------------------
  // Oldest first

  predicate SortedByMtime(s: seq<CacheFile>) {
    forall i, j :: 0 <= i < j < |s| ==> s[i].mtime <= s[j].mtime
  }

  /** The entries of `s` with modification time `t`, in their order in `s`. */
  function WithMtime(s: seq<CacheFile>, t: int): seq<CacheFile>
    decreases |s|
  {
    if s == [] then [] else (if s[0].mtime == t then [s[0]] else []) + WithMtime(s[1..], t)
  }

  /** Puts `x` right before the first entry that is not older than it. */
  function InsertByMtime(x: CacheFile, s: seq<CacheFile>): (r: seq<CacheFile>)
    ensures |r| == |s| + 1
    decreases |s|
  {
    if s == [] || x.mtime <= s[0].mtime then [x] + s else [s[0]] + InsertByMtime(x, s[1..])
  }

  /**
   * `cache_files.sort(key=lambda x: x[1])`: a stable sort on the modification time. The result is
   * oldest first and holds exactly the entries of the listing.
   */
  function SortByMtime(s: seq<CacheFile>): (r: seq<CacheFile>)
    ensures |r| == |s|
    ensures SortedByMtime(r)
    ensures multiset(r) == multiset(s)
    decreases |s|
  {
    if s == [] then []
    else
      var t := SortByMtime(s[1..]);
      InsertKeepsSorted(s[0], t);
      InsertIsPermutation(s[0], t);
      assert s == [s[0]] + s[1..];
      InsertByMtime(s[0], t)
  }

  /** An entry no newer than any entry of a sorted list can go in front of it. */
  lemma {:induction false} SortedCons(h: CacheFile, t: seq<CacheFile>)
    requires SortedByMtime(t)
    requires forall e :: e in t ==> h.mtime <= e.mtime
    ensures SortedByMtime([h] + t)
  {
    var r := [h] + t;
    forall i, j | 0 <= i < j < |r| ensures r[i].mtime <= r[j].mtime {
      assert r[j] == t[j - 1];
      if i > 0 {
        assert r[i] == t[i - 1];
      }
    }
  }

  lemma {:induction false} InsertKeepsSorted(x: CacheFile, s: seq<CacheFile>)
    requires SortedByMtime(s)
    ensures SortedByMtime(InsertByMtime(x, s))
    decreases |s|
  {
    if s == [] || x.mtime <= s[0].mtime {
      forall e | e in s ensures x.mtime <= e.mtime {
        var k :| 0 <= k < |s| && s[k] == e;
        assert s[0].mtime <= s[k].mtime;
      }
      SortedCons(x, s);
    } else {
      var tail := InsertByMtime(x, s[1..]);
      assert SortedByMtime(s[1..]) by {
        forall i, j | 0 <= i < j < |s[1..]| ensures s[1..][i].mtime <= s[1..][j].mtime {
          assert s[1..][i] == s[i + 1] && s[1..][j] == s[j + 1];
        }
      }
      InsertKeepsSorted(x, s[1..]);
      InsertIsPermutation(x, s[1..]);
      forall e | e in tail ensures s[0].mtime <= e.mtime {
        assert e in multiset(tail);
        if e != x {
          assert e in multiset(s[1..]);
          var k :| 0 <= k < |s[1..]| && s[1..][k] == e;
          assert s[k + 1] == e;
        }
      }
      SortedCons(s[0], tail);
    }
  }

  lemma {:induction false} InsertIsPermutation(x: CacheFile, s: seq<CacheFile>)
    ensures multiset(InsertByMtime(x, s)) == multiset(s) + multiset{x}
    decreases |s|
  {
    if s != [] && x.mtime > s[0].mtime {
      InsertIsPermutation(x, s[1..]);
      assert s == [s[0]] + s[1..];
    }
  }

  lemma {:induction false} InsertIsStable(x: CacheFile, s: seq<CacheFile>, t: int)
    ensures WithMtime(InsertByMtime(x, s), t) == WithMtime([x], t) + WithMtime(s, t)
    decreases |s|
  {
    var r := InsertByMtime(x, s);
    if s == [] || x.mtime <= s[0].mtime {
      assert r == [x] + s;
      assert r[1..] == s;
    } else {
      InsertIsStable(x, s[1..], t);
      assert r[1..] == InsertByMtime(x, s[1..]);
      assert [x][1..] == [];
    }
  }

  /** Entries with equal modification times keep their listing order (Python's sort is stable). */
  lemma {:induction false} SortIsStable(s: seq<CacheFile>, t: int)
    ensures WithMtime(SortByMtime(s), t) == WithMtime(s, t)
    decreases |s|
  {
    if s != [] {
      var head := if s[0].mtime == t then [s[0]] else [];
      assert [s[0]][1..] == [];
      assert WithMtime([s[0]], t) == head + WithMtime([], t);
      assert WithMtime(s, t) == head + WithMtime(s[1..], t);
      SortIsStable(s[1..], t);
      InsertIsStable(s[0], SortByMtime(s[1..]), t);
      assert SortByMtime(s) == InsertByMtime(s[0], SortByMtime(s[1..]));
    }
  }

  lemma {:induction false} TotalSizeInsert(x: CacheFile, s: seq<CacheFile>)
    ensures TotalSize(InsertByMtime(x, s)) == x.size + TotalSize(s)
    decreases |s|
  {
    var r := InsertByMtime(x, s);
    if s == [] || x.mtime <= s[0].mtime {
      assert r[1..] == s;
    } else {
      TotalSizeInsert(x, s[1..]);
      assert r[1..] == InsertByMtime(x, s[1..]);
    }
  }

  /** Sorting changes no size. */
  lemma {:induction false} TotalSizeSort(s: seq<CacheFile>)
    ensures TotalSize(SortByMtime(s)) == TotalSize(s)
    decreases |s|
  {
    if s != [] {
      TotalSizeSort(s[1..]);
      TotalSizeInsert(s[0], SortByMtime(s[1..]));
    }
  }

  // ---------------------------------------------------------------------------------------------
  // Eviction

  /**
   * The entries whose `unlink` succeeds, in order; `failing` holds the paths whose `unlink` raises
   * `OSError`.
   */
  function Unlinked(files: seq<CacheFile>, failing: set<string>): (r: seq<CacheFile>)
    decreases |files|
  {
    if files == [] then []
    else (if files[0].path in failing then [] else [files[0]]) + Unlinked(files[1..], failing)
  }

  /** An entry is unlinked exactly when it was tried and its path is not among the failing ones. */
  lemma {:induction false} UnlinkedMembers(files: seq<CacheFile>, failing: set<string>, f: CacheFile)
    ensures f in Unlinked(files, failing) <==> f in files && f.path !in failing
    decreases |files|
  {
    if files != [] {
      UnlinkedMembers(files[1..], failing, f);
      assert files == [files[0]] + files[1..];
    }
  }

  lemma {:induction false} UnlinkedAppend(a: seq<CacheFile>, b: seq<CacheFile>, failing: set<string>)
    ensures Unlinked(a + b, failing) == Unlinked(a, failing) + Unlinked(b, failing)
    decreases |a|
  {
    if a == [] {
      assert a + b == b;
    } else {
      assert (a + b)[1..] == a[1..] + b;
      UnlinkedAppend(a[1..], b, failing);
    }
  }

  /** The bytes the successful unlinks among `files` free. */
  function Freed(files: seq<CacheFile>, failing: set<string>): nat {
    TotalSize(Unlinked(files, failing))
  }

  lemma {:induction false} FreedAtMostTotal(files: seq<CacheFile>, failing: set<string>)
    ensures Freed(files, failing) <= TotalSize(files)
    decreases |files|
  {
    if files != [] {
      FreedAtMostTotal(files[1..], failing);
      TotalSizeAppend(if files[0].path in failing then [] else [files[0]], Unlinked(files[1..], failing));
    }
  }

  /** Taking one more entry frees its size exactly when its unlink succeeds. */
  lemma {:induction false} FreedStep(files: seq<CacheFile>, k: nat, failing: set<string>)
    requires k < |files|
    ensures Freed(files[..k + 1], failing) ==
            Freed(files[..k], failing) + (if files[k].path in failing then 0 else files[k].size)
  {
    assert files[..k + 1] == files[..k] + [files[k]];
    UnlinkedAppend(files[..k], [files[k]], failing);
    TotalSizeAppend(Unlinked(files[..k], failing), Unlinked([files[k]], failing));
    assert [files[k]][1..] == [];
  }

  /**
   * How many entries of the oldest-first list the loop of `cleanup_cache` tries to unlink, when the
   * running size starts at `size`: it stops at the first entry seen with the size within target.
   */
  function EvictCount(files: seq<CacheFile>, size: int, failing: set<string>, maxCacheSize: int): (n: nat)
    ensures n <= |files|
    decreases |files|
  {
    if files == [] || WithinTarget(size, maxCacheSize) then 0
    else
      var next := if files[0].path in failing then size else size - files[0].size;
      1 + EvictCount(files[1..], next, failing, maxCacheSize)
  }

  /** Nothing is deleted exactly when there is nothing to delete or the cache is already within target. */
  lemma EvictCountZero(files: seq<CacheFile>, size: int, failing: set<string>, maxCacheSize: int)
    ensures EvictCount(files, size, failing, maxCacheSize) == 0 <==> files == [] || WithinTarget(size, maxCacheSize)
  {
  }

  /** The running size after the first `k` entries were tried. */
  function SizeAfter(files: seq<CacheFile>, k: nat, size: int, failing: set<string>): int
    requires k <= |files|
  {
    size - Freed(files[..k], failing)
  }

  /**
   * The stopping rule: before every tried entry the size was still over target, and after the
   * last one either every entry has been tried or the size is within target.
   */
  lemma {:induction false} EvictCountStops(files: seq<CacheFile>, size: int, failing: set<string>, maxCacheSize: int)
    ensures var n := EvictCount(files, size, failing, maxCacheSize);
      && (forall j :: 0 <= j < n ==> !WithinTarget(SizeAfter(files, j, size, failing), maxCacheSize))
      && (n == |files| || WithinTarget(SizeAfter(files, n, size, failing), maxCacheSize))
    decreases |files|
  {
    var n := EvictCount(files, size, failing, maxCacheSize);
    if files != [] && !WithinTarget(size, maxCacheSize) {
      var next := if files[0].path in failing then size else size - files[0].size;
      EvictCountStops(files[1..], next, failing, maxCacheSize);
      forall j | 0 <= j <= |files| - 1
        ensures SizeAfter(files, j + 1, size, failing) == SizeAfter(files[1..], j, next, failing)
      {
        assert files[..j + 1] == [files[0]] + files[1..][..j];
        UnlinkedAppend([files[0]], files[1..][..j], failing);
        TotalSizeAppend(Unlinked([files[0]], failing), Unlinked(files[1..][..j], failing));
        assert [files[0]][1..] == [];
      }
      forall j | 0 <= j < n ensures !WithinTarget(SizeAfter(files, j, size, failing), maxCacheSize) {
        if j == 0 {
          assert files[..0] == [];
        } else {
          assert SizeAfter(files, j, size, failing) == SizeAfter(files[1..], j - 1, next, failing);
        }
      }
    } else {
      assert files[..0] == [];
    }
  }

  /** A failed unlink does not stop the eviction: the next oldest entry is tried as well. */
  lemma {:induction false} FailedUnlinkContinues(files: seq<CacheFile>, j: nat, size: int, failing: set<string>, maxCacheSize: int)
    requires j + 1 < |files| && j < EvictCount(files, size, failing, maxCacheSize)
    requires files[j].path in failing
    ensures j + 1 < EvictCount(files, size, failing, maxCacheSize)
    ensures SizeAfter(files, j + 1, size, failing) == SizeAfter(files, j, size, failing)
  {
    var n := EvictCount(files, size, failing, maxCacheSize);
    EvictCountStops(files, size, failing, maxCacheSize);
    FreedStep(files, j, failing);
    assert !WithinTarget(SizeAfter(files, j, size, failing), maxCacheSize);
  }

  lemma {:induction false} EvictCountRest(files: seq<CacheFile>, j: nat, size: int, failing: set<string>, maxCacheSize: int)
    requires j < |files| && !WithinTarget(SizeAfter(files, j, size, failing), maxCacheSize)
    requires EvictCount(files, size, failing, maxCacheSize) ==
             j + EvictCount(files[j..], SizeAfter(files, j, size, failing), failing, maxCacheSize)
    ensures EvictCount(files, size, failing, maxCacheSize) ==
            j + 1 + EvictCount(files[j + 1..], SizeAfter(files, j + 1, size, failing), failing, maxCacheSize)
  {
    FreedStep(files, j, failing);
    assert files[j..][1..] == files[j + 1..];
  }

  /** The listing loop of `cleanup_cache`: collects the entries and adds up their sizes. */
  method ScanListing(listing: seq<CacheFile>) returns (cacheFiles: seq<CacheFile>, cacheSize: int)
    ensures cacheFiles == listing && cacheSize == TotalSize(listing)
  {
    cacheSize := 0;
    cacheFiles := [];
    var i := 0;
    while i < |listing|
      invariant i <= |listing|
      invariant cacheFiles == listing[..i] && cacheSize == TotalSize(cacheFiles)
    {
      TotalSizeAppend(cacheFiles, [listing[i]]);
      assert TotalSize([listing[i]]) == listing[i].size;
      cacheSize := cacheSize + listing[i].size;
      cacheFiles := cacheFiles + [listing[i]];
      assert listing[..i + 1] == listing[..i] + [listing[i]];
      i := i + 1;
    }
    assert cacheFiles == listing;
  }

  /**
   * The eviction loop of `cleanup_cache` over the oldest-first entries: tries to unlink them in
   * order, subtracting the size of each one unlinked, until the running size is within target.
   */
  method EvictOldest(cacheFiles: seq<CacheFile>, total: int, failing: set<string>, maxCacheSize: int)
    returns (attempted: seq<CacheFile>, deleted: seq<CacheFile>, cacheSize: int)
    ensures var n := EvictCount(cacheFiles, total, failing, maxCacheSize);
      && attempted == cacheFiles[..n]
      && deleted == Unlinked(attempted, failing)
      && cacheSize == SizeAfter(cacheFiles, n, total, failing)
  {
    attempted := [];
    deleted := [];
    cacheSize := total;
    assert cacheFiles[..0] == [];
    var j := 0;
    while j < |cacheFiles|
      invariant j <= |cacheFiles|
      invariant attempted == cacheFiles[..j] && deleted == Unlinked(attempted, failing)
      invariant cacheSize == SizeAfter(cacheFiles, j, total, failing)
      invariant EvictCount(cacheFiles, total, failing, maxCacheSize) ==
                j + EvictCount(cacheFiles[j..], cacheSize, failing, maxCacheSize)
    {
      var entry := cacheFiles[j];
      if WithinTarget(cacheSize, maxCacheSize) {
        break;
      }
      EvictCountRest(cacheFiles, j, total, failing, maxCacheSize);
      FreedStep(cacheFiles, j, failing);
      UnlinkedAppend(attempted, [entry], failing);
      if entry.path !in failing {
        cacheSize := cacheSize - entry.size;
        deleted := deleted + [entry];
      } else {
        assert Unlinked([entry], failing) == [];
      }
      attempted := attempted + [entry];
      assert cacheFiles[..j + 1] == cacheFiles[..j] + [entry];
      j := j + 1;
    }
  }

  /**
   * `CacheManager.cleanup_cache` over a directory listing (the `glob` and `stat` results) and the
   * set of paths whose `unlink` fails. Returns the entries it tried to unlink, those it did unlink
   * and the final running size.
   */
  method CleanupCache(listing: seq<CacheFile>, failing: set<string>, maxCacheSize: int)
    returns (attempted: seq<CacheFile>, deleted: seq<CacheFile>, cacheSize: int)
    ensures TotalSize(listing) <= maxCacheSize ==>
              attempted == [] && deleted == [] && cacheSize == TotalSize(listing)
    ensures TotalSize(listing) > maxCacheSize ==>
              var sorted := SortByMtime(listing);
              var n := EvictCount(sorted, TotalSize(listing), failing, maxCacheSize);
              && attempted == sorted[..n]
              && deleted == Unlinked(attempted, failing)
              && cacheSize == SizeAfter(sorted, n, TotalSize(listing), failing)
    ensures 0 <= cacheSize <= TotalSize(listing)
  {
    var cacheFiles;
    cacheFiles, cacheSize := ScanListing(listing);
    attempted := [];
    deleted := [];
    if cacheSize > maxCacheSize {
      cacheFiles := SortByMtime(cacheFiles);
      attempted, deleted, cacheSize := EvictOldest(cacheFiles, cacheSize, failing, maxCacheSize);
      TotalSizeSort(listing);
      SizeAfterInRange(cacheFiles, |attempted|, failing);
    }
  }

  /** Whatever prefix of the entries is tried, the running size stays between 0 and their total. */
  lemma {:induction false} SizeAfterInRange(files: seq<CacheFile>, k: nat, failing: set<string>)
    requires k <= |files|
    ensures 0 <= SizeAfter(files, k, TotalSize(files), failing) <= TotalSize(files)
  {
    FreedAtMostTotal(files[..k], failing);
    TotalSizeAppend(files[..k], files[k..]);
    assert files[..k] + files[k..] == files;
  }

  /** When the total is over the maximum, the oldest entry is always tried (for a maximum >= 0). */
  lemma {:induction false} EvictionStartsOverMax(listing: seq<CacheFile>, failing: set<string>, maxCacheSize: int)
    requires 0 <= maxCacheSize < TotalSize(listing)
    ensures EvictCount(SortByMtime(listing), TotalSize(listing), failing, maxCacheSize) >= 1
  {
    TotalSizeSort(listing);
  }
}
