/** The local disk cache of block bytes: one file per block under the cache
    directory, and an eviction pass that deletes the oldest files until the
    cache is back under 80 % of its cap. */
module DiskCache {
  import opened Common

  /** A path relative to the cache directory, as its components. */
  type Path = seq<string>

  const GiB := 1024 * 1024 * 1024

  /** Where a block is cached: two directory levels from the digest, then the digest. */
  function CachePath(blockHash: string): (p: Path)
    ensures |p| == 3 && p[2] == blockHash
    ensures 4 <= |blockHash| ==> p[0] == blockHash[..2] && p[1] == blockHash[2..4]
  {
    [Slice(blockHash, 0, 2), Slice(blockHash, 2, 4), blockHash]
  }

  lemma {:induction false} CachePathInjective(a: string, b: string)
    ensures CachePath(a) == CachePath(b) <==> a == b
  {
    if CachePath(a) == CachePath(b) { assert CachePath(a)[2] == CachePath(b)[2]; }
  }

  datatype DiskFile = DiskFile(content: Bytes, mtime: int)

  /** One entry of the directory listing taken by the eviction pass. */
  datatype Entry = Entry(path: Path, size: nat, mtime: int)

  function Entries(listing: seq<Path>, files: map<Path, DiskFile>): (es: seq<Entry>)
    requires forall p :: p in listing ==> p in files
    ensures |es| == |listing|
    ensures forall i :: 0 <= i < |es| ==> es[i].path == listing[i]
  {
    if listing == [] then []
    else [Entry(listing[0], |files[listing[0]].content|, files[listing[0]].mtime)] + Entries(listing[1..], files)
  }

  function TotalSize(es: seq<Entry>): nat
  {
    if es == [] then 0 else es[0].size + TotalSize(es[1..])
  }

  function PathsOf(es: seq<Entry>): set<Path>
  {
    set e | e in es :: e.path
  }

  predicate SortedByMtime(es: seq<Entry>)
  {
    forall i, j :: 0 <= i < j < |es| ==> es[i].mtime <= es[j].mtime
  }

  /** The entries with modification time `t`, in their order in `es`. */
  function WithMtime(es: seq<Entry>, t: int): seq<Entry>
  {
    if es == [] then []
    else (if es[0].mtime == t then [es[0]] else []) + WithMtime(es[1..], t)
  }

  /** Inserts `e` before the first entry that is not older than it, so that
      `e` comes ahead of the entries with its own mtime. */
  function Insert(e: Entry, es: seq<Entry>): (r: seq<Entry>)
    ensures |r| == |es| + 1
    ensures multiset(r) == multiset(es) + multiset{e}
  {
    if es == [] then [e]
    else if es[0].mtime < e.mtime then
      assert es == [es[0]] + es[1..];
      [es[0]] + Insert(e, es[1..])
    else [e] + es
  }

  /** Insertion keeps a sorted sequence sorted. */
  lemma {:induction false} InsertSorted(e: Entry, es: seq<Entry>)
    requires SortedByMtime(es)
    ensures SortedByMtime(Insert(e, es))
  {
    if es != [] && es[0].mtime < e.mtime {
      InsertSorted(e, es[1..]);
      var rest := Insert(e, es[1..]);
      forall x | x in rest ensures es[0].mtime <= x.mtime {
        assert x in multiset(rest);
        assert x in multiset(es[1..]) + multiset{e};
        if x != e {
          assert x in es[1..];
        }
      }
      assert forall j :: 0 <= j < |rest| ==> rest[j] in rest;
    }
  }

  /** `WithMtime` of a sequence with a known first entry. */
  lemma {:induction false} WithMtimeCons(x: Entry, xs: seq<Entry>, t: int)
    ensures WithMtime([x] + xs, t) == (if x.mtime == t then [x] else []) + WithMtime(xs, t)
  {
    assert ([x] + xs)[0] == x && ([x] + xs)[1..] == xs;
  }

  /** Inserting `e` puts it ahead of the entries with its mtime and leaves
      the order of every mtime's entries otherwise as it was. */
  lemma {:induction false} InsertWithMtime(e: Entry, es: seq<Entry>, t: int)
    ensures WithMtime(Insert(e, es), t) == (if e.mtime == t then [e] else []) + WithMtime(es, t)
  {
    if es == [] {
      WithMtimeCons(e, [], t);
    } else if es[0].mtime < e.mtime {
      InsertWithMtime(e, es[1..], t);
      InsertSkipsOlder(e, es, t);
    } else {
      assert Insert(e, es) == [e] + es;
      WithMtimeCons(e, es, t);
    }
  }

  /** The step of `InsertWithMtime` past an older first entry. */
  lemma {:induction false} InsertSkipsOlder(e: Entry, es: seq<Entry>, t: int)
    requires es != [] && es[0].mtime < e.mtime
    requires WithMtime(Insert(e, es[1..]), t) == (if e.mtime == t then [e] else []) + WithMtime(es[1..], t)
    ensures WithMtime(Insert(e, es), t) == (if e.mtime == t then [e] else []) + WithMtime(es, t)
  {
    assert Insert(e, es) == [es[0]] + Insert(e, es[1..]);
    assert es == [es[0]] + es[1..];
    WithMtimeBehindOlder(e, es[0], Insert(e, es[1..]), es[1..], t);
  }

  /** An entry older than `e` goes in front of both sides of the equation of
      `InsertWithMtime`: it cannot share `e`'s mtime. */
  lemma {:induction false} WithMtimeBehindOlder(e: Entry, x: Entry, r: seq<Entry>, xs: seq<Entry>, t: int)
    requires x.mtime < e.mtime
    requires WithMtime(r, t) == (if e.mtime == t then [e] else []) + WithMtime(xs, t)
    ensures WithMtime([x] + r, t) == (if e.mtime == t then [e] else []) + WithMtime([x] + xs, t)
  {
    WithMtimeCons(x, r, t);
    WithMtimeCons(x, xs, t);
    var head := if e.mtime == t then [e] else [];
    var first := if x.mtime == t then [x] else [];
    var w := WithMtime(xs, t);
    assert first == [] || head == [];
    assert first + (head + w) == head + (first + w);
  }

  /** Python's stable `sorted(..., key=mtime)`, as an insertion sort: a
      permutation, oldest first, with the entries of equal mtime in their
      listing order. */
  function SortByMtime(es: seq<Entry>): (r: seq<Entry>)
    ensures |r| == |es|
    ensures multiset(r) == multiset(es)
    ensures SortedByMtime(r)
    ensures forall t :: WithMtime(r, t) == WithMtime(es, t)
  {
    if es == [] then []
    else
      assert es == [es[0]] + es[1..];
      var rest := SortByMtime(es[1..]);
      InsertSorted(es[0], rest);
      InsertAllWithMtime(es[0], rest, es);
      Insert(es[0], rest)
  }

  /** The stability step of the sort: inserting the head into the sorted
      tail keeps every mtime's entries in listing order. */
  lemma {:induction false} InsertAllWithMtime(e: Entry, rest: seq<Entry>, es: seq<Entry>)
    requires es != [] && e == es[0]
    requires forall t :: WithMtime(rest, t) == WithMtime(es[1..], t)
    ensures forall t :: WithMtime(Insert(e, rest), t) == WithMtime(es, t)
  {
    forall t ensures WithMtime(Insert(e, rest), t) == WithMtime(es, t) {
      InsertWithMtime(e, rest, t);
    }
  }

  lemma {:induction false} TotalSizeAppend(es: seq<Entry>, e: Entry)
    ensures TotalSize(es + [e]) == TotalSize(es) + e.size
  {
    if es == [] {
      assert es + [e] == [e];
    } else {
      assert (es + [e])[1..] == es[1..] + [e];
      TotalSizeAppend(es[1..], e);
    }
  }

  lemma {:induction false} TotalSizeSplit(es: seq<Entry>, k: nat)
    requires k <= |es|
    ensures TotalSize(es) == TotalSize(es[..k]) + TotalSize(es[k..])
  {
    if k > 0 {
      assert es[1..][..k - 1] == es[..k][1..];
      assert es[1..][k - 1..] == es[k..];
      TotalSizeSplit(es[1..], k - 1);
    }
  }

  lemma {:induction false} TotalSizeInsert(e: Entry, es: seq<Entry>)
    ensures TotalSize(Insert(e, es)) == e.size + TotalSize(es)
  {
    if es != [] && es[0].mtime < e.mtime {
      TotalSizeInsert(e, es[1..]);
      assert Insert(e, es)[1..] == Insert(e, es[1..]);
    }
  }

  /** Sorting by age does not change the total size. */
  lemma {:induction false} TotalSizeSorted(es: seq<Entry>)
    ensures TotalSize(SortByMtime(es)) == TotalSize(es)
  {
    if es != [] {
      TotalSizeSorted(es[1..]);
      TotalSizeInsert(es[0], SortByMtime(es[1..]));
    }
  }

  class DiskCache {
    /** Whether the cache directory exists. */
    var present: bool
    var files: map<Path, DiskFile>
    /** Files that exist but whose read raises. */
    var unreadable: set<Path>
    /** Whether writes under the cache directory succeed. */
    var writable: bool

    ghost predicate Valid()
      reads this
    {
      !present ==> files == map[]
    }

    constructor (writable: bool)
      ensures Valid() && !present && files == map[] && unreadable == {} && this.writable == writable
    {
      present, files, unreadable := false, map[], {};
      this.writable := writable;
    }

    /** The cached bytes; a missing file or a failing read give None. */
    function GetFromCache(blockHash: string): (r: Option<Bytes>)
      reads this
      ensures r.Some? <==> CachePath(blockHash) in files && CachePath(blockHash) !in unreadable
      ensures r.Some? ==> r.value == files[CachePath(blockHash)].content
    {
      var p := CachePath(blockHash);
      if p in files && p !in unreadable then Some(files[p].content) else None
    }

    /** Writes the file (creating its directories); a failing write is swallowed. */
    method SaveToCache(blockHash: string, content: Bytes, now: int)
      requires Valid()
      modifies this
      ensures Valid()
      ensures old(writable) ==> files == old(files)[CachePath(blockHash) := DiskFile(content, now)]
      ensures old(writable) ==> unreadable == old(unreadable) - {CachePath(blockHash)} && present
      ensures !old(writable) ==> files == old(files) && unreadable == old(unreadable) && present == old(present)
      ensures writable == old(writable)
      ensures writable ==> GetFromCache(blockHash) == Some(content)
    {
      if writable {
        var p := CachePath(blockHash);
        present := true;
        files := files[p := DiskFile(content, now)];
        unreadable := unreadable - {p};
      }
    }

    /** The eviction pass. `listing` is the directory walk, in the order the
        file system returns it. Above the cap of `maxSizeGb` GiB it deletes
        files oldest first while more than 80 % of the cap is in use, and
        returns how many it deleted. */
    method CleanupCache(maxSizeGb: nat, listing: seq<Path>) returns (deletedCount: nat)
      requires Valid()
      requires Distinct(listing)
      requires forall p :: p in listing <==> p in files
      modifies this
      ensures Valid()
      ensures present == old(present) && writable == old(writable) && unreadable == old(unreadable)
      ensures deletedCount == EvictionPlan(old(present), Entries(listing, old(files)), maxSizeGb * GiB)
      ensures files == old(files) - PathsOf(SortByMtime(Entries(listing, old(files)))[..deletedCount])
    {
      var es := Entries(listing, files);
      var sorted := SortByMtime(es);
      deletedCount := PlanEviction(present, es, sorted, maxSizeGb * GiB);
      files := files - PathsOf(sorted[..deletedCount]);
    }
  }

  /** The decision part of the eviction pass: nothing when the directory is
      missing or within the cap, else the walk over the oldest entries. */
  method PlanEviction(present: bool, es: seq<Entry>, sorted: seq<Entry>, maxSize: nat) returns (deletedCount: nat)
    requires sorted == SortByMtime(es)
    ensures deletedCount == EvictionPlan(present, es, maxSize)
  {
    deletedCount := 0;
    if !present {
      return;
    }
    var totalSize := TotalSize(es);
    if totalSize > maxSize {
      deletedCount := OldestToDelete(sorted, maxSize);
    }
  }

  /** How many files the eviction pass deletes: none when the directory is
      missing or the total is within the cap, else the eviction count of the
      entries oldest first. */
  function EvictionPlan(present: bool, es: seq<Entry>, maxSize: nat): (n: nat)
    ensures n <= |es|
    ensures !present || TotalSize(es) <= maxSize ==> n == 0
    ensures present && TotalSize(es) > maxSize ==> n == EvictionCount(SortByMtime(es), maxSize)
  {
    if !present || TotalSize(es) <= maxSize then 0 else EvictionCount(SortByMtime(es), maxSize)
  }

  /** How many of the oldest entries eviction removes: the shortest prefix
      after whose removal at most 80 % of the cap remains. */
  function EvictionCount(sorted: seq<Entry>, maxSize: nat): (n: nat)
    ensures n <= |sorted|
    decreases |sorted|
  {
    if sorted == [] || 5 * TotalSize(sorted) <= 4 * maxSize then 0
    else 1 + EvictionCount(sorted[1..], maxSize)
  }

  /** After eviction at most 80 % of the cap remains in use: either the stop
      condition held, or every file was removed. */
  lemma {:induction false} EvictionReachesTarget(sorted: seq<Entry>, maxSize: nat)
    ensures 5 * TotalSize(sorted[EvictionCount(sorted, maxSize)..]) <= 4 * maxSize
    decreases |sorted|
  {
    if sorted != [] && 5 * TotalSize(sorted) > 4 * maxSize {
      EvictionReachesTarget(sorted[1..], maxSize);
      assert sorted[1..][EvictionCount(sorted[1..], maxSize)..] == sorted[EvictionCount(sorted, maxSize)..];
    }
  }

  /** Eviction stops at the first point where the target is met: before each
      deleted file more than 80 % of the cap was still in use. */
  lemma {:induction false} EvictionMinimal(sorted: seq<Entry>, maxSize: nat, k: nat)
    requires k < EvictionCount(sorted, maxSize)
    ensures 5 * TotalSize(sorted[k..]) > 4 * maxSize
    decreases |sorted|
  {
    if k > 0 {
      EvictionMinimal(sorted[1..], maxSize, k - 1);
      assert sorted[1..][k - 1..] == sorted[k..];
    }
  }

  /** One step of the walk: while too much remains, the entry at `d` is
      deleted and its size freed. */
  lemma {:induction false} EvictionStep(sorted: seq<Entry>, d: nat, maxSize: nat)
    requires d < |sorted| && 5 * TotalSize(sorted[d..]) > 4 * maxSize
    ensures TotalSize(sorted[d..]) == sorted[d].size + TotalSize(sorted[d + 1..])
    ensures EvictionCount(sorted[d..], maxSize) == 1 + EvictionCount(sorted[d + 1..], maxSize)
  {
    assert sorted[d..][1..] == sorted[d + 1..];
  }

  /** The loop of the eviction pass: walks the entries oldest first, keeping
      `bytes_to_delete = total - 0.8 * max` scaled by 5 to stay in integers. */
  method OldestToDelete(sorted: seq<Entry>, maxSize: nat) returns (deletedCount: nat)
    ensures deletedCount == EvictionCount(sorted, maxSize)
  {
    var totalSize := TotalSize(sorted);
    var freed := 0;
    deletedCount := 0;
    while deletedCount < |sorted| && 5 * (totalSize - freed) > 4 * maxSize
      invariant deletedCount <= |sorted|
      invariant TotalSize(sorted[deletedCount..]) == totalSize - freed
      invariant EvictionCount(sorted, maxSize) == deletedCount + EvictionCount(sorted[deletedCount..], maxSize)
    {
      var e := sorted[deletedCount];
      EvictionStep(sorted, deletedCount, maxSize);
      freed := freed + e.size;
      deletedCount := deletedCount + 1;
    }
  }
}
