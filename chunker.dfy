/** Splitting an LFS object into fixed 4 MiB windows, each stored as a
    content-addressed block, and recording the file's layout (its blocks in
    order) in one database transaction. */
module Chunker {
  import opened Common
  import opened Storage
  import XetUtils

  const MiB := 1024 * 1024
  /** The window size of the (simulated) content-defined chunking. */
  const ChunkTargetSize := 4 * MiB

  /** The windows `content[i:i+4 MiB]` for `i` in `range(0, len(content), 4 MiB)`. */
  function Windows(content: Bytes): (ws: seq<Bytes>)
    ensures forall k :: 0 <= k < |ws| ==> 0 < |ws[k]| <= ChunkTargetSize
    ensures forall k :: 0 <= k < |ws| - 1 ==> |ws[k]| == ChunkTargetSize
    decreases |content|
  {
    if |content| <= ChunkTargetSize then
      if content == [] then [] else [content]
    else
      var rest := Windows(content[ChunkTargetSize..]);
      [content[..ChunkTargetSize]] + rest
  }

  /** There is a window starting at `k * 4 MiB` exactly when that offset is
      inside the content. */
  lemma {:induction false} WindowExists(content: Bytes, k: nat)
    ensures k < |Windows(content)| <==> k * ChunkTargetSize < |content|
    decreases |content|
  {
    if |content| > ChunkTargetSize && k > 0 {
      WindowExists(content[ChunkTargetSize..], k - 1);
      assert (k - 1) * ChunkTargetSize + ChunkTargetSize == k * ChunkTargetSize;
    }
  }

  /** The number of windows is `ceil(len / 4 MiB)`. */
  lemma {:induction false} WindowCount(content: Bytes)
    ensures |Windows(content)| == (|content| + ChunkTargetSize - 1) / ChunkTargetSize
  {
    var n := |Windows(content)|;
    WindowExists(content, n);
    if n > 0 {
      WindowExists(content, n - 1);
      assert (n - 1) * ChunkTargetSize + ChunkTargetSize == n * ChunkTargetSize;
    }
  }

  /** The windows put back together give the content. */
  lemma {:induction false} WindowsFlatten(content: Bytes)
    ensures Flatten(Windows(content)) == content
    decreases |content|
  {
    if |content| > ChunkTargetSize {
      var ws := Windows(content);
      assert ws[1..] == Windows(content[ChunkTargetSize..]);
      WindowsFlatten(content[ChunkTargetSize..]);
      assert content == content[..ChunkTargetSize] + content[ChunkTargetSize..];
    } else if content != [] {
      assert Flatten(Windows(content)) == content + Flatten([]);
    }
  }

  /** Window `k` is the Python slice starting at `k * 4 MiB`. */
  lemma {:induction false} WindowAt(content: Bytes, k: nat)
    requires k < |Windows(content)|
    ensures k * ChunkTargetSize < |content|
    ensures Windows(content)[k] == Slice(content, k * ChunkTargetSize, k * ChunkTargetSize + ChunkTargetSize)
    decreases |content|
  {
    if |content| > ChunkTargetSize && k > 0 {
      var rest := content[ChunkTargetSize..];
      WindowAt(rest, k - 1);
      assert Windows(content)[k] == Windows(rest)[k - 1];
      var lo := (k - 1) * ChunkTargetSize;
      assert lo + ChunkTargetSize == k * ChunkTargetSize;
      if lo + ChunkTargetSize <= |rest| {
        assert rest[lo..lo + ChunkTargetSize] == content[k * ChunkTargetSize..k * ChunkTargetSize + ChunkTargetSize];
      } else {
        assert rest[lo..] == content[k * ChunkTargetSize..];
      }
    }
  }

  /** A 10 MiB object gives windows of 4, 4 and 2 MiB. */
  lemma {:induction false} TenMiBWindows(content: Bytes)
    requires |content| == 10 * MiB
    ensures |Windows(content)| == 3
    ensures |Windows(content)[0]| == 4 * MiB && |Windows(content)[1]| == 4 * MiB
    ensures |Windows(content)[2]| == 2 * MiB
  {
    var r1 := content[ChunkTargetSize..];
    var r2 := r1[ChunkTargetSize..];
    assert Windows(content) == [content[..ChunkTargetSize]] + Windows(r1);
    assert Windows(r1) == [r1[..ChunkTargetSize]] + Windows(r2);
    assert Windows(r2) == [r2];
  }

  /** The (digest, bytes) pair of every window, in window order. The ensures
      only expose the elements; `ChunksReassemble` states what they mean. */
  function Chunks(content: Bytes, sha256: Bytes -> string): (cs: seq<(string, Bytes)>)
    ensures |cs| == |Windows(content)|
    ensures forall k :: 0 <= k < |cs| ==> cs[k] == (sha256(Windows(content)[k]), Windows(content)[k])
  {
    var ws := Windows(content);
    seq(|ws|, k requires 0 <= k < |ws| => (sha256(ws[k]), ws[k]))
  }

  /** The chunks put back together give the content; each chunk is labelled
      with the digest of its own bytes and is at most one window long; the
      layout lists those digests in window order. */
  lemma {:induction false} ChunksReassemble(content: Bytes, sha256: Bytes -> string)
    ensures var cs := Chunks(content, sha256);
            && Flatten(seq(|cs|, k requires 0 <= k < |cs| => cs[k].1)) == content
            && (forall k :: 0 <= k < |cs| ==> cs[k].0 == sha256(cs[k].1) && 0 < |cs[k].1| <= ChunkTargetSize)
            && |Digests(cs)| == |cs|
            && (forall k :: 0 <= k < |cs| ==> Digests(cs)[k] == sha256(cs[k].1))
  {
    var cs := Chunks(content, sha256);
    assert seq(|cs|, k requires 0 <= k < |cs| => cs[k].1) == Windows(content);
    WindowsFlatten(content);
  }

  /** The digests of the chunks, in order: the layout of the file. The ensures
      only expose the elements. */
  function Digests(chunks: seq<(string, Bytes)>): (hs: seq<string>)
    ensures |hs| == |chunks| && forall k :: 0 <= k < |chunks| ==> hs[k] == chunks[k].0
  {
    seq(|chunks|, k requires 0 <= k < |chunks| => chunks[k].0)
  }

  /** The block table after `get_or_create(hash, size=len(window))` for the
      first `n` chunks in turn. */
  function RegisterBlocks(t: map<string, nat>, chunks: seq<(string, Bytes)>, n: nat): map<string, nat>
    requires n <= |chunks|
  {
    if n == 0 then t
    else GetOrCreate(RegisterBlocks(t, chunks, n - 1), chunks[n - 1].0, |chunks[n - 1].1|)
  }

  /** Get-or-create registration never changes a recorded size: a block
      registered after m chunks keeps that size after n >= m chunks. In
      particular a block registered before the file keeps its size. */
  lemma {:induction false} RegisterBlocksKeeps(t: map<string, nat>, chunks: seq<(string, Bytes)>, m: nat, n: nat, h: string)
    requires m <= n <= |chunks| && h in RegisterBlocks(t, chunks, m)
    ensures h in RegisterBlocks(t, chunks, n)
    ensures RegisterBlocks(t, chunks, n)[h] == RegisterBlocks(t, chunks, m)[h]
  {
    if n > m {
      RegisterBlocksKeeps(t, chunks, m, n - 1, h);
      var before := RegisterBlocks(t, chunks, n - 1);
      assert RegisterBlocks(t, chunks, n) == GetOrCreate(before, chunks[n - 1].0, |chunks[n - 1].1|);
      assert RegisterBlocks(t, chunks, n)[h] == before[h];
    }
  }

  /** A block that was not registered before gets the length of the first
      window with its digest. */
  lemma {:induction false} RegisterBlocksNew(t: map<string, nat>, chunks: seq<(string, Bytes)>, n: nat, k: nat)
    requires k < n <= |chunks|
    requires chunks[k].0 !in t && forall j :: 0 <= j < k ==> chunks[j].0 != chunks[k].0
    ensures chunks[k].0 in RegisterBlocks(t, chunks, n)
    ensures RegisterBlocks(t, chunks, n)[chunks[k].0] == |chunks[k].1|
  {
    RegisterBlocksOnly(t, chunks, k);
    assert chunks[k].0 !in RegisterBlocks(t, chunks, k);
    RegisterBlocksKeeps(t, chunks, k + 1, n, chunks[k].0);
  }

  /** Nothing but the chunks' digests is added to the block table. */
  lemma {:induction false} RegisterBlocksOnly(t: map<string, nat>, chunks: seq<(string, Bytes)>, n: nat)
    requires n <= |chunks|
    ensures forall h :: h in RegisterBlocks(t, chunks, n) ==>
              h in t || exists j :: 0 <= j < n && chunks[j].0 == h
  {
    if n > 0 {
      RegisterBlocksOnly(t, chunks, n - 1);
    }
  }

  /** The object key under which LFS objects are stored. */
  function LfsKey(oid: string): (k: string)
    ensures StartsWith(k, "lfs/")
  {
    ShardedKey("lfs/", oid)
  }

  /** Index of the first chunk at or after `from` whose block upload raises,
      or the chunk count. */
  function FirstFailing(chunks: seq<(string, Bytes)>, failing: set<string>, from: nat := 0): (n: nat)
    requires from <= |chunks|
    ensures from <= n <= |chunks|
    ensures forall k :: from <= k < n ==> XetUtils.BlockKey(chunks[k].0) !in failing
    ensures n < |chunks| ==> XetUtils.BlockKey(chunks[n].0) in failing
    decreases |chunks| - from
  {
    if from == |chunks| then from
    else if XetUtils.BlockKey(chunks[from].0) in failing then from
    else FirstFailing(chunks, failing, from + 1)
  }

  /** The first failing upload is at s when none before s fails and the one
      at s does (or there is none). */
  lemma {:induction false} FirstFailingAt(chunks: seq<(string, Bytes)>, failing: set<string>, s: nat, from: nat := 0)
    requires from <= s <= |chunks|
    requires forall k :: from <= k < s ==> XetUtils.BlockKey(chunks[k].0) !in failing
    requires s < |chunks| ==> XetUtils.BlockKey(chunks[s].0) in failing
    ensures FirstFailing(chunks, failing, from) == s
    decreases s - from
  {
    if from < s {
      FirstFailingAt(chunks, failing, s, from + 1);
    }
  }

  /** The bucket after uploading the first `n` chunks under their block keys. */
  function Uploaded(objects: map<string, Bytes>, chunks: seq<(string, Bytes)>, n: nat): map<string, Bytes>
    requires n <= |chunks|
  {
    if n == 0 then objects
    else Uploaded(objects, chunks, n - 1)[XetUtils.BlockKey(chunks[n - 1].0) := chunks[n - 1].1]
  }

  /** Chunks with equal digests have equal bytes. */
  ghost predicate SameDigestSameBytes(chunks: seq<(string, Bytes)>)
  {
    forall i, j :: 0 <= i < |chunks| && 0 <= j < |chunks| && chunks[i].0 == chunks[j].0 ==> chunks[i].1 == chunks[j].1
  }

  /** Under a collision-free digest, chunks with equal digests have equal bytes. */
  lemma {:induction false} ChunksSameDigestSameBytes(content: Bytes, sha256: Bytes -> string)
    requires forall a, b :: sha256(a) == sha256(b) ==> a == b
    ensures SameDigestSameBytes(Chunks(content, sha256))
  {
    ChunksReassemble(content, sha256);
  }

  /** After the uploads of the first `n` chunks, the block key of each of
      them holds that chunk's bytes: a later upload under the same key wrote
      the same bytes. */
  lemma {:induction false} UploadedHolds(objects: map<string, Bytes>, chunks: seq<(string, Bytes)>, n: nat, k: nat)
    requires k < n <= |chunks| && SameDigestSameBytes(chunks)
    ensures XetUtils.BlockKey(chunks[k].0) in Uploaded(objects, chunks, n)
    ensures Uploaded(objects, chunks, n)[XetUtils.BlockKey(chunks[k].0)] == chunks[k].1
  {
    if k < n - 1 {
      UploadedHolds(objects, chunks, n - 1, k);
      if XetUtils.BlockKey(chunks[n - 1].0) == XetUtils.BlockKey(chunks[k].0) {
        XetUtils.BlockKeyInjective(chunks[n - 1].0, chunks[k].0);
      }
    }
  }

  /** The block table records each chunk's length, provided every block
      already registered under a chunk's digest records that chunk's length. */
  ghost predicate LengthsRecorded(t: map<string, nat>, chunks: seq<(string, Bytes)>, n: nat)
    requires n <= |chunks|
  {
    forall k :: 0 <= k < n && chunks[k].0 in t ==> t[chunks[k].0] == |chunks[k].1|
  }

  /** Registration by get-or-create keeps the recorded lengths true: when
      every block already registered under a chunk's digest has that chunk's
      length, every chunk's digest ends up registered with its length. */
  lemma {:induction false} RegisteredLengths(t: map<string, nat>, chunks: seq<(string, Bytes)>, n: nat)
    requires n <= |chunks| && SameDigestSameBytes(chunks) && LengthsRecorded(t, chunks, n)
    ensures forall k :: 0 <= k < n ==> chunks[k].0 in RegisterBlocks(t, chunks, n)
    ensures LengthsRecorded(RegisterBlocks(t, chunks, n), chunks, n)
  {
    if n > 0 {
      var before := RegisterBlocks(t, chunks, n - 1);
      var d := chunks[n - 1].0;
      RegisteredLengths(t, chunks, n - 1);
      if d in before {
        if d in t {
          RegisterBlocksKeeps(t, chunks, 0, n - 1, d);
        } else {
          RegisterBlocksOnly(t, chunks, n - 1);
          var j :| 0 <= j < n - 1 && chunks[j].0 == d;
        }
      }
      assert RegisterBlocks(t, chunks, n) == GetOrCreate(before, d, |chunks[n - 1].1|);
    }
  }

  /** The set `base` with the digests of the first `n` chunks added: the
      cache's membership set or filter after the marks of `n` chunks. */
  function WithDigests(base: set<string>, chunks: seq<(string, Bytes)>, n: nat): (r: set<string>)
    requires n <= |chunks|
    ensures base <= r && forall k :: 0 <= k < n ==> chunks[k].0 in r
    ensures forall h :: h in r ==> h in base || exists k :: 0 <= k < n && chunks[k].0 == h
  {
    if n == 0 then base else WithDigests(base, chunks, n - 1) + {chunks[n - 1].0}
  }

  /** Chunks an LFS file and records its layout. Returns false for a non-LFS
      file, for an object that cannot be fetched and for a failed
      transaction; true when the file is already chunked or the transaction
      committed. Uploads and cache marks made before a failure stay; the
      block and layout rows are rolled back. */
  method ChunkLfsFile(store: Store, cache: XetUtils.CacheClient, file: FileRecord, sha256: Bytes -> string)
    returns (ok: bool)
    requires store.Valid()
    modifies store, cache
    ensures store.Valid()
    ensures !file.lfs ==> !ok && unchanged(store) && unchanged(cache)
    ensures file.lfs && file.id in old(store.layouts) ==> ok && unchanged(store) && unchanged(cache)
    ensures file.lfs && file.id !in old(store.layouts) && LfsKey(file.sha256) !in old(store.objects) ==>
              !ok && unchanged(store) && unchanged(cache)
    ensures file.lfs && file.id !in old(store.layouts) && LfsKey(file.sha256) in old(store.objects) ==>
              var chunks := Chunks(old(store.objects)[LfsKey(file.sha256)], sha256);
              var n := FirstFailing(chunks, old(store.failingPuts));
              && (ok <==> n == |chunks|)
              && store.objects == Uploaded(old(store.objects), chunks, n)
              && (ok ==> store.blocks == RegisterBlocks(old(store.blocks), chunks, |chunks|))
              && (ok ==> store.layouts == if chunks == [] then old(store.layouts)
                                          else old(store.layouts)[file.id := Digests(chunks)])
              && (!ok ==> store.blocks == old(store.blocks) && store.layouts == old(store.layouts))
              && (cache.health == XetUtils.Up ==> forall k :: 0 <= k < n ==> chunks[k].0 in cache.members)
              && (cache.health == XetUtils.Up && cache.bloomModule ==> forall k :: 0 <= k < n ==> chunks[k].0 in cache.bloom)
              && cache.members == (if cache.health == XetUtils.Up then WithDigests(old(cache.members), chunks, n)
                                   else old(cache.members))
              && cache.bloom == (if cache.health == XetUtils.Up && cache.bloomModule
                                 then WithDigests(old(cache.bloom), chunks, n) else old(cache.bloom))
    ensures store.failingPuts == old(store.failingPuts) && store.xorbs == old(store.xorbs)
    ensures store.placements == old(store.placements) && store.shards == old(store.shards)
    ensures cache.health == old(cache.health) && cache.bloomModule == old(cache.bloomModule)
    ensures cache.hot == old(cache.hot) && cache.falsePositives == old(cache.falsePositives)
  {
    if !file.lfs {
      return false;
    }
    if file.id in store.layouts {
      return true;
    }
    var lfsKey := LfsKey(file.sha256);
    if lfsKey !in store.objects {
      return false;
    }
    var content := store.objects[lfsKey];
    var chunks := SplitIntoChunks(content, sha256);
    ok := WriteLayout(store, cache, file.id, chunks);
  }

  /** The first loop: one (digest, bytes) pair per window, in window order. */
  method SplitIntoChunks(content: Bytes, sha256: Bytes -> string) returns (chunks: seq<(string, Bytes)>)
    ensures chunks == Chunks(content, sha256)
  {
    ghost var ws := Windows(content);
    chunks := [];
    var i := 0;
    WindowExists(content, 0);
    while i < |content|
      invariant i == |chunks| * ChunkTargetSize
      invariant |chunks| <= |ws|
      invariant |chunks| < |ws| <==> i < |content|
      invariant forall k :: 0 <= k < |chunks| ==> chunks[k] == (sha256(ws[k]), ws[k])
      decreases |content| - i
    {
      WindowAt(content, |chunks|);
      var data := Slice(content, i, i + ChunkTargetSize);
      chunks := chunks + [(sha256(data), data)];
      i := i + ChunkTargetSize;
      WindowExists(content, |chunks|);
    }
  }

  /** The second loop, inside `db.atomic()`: per chunk the block row, the
      upload, the layout row at `sequence_order` s and the cache marks. A
      failing upload rolls the rows back; uploads and marks already made stay. */
  method WriteLayout(store: Store, cache: XetUtils.CacheClient, fileId: nat, chunks: seq<(string, Bytes)>)
    returns (ok: bool)
    requires store.Valid() && fileId !in store.layouts
    modifies store, cache
    ensures store.Valid()
    ensures var n := FirstFailing(chunks, old(store.failingPuts));
            && (ok <==> n == |chunks|)
            && store.objects == Uploaded(old(store.objects), chunks, n)
            && (ok ==> store.blocks == RegisterBlocks(old(store.blocks), chunks, |chunks|))
            && (ok ==> store.layouts == if chunks == [] then old(store.layouts)
                                        else old(store.layouts)[fileId := Digests(chunks)])
            && (!ok ==> store.blocks == old(store.blocks) && store.layouts == old(store.layouts))
            && (cache.health == XetUtils.Up ==> forall k :: 0 <= k < n ==> chunks[k].0 in cache.members)
            && (cache.health == XetUtils.Up && cache.bloomModule ==> forall k :: 0 <= k < n ==> chunks[k].0 in cache.bloom)
            && cache.members == (if cache.health == XetUtils.Up then WithDigests(old(cache.members), chunks, n)
                                 else old(cache.members))
            && cache.bloom == (if cache.health == XetUtils.Up && cache.bloomModule
                               then WithDigests(old(cache.bloom), chunks, n) else old(cache.bloom))
    ensures store.failingPuts == old(store.failingPuts) && store.xorbs == old(store.xorbs)
    ensures store.placements == old(store.placements) && store.shards == old(store.shards)
    ensures cache.health == old(cache.health) && cache.bloomModule == old(cache.bloomModule)
    ensures cache.hot == old(cache.hot) && cache.falsePositives == old(cache.falsePositives)
  {
    var savedBlocks, savedLayouts := store.blocks, store.layouts;
    ghost var n;
    ok, n := WriteRows(store, cache, fileId, chunks);
    if !ok {
      store.blocks, store.layouts := savedBlocks, savedLayouts;
    }
  }

  /** The rows of the transaction up to the first failing upload: `n` is the
      number of chunks whose upload succeeded. */
  method WriteRows(store: Store, cache: XetUtils.CacheClient, fileId: nat, chunks: seq<(string, Bytes)>)
    returns (ok: bool, ghost n: nat)
    requires store.Valid() && fileId !in store.layouts
    modifies store, cache
    ensures store.Valid()
    ensures n == FirstFailing(chunks, old(store.failingPuts)) && (ok <==> n == |chunks|)
    ensures store.objects == Uploaded(old(store.objects), chunks, n)
    ensures ok ==> store.blocks == RegisterBlocks(old(store.blocks), chunks, |chunks|)
    ensures ok ==> store.layouts == if chunks == [] then old(store.layouts)
                                    else old(store.layouts)[fileId := Digests(chunks)]
    ensures cache.health == XetUtils.Up ==> forall k :: 0 <= k < n ==> chunks[k].0 in cache.members
    ensures cache.health == XetUtils.Up && cache.bloomModule ==> forall k :: 0 <= k < n ==> chunks[k].0 in cache.bloom
    ensures cache.members == if cache.health == XetUtils.Up then WithDigests(old(cache.members), chunks, n)
                             else old(cache.members)
    ensures cache.bloom == if cache.health == XetUtils.Up && cache.bloomModule
                           then WithDigests(old(cache.bloom), chunks, n) else old(cache.bloom)
    ensures store.failingPuts == old(store.failingPuts) && store.xorbs == old(store.xorbs)
    ensures store.placements == old(store.placements) && store.shards == old(store.shards)
    ensures cache.health == old(cache.health) && cache.bloomModule == old(cache.bloomModule)
    ensures cache.hot == old(cache.hot) && cache.falsePositives == old(cache.falsePositives)
  {
    ghost var oldObjects := store.objects;
    ghost var failing := store.failingPuts;
    ghost var savedBlocks, savedLayouts := store.blocks, store.layouts;
    var rows: seq<string> := [];
    ok := true;
    var s := 0;
    while s < |chunks|
      invariant s <= |chunks|
      invariant s <= FirstFailing(chunks, failing)
      invariant |rows| == s && forall k :: 0 <= k < s ==> rows[k] == chunks[k].0
      invariant store.Valid()
      invariant store.blocks == RegisterBlocks(savedBlocks, chunks, s)
      invariant store.layouts == if rows == [] then savedLayouts else savedLayouts[fileId := rows]
      invariant store.objects == Uploaded(oldObjects, chunks, s)
      invariant store.failingPuts == failing && store.xorbs == old(store.xorbs)
      invariant store.placements == old(store.placements) && store.shards == old(store.shards)
      invariant cache.health == old(cache.health) && cache.bloomModule == old(cache.bloomModule)
      invariant cache.members == if cache.health == XetUtils.Up then WithDigests(old(cache.members), chunks, s)
                                 else old(cache.members)
      invariant cache.bloom == if cache.health == XetUtils.Up && cache.bloomModule
                               then WithDigests(old(cache.bloom), chunks, s) else old(cache.bloom)
      invariant cache.hot == old(cache.hot) && cache.falsePositives == old(cache.falsePositives)
    {
      var put;
      put, rows := WriteChunk(store, fileId, chunks, s, rows, savedBlocks, savedLayouts, oldObjects);
      if !put {
        ok := false;
        break;
      }
      FirstFailingBeyond(chunks, failing, s);
      MarkChunk(cache, chunks, s);
      s := s + 1;
    }
    n := s;
    if ok {
      assert rows == Digests(chunks);
    }
  }

  /** An upload that succeeds at chunk `s` moves the first failure past `s`. */
  lemma FirstFailingBeyond(chunks: seq<(string, Bytes)>, failing: set<string>, s: nat)
    requires s < |chunks| && s <= FirstFailing(chunks, failing)
    requires XetUtils.BlockKey(chunks[s].0) !in failing
    ensures s + 1 <= FirstFailing(chunks, failing)
  {
  }

  /** The cache part of one iteration: the digest goes into the membership
      set and into the filter (into the set again without the filter
      module); a cache that is not up is left alone. */
  method MarkChunk(cache: XetUtils.CacheClient, chunks: seq<(string, Bytes)>, s: nat)
    requires s < |chunks|
    requires cache.health == XetUtils.Up ==> forall k :: 0 <= k < s ==> chunks[k].0 in cache.members
    requires cache.health == XetUtils.Up && cache.bloomModule ==> forall k :: 0 <= k < s ==> chunks[k].0 in cache.bloom
    modifies cache
    ensures cache.health == old(cache.health) && cache.bloomModule == old(cache.bloomModule)
    ensures cache.health == XetUtils.Up ==> forall k :: 0 <= k < s + 1 ==> chunks[k].0 in cache.members
    ensures cache.health == XetUtils.Up && cache.bloomModule ==> forall k :: 0 <= k < s + 1 ==> chunks[k].0 in cache.bloom
    ensures cache.members == if cache.health == XetUtils.Up then old(cache.members) + {chunks[s].0}
                             else old(cache.members)
    ensures cache.bloom == if cache.health == XetUtils.Up && cache.bloomModule then old(cache.bloom) + {chunks[s].0}
                           else old(cache.bloom)
    ensures cache.hot == old(cache.hot) && cache.falsePositives == old(cache.falsePositives)
  {
    cache.MarkBlockAsExisting(chunks[s].0);
    cache.MarkBlockInBloom(chunks[s].0);
  }

  /** The registry part of one iteration of the transaction loop: the block
      row, the upload and, when the upload succeeded, the layout row at
      `sequence_order` s. */
  method WriteChunk(store: Store, fileId: nat, chunks: seq<(string, Bytes)>, s: nat,
                    rows: seq<string>, ghost savedBlocks: map<string, nat>,
                    ghost savedLayouts: map<nat, seq<string>>, ghost oldObjects: map<string, Bytes>)
    returns (put: bool, rows': seq<string>)
    requires s < |chunks| && fileId !in savedLayouts
    requires store.Valid() && |rows| == s && forall k :: 0 <= k < s ==> rows[k] == chunks[k].0
    requires store.blocks == RegisterBlocks(savedBlocks, chunks, s)
    requires store.layouts == if rows == [] then savedLayouts else savedLayouts[fileId := rows]
    requires store.objects == Uploaded(oldObjects, chunks, s)
    modifies store
    ensures store.Valid()
    ensures store.blocks == RegisterBlocks(savedBlocks, chunks, s + 1)
    ensures put <==> XetUtils.BlockKey(chunks[s].0) !in store.failingPuts
    ensures put ==> store.objects == Uploaded(oldObjects, chunks, s + 1)
    ensures !put ==> store.objects == old(store.objects)
    ensures put ==> |rows'| == s + 1 && forall k :: 0 <= k < s + 1 ==> rows'[k] == chunks[k].0
    ensures put ==> store.layouts == if rows' == [] then savedLayouts else savedLayouts[fileId := rows']
    ensures store.failingPuts == old(store.failingPuts) && store.xorbs == old(store.xorbs)
    ensures store.placements == old(store.placements) && store.shards == old(store.shards)
  {
    var (chash, cdata) := chunks[s];
    rows' := rows + [chash];
    RegisterChunk(store, chunks, s, savedBlocks);
    put := store.PutObject(XetUtils.BlockKey(chash), cdata);
    if put {
      AppendLayoutRow(store, fileId, rows, chash, savedLayouts);
    }
  }

  /** The block row of chunk s: `get_or_create(hash, size=len(data))`. */
  method RegisterChunk(store: Store, chunks: seq<(string, Bytes)>, s: nat, ghost savedBlocks: map<string, nat>)
    requires s < |chunks|
    requires store.Valid() && store.blocks == RegisterBlocks(savedBlocks, chunks, s)
    modifies store
    ensures store.Valid() && store.blocks == RegisterBlocks(savedBlocks, chunks, s + 1)
    ensures chunks[s].0 in store.blocks && old(store.blocks).Keys <= store.blocks.Keys
    ensures store.objects == old(store.objects) && store.layouts == old(store.layouts)
    ensures store.failingPuts == old(store.failingPuts) && store.xorbs == old(store.xorbs)
    ensures store.placements == old(store.placements) && store.shards == old(store.shards)
  {
    var blocks := GetOrCreate(store.blocks, chunks[s].0, |chunks[s].1|);
    BlocksGrowConsistent(store.blocks, blocks, store.layouts, store.xorbs, store.placements, store.shards);
    store.blocks := blocks;
  }

  /** The layout row of a registered block at the next `sequence_order`. */
  method AppendLayoutRow(store: Store, fileId: nat, rows: seq<string>, chash: string,
                         ghost savedLayouts: map<nat, seq<string>>)
    requires store.Valid() && chash in store.blocks
    requires store.layouts == if rows == [] then savedLayouts else savedLayouts[fileId := rows]
    modifies store
    ensures store.Valid() && store.layouts == savedLayouts[fileId := rows + [chash]]
    ensures store.objects == old(store.objects) && store.blocks == old(store.blocks)
    ensures store.failingPuts == old(store.failingPuts) && store.xorbs == old(store.xorbs)
    ensures store.placements == old(store.placements) && store.shards == old(store.shards)
  {
    var layout := rows + [chash];
    assert forall i :: 0 <= i < |layout| ==> layout[i] in store.blocks by {
      if rows != [] {
        assert store.layouts[fileId] == rows;
      }
    }
    assert store.layouts[fileId := layout] == savedLayouts[fileId := layout] by {
      if rows != [] {
        MapUpdateTwice(savedLayouts, fileId, rows, layout);
      }
    }
    LayoutConsistent(store.blocks, store.layouts, store.xorbs, store.placements, store.shards, fileId, layout);
    store.layouts := store.layouts[fileId := layout];
  }
}
