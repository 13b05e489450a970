/** The block endpoints of the CAS service: existence (HEAD), download (GET)
    and verified upload (PUT). Each probes its tiers in a fixed order and
    backfills the faster tiers on a slower hit. */
module CasRouter {
  import opened Common
  import opened Storage
  import opened XetUtils
  import DiskCache
  import Metrics

  /** The response of a block endpoint. */
  datatype Response =
    | Ok200                               // HEAD: the block exists
    | Body200(content: Bytes)             // GET: the bytes themselves
    | Redirect307(url: Url)               // GET: a presigned URL of the stored object
    | NotFound404
    | HashMismatch400                     // PUT: the body's digest is not the claimed hash
    | Uploaded200(hash: string, size: nat) // PUT: `{"hash": ..., "size": ...}`
    | StoreError500                       // PUT: the upload to the object store raised

  /** `head_block`: filter, then set, then block table, then object store.
      A table hit marks the set and counts a dedup hit of the recorded size;
      a store-only hit first registers the block with size 0. */
  method HeadBlock(store: Store, cache: CacheClient, metrics: Metrics.XetMetrics, blockHash: string)
    returns (r: Response)
    requires store.Valid()
    modifies store, cache, metrics
    ensures store.Valid()
    ensures r == Ok200 <==> old(cache.CheckBlockExistsBloom(blockHash)) || old(cache.CheckBlockExistsFast(blockHash))
                            || blockHash in old(store.blocks) || BlockKey(blockHash) in old(store.objects)
    ensures r == Ok200 || r == NotFound404
    ensures r == NotFound404 ==> unchanged(store) && unchanged(cache) && unchanged(metrics)
    ensures old(cache.CheckBlockExistsBloom(blockHash)) || old(cache.CheckBlockExistsFast(blockHash)) ==>
              unchanged(store) && unchanged(cache) && unchanged(metrics)
    ensures !old(cache.CheckBlockExistsBloom(blockHash)) && !old(cache.CheckBlockExistsFast(blockHash)) && r == Ok200 ==>
              && store.blocks == GetOrCreate(old(store.blocks), blockHash, 0)
              && metrics.Snapshot() == Metrics.Recorded(old(metrics.Snapshot()), true, store.blocks[blockHash])
              && cache.members == (if cache.health == Up then old(cache.members) + {blockHash} else old(cache.members))
              && cache.bloom == old(cache.bloom) && cache.hot == old(cache.hot)
              && cache.falsePositives == old(cache.falsePositives)
    ensures store.objects == old(store.objects) && store.layouts == old(store.layouts)
    ensures store.xorbs == old(store.xorbs) && store.placements == old(store.placements)
    ensures store.shards == old(store.shards) && store.failingPuts == old(store.failingPuts)
    ensures cache.health == old(cache.health) && cache.bloomModule == old(cache.bloomModule)
  {
    if cache.CheckBlockExistsBloom(blockHash) {
      return Ok200;
    }
    if cache.CheckBlockExistsFast(blockHash) {
      return Ok200;
    }
    if blockHash in store.blocks {
      cache.MarkBlockAsExisting(blockHash);
      metrics.RecordDedup(true, store.blocks[blockHash]);
      return Ok200;
    }
    var key := BlockKey(blockHash);
    if key in store.objects {
      var blocks := GetOrCreate(store.blocks, blockHash, 0);
      BlocksGrowConsistent(store.blocks, blocks, store.layouts, store.xorbs, store.placements, store.shards);
      store.blocks := blocks;
      cache.MarkBlockAsExisting(blockHash);
      metrics.RecordDedup(true, store.blocks[blockHash]);
      return Ok200;
    }
    r := NotFound404;
  }

  /** `get_block`: the hot cache, then the disk cache (a dedup hit), then a
      redirect to the stored object. Empty cached bytes count as a miss. */
  method GetBlock(store: Store, cache: CacheClient, disk: DiskCache.DiskCache, metrics: Metrics.XetMetrics,
                  blockHash: string)
    returns (r: Response)
    modifies metrics
    ensures var hot := cache.GetCachedBlock(blockHash);
            var cold := disk.GetFromCache(blockHash);
            && (hot.Some? && hot.value != [] ==> r == Body200(hot.value) && unchanged(metrics))
            && (!(hot.Some? && hot.value != []) && cold.Some? && cold.value != [] ==>
                  r == Body200(cold.value) &&
                  metrics.Snapshot() == Metrics.Recorded(old(metrics.Snapshot()), true, |cold.value|))
            && (!(hot.Some? && hot.value != []) && !(cold.Some? && cold.value != []) ==>
                  unchanged(metrics) &&
                  r == if BlockKey(blockHash) in store.objects then Redirect307(Presigned(BlockKey(blockHash), None))
                       else NotFound404)
  {
    var cached := cache.GetCachedBlock(blockHash);
    if cached.Some? && cached.value != [] {
      return Body200(cached.value);
    }
    var content := disk.GetFromCache(blockHash);
    if content.Some? && content.value != [] {
      metrics.RecordDedup(true, |content.value|);
      return Body200(content.value);
    }
    var key := BlockKey(blockHash);
    if key !in store.objects {
      return NotFound404;
    }
    r := Redirect307(Presigned(key, None));
  }

  /** `put_block`: the body must hash to the claimed digest; then the object,
      the block row (get-or-create with the body length), a dedup miss, the
      disk cache, the hot cache (default lifetime), the set and the filter. */
  method PutBlock(store: Store, cache: CacheClient, disk: DiskCache.DiskCache, metrics: Metrics.XetMetrics,
                  blockHash: string, body: Bytes, sha256hex: Bytes -> string, now: int)
    returns (r: Response)
    requires store.Valid() && disk.Valid()
    modifies store, cache, disk, metrics
    ensures store.Valid() && disk.Valid()
    ensures sha256hex(body) != blockHash ==>
              r == HashMismatch400 && unchanged(store) && unchanged(cache) && unchanged(disk) && unchanged(metrics)
    ensures sha256hex(body) == blockHash && BlockKey(blockHash) in old(store.failingPuts) ==>
              r == StoreError500 && unchanged(store) && unchanged(cache) && unchanged(disk) && unchanged(metrics)
    ensures sha256hex(body) == blockHash && BlockKey(blockHash) !in old(store.failingPuts) ==>
              && r == Uploaded200(blockHash, |body|)
              && store.objects == old(store.objects)[BlockKey(blockHash) := body]
              && store.blocks == GetOrCreate(old(store.blocks), blockHash, |body|)
              && metrics.Snapshot() == Metrics.Recorded(old(metrics.Snapshot()), false, |body|)
              && (disk.writable ==> disk.GetFromCache(blockHash) == Some(body))
              && (cache.health == Up ==> cache.GetCachedBlock(blockHash) == Some(body)
                                         && cache.CheckBlockExistsFast(blockHash)
                                         && cache.CheckBlockExistsBloom(blockHash))
              && cache.members == (if cache.health == Up then old(cache.members) + {blockHash} else old(cache.members))
              && cache.bloom == (if cache.health == Up && cache.bloomModule then old(cache.bloom) + {blockHash}
                                 else old(cache.bloom))
              && cache.hot == (if cache.health == Up
                               then old(cache.hot)[CachePrefix + blockHash := HotEntry(body, DefaultTtl)]
                               else old(cache.hot))
              && (disk.writable ==>
                    && disk.present
                    && disk.files == old(disk.files)[DiskCache.CachePath(blockHash) := DiskCache.DiskFile(body, now)]
                    && disk.unreadable == old(disk.unreadable) - {DiskCache.CachePath(blockHash)})
    ensures cache.falsePositives == old(cache.falsePositives)
    ensures store.layouts == old(store.layouts) && store.xorbs == old(store.xorbs)
    ensures store.placements == old(store.placements) && store.shards == old(store.shards)
    ensures store.failingPuts == old(store.failingPuts)
    ensures cache.health == old(cache.health) && cache.bloomModule == old(cache.bloomModule)
    ensures disk.writable == old(disk.writable)
    ensures !disk.writable ==> disk.files == old(disk.files) && disk.unreadable == old(disk.unreadable)
  {
    if sha256hex(body) != blockHash {
      return HashMismatch400;
    }
    var key := BlockKey(blockHash);
    var ok := store.PutObject(key, body);
    if !ok {
      return StoreError500;
    }
    var blocks := GetOrCreate(store.blocks, blockHash, |body|);
    BlocksGrowConsistent(store.blocks, blocks, store.layouts, store.xorbs, store.placements, store.shards);
    store.blocks := blocks;
    metrics.RecordDedup(false, |body|);
    disk.SaveToCache(blockHash, body, now);
    cache.CacheBlock(blockHash, body, DefaultTtl);
    cache.MarkBlockAsExisting(blockHash);
    cache.MarkBlockInBloom(blockHash);
    r := Uploaded200(blockHash, |body|);
  }

  /** Put, then get: once a block has been uploaded, HEAD finds it and GET
      gives back the uploaded bytes, directly or through the redirect,
      whichever cache tiers are working, provided the disk cache held only
      bytes whose digest is their file name and the digest has no collisions. */
  method PutThenRead(store: Store, cache: CacheClient, disk: DiskCache.DiskCache, metrics: Metrics.XetMetrics,
                     blockHash: string, body: Bytes, sha256hex: Bytes -> string, now: int)
    returns (put: Response, head: Response, get: Response)
    requires store.Valid() && disk.Valid()
    requires forall a: Bytes, b: Bytes :: sha256hex(a) == sha256hex(b) ==> a == b
    requires forall h :: DiskCache.CachePath(h) in disk.files ==> sha256hex(disk.files[DiskCache.CachePath(h)].content) == h
    requires sha256hex(body) == blockHash && BlockKey(blockHash) !in store.failingPuts
    modifies store, cache, disk, metrics
    ensures put == Uploaded200(blockHash, |body|) && head == Ok200
    ensures get == Body200(body) || (get == Redirect307(Presigned(BlockKey(blockHash), None)) &&
                                     Fetch(store.objects, get.url) == Some(body))
  {
    put := PutBlock(store, cache, disk, metrics, blockHash, body, sha256hex, now);
    ghost var hot := cache.GetCachedBlock(blockHash);
    ghost var cold := disk.GetFromCache(blockHash);
    assert cold.Some? ==> cold.value == body by {
      if cold.Some? && !disk.writable {
        assert DiskCache.CachePath(blockHash) in old(disk.files);
      }
    }
    head := HeadBlock(store, cache, metrics, blockHash);
    assert cache.GetCachedBlock(blockHash) == hot;
    get := GetBlock(store, cache, disk, metrics, blockHash);
  }
}
