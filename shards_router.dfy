/** The shard endpoints: existence (HEAD), download (GET) and upload (PUT) of
    shard files, over the shard table and the object store. */
module ShardsRouter {
  import opened Common
  import opened Storage
  import ShardManager

  /** The response of a shard endpoint. */
  datatype Response =
    | Ok200
    | Redirect307(url: Url)
    | NotFound404
    | Uploaded200(shardId: string, size: nat)
    | StoreError500      // the upload to the object store raised

  /** `head_shard`: a registered shard exists; a shard found only in the
      store is registered with size 0 under its computed key. */
  method HeadShard(store: Store, shardId: string) returns (r: Response)
    requires store.Valid()
    modifies store
    ensures store.Valid()
    ensures r == Ok200 <==> shardId in old(store.shards) || ShardManager.ShardKey(shardId) in old(store.objects)
    ensures r == Ok200 || r == NotFound404
    ensures store.shards == if shardId !in old(store.shards) && ShardManager.ShardKey(shardId) in old(store.objects)
                            then old(store.shards)[shardId := ShardRow(ShardManager.ShardKey(shardId), 0)]
                            else old(store.shards)
    ensures store.objects == old(store.objects) && store.blocks == old(store.blocks)
    ensures store.layouts == old(store.layouts) && store.xorbs == old(store.xorbs)
    ensures store.placements == old(store.placements) && store.failingPuts == old(store.failingPuts)
    ensures ShardManager.ShardKeysCanonical(old(store.shards)) ==> ShardManager.ShardKeysCanonical(store.shards)
  {
    if shardId in store.shards {
      return Ok200;
    }
    var key := ShardManager.ShardKey(shardId);
    if key in store.objects {
      store.shards := GetOrCreate(store.shards, shardId, ShardRow(key, 0));
      return Ok200;
    }
    r := NotFound404;
  }

  /** `get_shard`: a redirect to the registered storage key, or to the
      computed key when the shard is only in the store; a read-only lookup. */
  method GetShard(store: Store, shardId: string) returns (r: Response)
    ensures shardId in store.shards ==> r == Redirect307(Presigned(store.shards[shardId].storageKey, None))
    ensures shardId !in store.shards && ShardManager.ShardKey(shardId) in store.objects ==>
              r == Redirect307(Presigned(ShardManager.ShardKey(shardId), None))
    ensures shardId !in store.shards && ShardManager.ShardKey(shardId) !in store.objects ==> r == NotFound404
  {
    var storageKey;
    if shardId !in store.shards {
      var key := ShardManager.ShardKey(shardId);
      if key !in store.objects {
        return NotFound404;
      }
      storageKey := key;
    } else {
      storageKey := store.shards[shardId].storageKey;
    }
    r := Redirect307(Presigned(storageKey, None));
  }

  /** `put_shard`: the body is stored under the computed key without any
      check of its content, and the shard is registered unless it already is. */
  method PutShard(store: Store, shardId: string, body: Bytes) returns (r: Response)
    requires store.Valid()
    modifies store
    ensures store.Valid()
    ensures ShardManager.ShardKey(shardId) in old(store.failingPuts) ==> r == StoreError500 && unchanged(store)
    ensures ShardManager.ShardKey(shardId) !in old(store.failingPuts) ==>
              && r == Uploaded200(shardId, |body|)
              && store.objects == old(store.objects)[ShardManager.ShardKey(shardId) := body]
              && store.shards == GetOrCreate(old(store.shards), shardId, ShardRow(ShardManager.ShardKey(shardId), |body|))
    ensures store.blocks == old(store.blocks) && store.layouts == old(store.layouts)
    ensures store.xorbs == old(store.xorbs) && store.placements == old(store.placements)
    ensures store.failingPuts == old(store.failingPuts)
    ensures ShardManager.ShardKeysCanonical(old(store.shards)) ==> ShardManager.ShardKeysCanonical(store.shards)
  {
    var key := ShardManager.ShardKey(shardId);
    var ok := store.PutObject(key, body);
    if !ok {
      return StoreError500;
    }
    store.shards := GetOrCreate(store.shards, shardId, ShardRow(key, |body|));
    r := Uploaded200(shardId, |body|);
  }

  /** Upload, then probe: after a successful PUT of a shard, HEAD answers 200
      and GET redirects to a key whose object is the uploaded body, whether
      or not the shard was registered before, as long as every registered
      shard lies under its computed key (which every writer of shard rows
      keeps). */
  method PutThenRead(store: Store, shardId: string, body: Bytes) returns (put: Response, head: Response, get: Response)
    requires store.Valid()
    requires ShardManager.ShardKey(shardId) !in store.failingPuts
    modifies store
    ensures put == Uploaded200(shardId, |body|) && head == Ok200 && get.Redirect307?
    ensures old(shardId !in store.shards || ShardManager.ShardKeysCanonical(store.shards)) ==>
              get == Redirect307(Presigned(ShardManager.ShardKey(shardId), None)) && Fetch(store.objects, get.url) == Some(body)
  {
    put := PutShard(store, shardId, body);
    head := HeadShard(store, shardId);
    get := GetShard(store, shardId);
  }
}
