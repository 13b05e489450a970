/** Storage keys for blocks and xorbs, and the fast cache tier: a membership
    set, a probabilistic filter and a short-lived block cache, all held by a
    cache service that may be absent or failing. Every helper degrades to a
    miss or a no-op when the service is unusable. */
module XetUtils {
  import opened Common

  const BlockPrefix := "cas/blocks/"
  const XorbPrefix := "cas/xorbs/"
  /** Cache key prefix of a cached block's bytes. */
  const CachePrefix := "xet:block:"
  /** Default lifetime, in seconds, of a cached block. */
  const DefaultTtl := 3600

  /** Object-store key of a standalone block: the digest's first two and next
      two characters as directories, then the digest itself. */
  function BlockKey(blockHash: string): string
  {
    ShardedKey(BlockPrefix, blockHash)
  }

  /** For a digest of at least four characters the key is
      `cas/blocks/<h[0:2]>/<h[2:4]>/<h>`. */
  lemma BlockKeyLayout(blockHash: string)
    requires 4 <= |blockHash|
    ensures BlockKey(blockHash) == BlockPrefix + blockHash[..2] + "/" + blockHash[2..4] + "/" + blockHash
  {
  }

  /** Object-store key of a xorb, built the same way from its id. */
  function XorbKey(xorbId: string): string
  {
    ShardedKey(XorbPrefix, xorbId)
  }

  /** For an id of at least four characters the key is
      `cas/xorbs/<id[0:2]>/<id[2:4]>/<id>`. */
  lemma XorbKeyLayout(xorbId: string)
    requires 4 <= |xorbId|
    ensures XorbKey(xorbId) == XorbPrefix + xorbId[..2] + "/" + xorbId[2..4] + "/" + xorbId
  {
  }

  /** Two different blocks never share a key. */
  lemma {:induction false} BlockKeyInjective(a: string, b: string)
    ensures BlockKey(a) == BlockKey(b) <==> a == b
  {
    if BlockKey(a) == BlockKey(b) { ShardedKeyInjective(BlockPrefix, a, b); }
  }

  /** Writing a xorb never overwrites a standalone block, and vice versa. */
  lemma {:induction false} BlockAndXorbKeysDisjoint(blockHash: string, xorbId: string)
    ensures BlockKey(blockHash) != XorbKey(xorbId)
  {
    ShardedKeyPrefixesDisjoint(BlockPrefix, XorbPrefix, blockHash, xorbId, 4);
  }

  /** State of the connection to the cache service: not configured, every
      command raising, or working. */
  datatype Health = NoClient | Down | Up

  /** A cached value together with the lifetime it was stored with. */
  datatype HotEntry = HotEntry(content: Bytes, ttl: int)

  class CacheClient {
    var health: Health
    /** Whether the filter commands (BF.EXISTS, BF.ADD) are available. */
    var bloomModule: bool
    /** The exact membership set of known block digests. */
    var members: set<string>
    /** Digests added to the probabilistic filter. */
    var bloom: set<string>
    /** Digests the filter wrongly reports as present. */
    var falsePositives: set<string>
    /** Cached block bytes by full cache key; expiry needs a clock and is not modelled. */
    var hot: map<string, HotEntry>

    constructor (health: Health, bloomModule: bool)
      ensures this.health == health && this.bloomModule == bloomModule
      ensures members == {} && bloom == {} && falsePositives == {} && hot == map[]
    {
      this.health := health;
      this.bloomModule := bloomModule;
      members, bloom, falsePositives, hot := {}, {}, {}, map[];
    }

    /** Exact membership check; a missing or failing service answers false. */
    function CheckBlockExistsFast(blockHash: string): (found: bool)
      reads this
      ensures found ==> health == Up
      ensures health == Up ==> (found <==> blockHash in members)
    {
      health == Up && blockHash in members
    }

    /** Adds the digest to the membership set when the service works. */
    method MarkBlockAsExisting(blockHash: string)
      modifies this
      ensures members == if old(health) == Up then old(members) + {blockHash} else old(members)
      ensures health == old(health) && bloomModule == old(bloomModule)
      ensures bloom == old(bloom) && falsePositives == old(falsePositives) && hot == old(hot)
      ensures health == Up ==> CheckBlockExistsFast(blockHash)
    {
      if health == Up {
        members := members + {blockHash};
      }
    }

    /** The cached bytes of a block; a miss, a missing or a failing service give None. */
    function GetCachedBlock(blockHash: string): (r: Option<Bytes>)
      reads this
      ensures r.Some? <==> health == Up && CachePrefix + blockHash in hot
      ensures r.Some? ==> r.value == hot[CachePrefix + blockHash].content
    {
      if health == Up && CachePrefix + blockHash in hot then Some(hot[CachePrefix + blockHash].content)
      else None
    }

    /** Stores the bytes under the block's cache key with the given lifetime and
        adds the digest to the membership set; a no-op when the service is unusable. */
    method CacheBlock(blockHash: string, content: Bytes, ttl: int)
      modifies this
      ensures old(health) == Up ==> hot == old(hot)[CachePrefix + blockHash := HotEntry(content, ttl)]
      ensures old(health) == Up ==> members == old(members) + {blockHash}
      ensures old(health) != Up ==> hot == old(hot) && members == old(members)
      ensures health == old(health) && bloomModule == old(bloomModule)
      ensures bloom == old(bloom) && falsePositives == old(falsePositives)
      ensures health == Up ==> GetCachedBlock(blockHash) == Some(content)
    {
      if health == Up {
        hot := hot[CachePrefix + blockHash := HotEntry(content, ttl)];
        MarkBlockAsExisting(blockHash);
      }
    }

    /** Filter check; without the filter module it falls back to the exact set. */
    function CheckBlockExistsBloom(blockHash: string): (found: bool)
      reads this
      ensures found ==> health == Up
      ensures health == Up && !bloomModule ==> (found <==> blockHash in members)
      ensures health == Up && bloomModule ==> (blockHash in bloom ==> found)
      ensures found && bloomModule ==> blockHash in bloom || blockHash in falsePositives
    {
      if health != Up then false
      else if bloomModule then blockHash in bloom || blockHash in falsePositives
      else blockHash in members
    }

    /** Adds the digest to the filter; without the filter module it adds it to the set. */
    method MarkBlockInBloom(blockHash: string)
      modifies this
      ensures old(health) == Up && bloomModule ==> bloom == old(bloom) + {blockHash} && members == old(members)
      ensures old(health) == Up && !bloomModule ==> members == old(members) + {blockHash} && bloom == old(bloom)
      ensures old(health) != Up ==> bloom == old(bloom) && members == old(members)
      ensures health == old(health) && bloomModule == old(bloomModule)
      ensures falsePositives == old(falsePositives) && hot == old(hot)
      ensures health == Up ==> CheckBlockExistsBloom(blockHash)
    {
      if health == Up {
        if bloomModule {
          bloom := bloom + {blockHash};
        } else {
          members := members + {blockHash};
        }
      }
    }
  }
}
