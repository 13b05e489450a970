# KohakuHub Xet CAS core, modelled in Dafny

This project models the content-addressed storage (CAS) layer of KohakuHub and the code around it:

- **Chunking.** An LFS object is cut into 4 MiB windows. Each window is stored as a content-addressed block, and the file's layout is recorded in one transaction.
- **Compaction.** Standalone blocks are grouped into batches of about 100 MiB. Each batch is sealed as a xorb, with one placement row per block.
- **Shards.** A global shard is generated from all placements in a binary format (`XSHD`, version, count, 80-byte records), and small shards are merged.
- **CAS endpoints.** The block endpoints (HEAD, GET, PUT) and the reconstruction endpoint, which describes how a client downloads a file: either from its recorded layout or from 64 MiB windows of the stored object.
- **Shard endpoints.** HEAD, GET and PUT for shard files.
- **Round trip.** Chunking a file and then following its reconstruction gives the file back, and the terms' lengths add up to its size while the block table records true lengths (module `RoundTrip`).
- **Caches.** The cache service's membership set, filter and block cache; the local disk cache and its eviction pass.
- **Counters.** The dedup metrics and the administration statistics.
- **Git.** A pure-Python Git pack decoder (version 2, with OFS and REF deltas), and the Git push endpoint that counts blobs and LFS pointers. As in the code, a deltified object keeps its entry type (6 or 7) and is hashed under the type name `blob` (`Pack.DeltaNamedAsBlob`). So a deltified blob is never counted as a blob, and a delta whose bytes equal a plain blob's replaces that blob under the same id, which lowers the blob count.
- **Authorization.** The namespace and repository checks.
- **Metadata.** README front-matter parsing and the repository metadata update.

The database tables and the object-store bucket are one `Storage.Store` object whose maps the operations update. The cache service, the disk cache, the metrics tracker, the pack parser and the repository row are classes whose fields change in place. Pure logic is written as functions, and each method is proved against a function that specifies it.

SHA-256, SHA-1, zlib, UUID generation, UTF-8 decoding, YAML loading and `json.dumps` are parameters of the operations that use them. Presigned URLs are symbolic: a key, plus a byte range when there is one.

A database query without `ORDER BY` has no defined order. Where the source iterates such a query, the iteration order is a parameter (`scan`), and the contracts hold for every order.

## Model

| member | source | states |
|---|---|---|
| Common.Slice | src/kohakuhub/utils/xet.py:27 | Python slicing `s[i:j]` with non-negative bounds: the exact slice when the bounds fit, clamped at the end, empty when the start passes the end, and its length |
| Common.Find | src/kohakuhub/api/repo/utils/metadata.py:28 | the first index at or after `from` where the pattern occurs; no occurrence before it, and None exactly when it occurs nowhere from there |
| Common.ShardedKeyShape | src/kohakuhub/utils/xet.py:27-39 | the shared key scheme `prefix/<id[:2]>/<id[2:4]>/<id>` starts with the prefix, ends with the whole id, and has the stated length |
| Common.ShardedKeyInjective | src/kohakuhub/utils/xet.py:27-39 | two ids under the same prefix never share a key |
| Common.ShardedKeyPrefixesDisjoint | src/kohakuhub/utils/xet.py:27-39 | keys under prefixes that differ at some position never collide |
| Common.BigEndian | src/kohakuhub/api/xet/shard_manager.py:42-50 | `struct.pack(">I" / ">Q")`: exactly `width` bytes |
| Common.FromBigEndian | src/kohakuhub/api/git/utils/pack.py:35-40 | the value read back from big-endian bytes fits in their width |
| Common.BigEndianRoundTrip | src/kohakuhub/api/xet/shard_manager.py:42-50 | reading back the packed bytes gives the number that was packed |
| Common.GetOrCreate | src/kohakuhub/api/xet/chunker.py:56-59 | peewee `get_or_create`: an existing row is kept unchanged, a missing one is created with the given value, other rows untouched |
| Common.Decimal | src/kohakuhub/api/xet/routers/cas.py:301 | `str(n)` of a natural number: a non-empty string of digits, of two or more digits from 10 on |
| Common.DecimalInjective | src/kohakuhub/api/xet/routers/cas.py:301 | different numbers have different decimal texts |
| XetUtils.BlockKeyLayout | src/kohakuhub/utils/xet.py:18-27 | a block's key is `cas/blocks/<h[:2]>/<h[2:4]>/<h>` |
| XetUtils.XorbKeyLayout | src/kohakuhub/utils/xet.py:30-39 | a xorb's key is `cas/xorbs/<id[:2]>/<id[2:4]>/<id>` |
| XetUtils.BlockKeyInjective | src/kohakuhub/utils/xet.py:18-27 | two blocks share a key exactly when their digests are equal |
| XetUtils.BlockAndXorbKeysDisjoint | src/kohakuhub/utils/xet.py:18-39 | a block key never equals a xorb key |
| XetUtils.CacheClient.constructor | src/kohakuhub/utils/xet.py:53-55 | a client with the given health and filter-module availability and empty sets and cache |
| XetUtils.CacheClient.CheckBlockExistsFast | src/kohakuhub/utils/xet.py:42-61 | true only with a working service, and then exactly when the digest is in the membership set |
| XetUtils.CacheClient.MarkBlockAsExisting | src/kohakuhub/utils/xet.py:64-77 | adds the digest to the set only when the service works, changes nothing else, and the fast check then finds it |
| XetUtils.CacheClient.GetCachedBlock | src/kohakuhub/utils/xet.py:80-97 | the cached bytes exactly when the service works and the `xet:block:` key is cached; None otherwise |
| XetUtils.CacheClient.CacheBlock | src/kohakuhub/utils/xet.py:100-117 | with a working service, stores the bytes with their lifetime and adds the digest to the set, so a read then returns them; otherwise a no-op |
| XetUtils.CacheClient.CheckBlockExistsBloom | src/kohakuhub/utils/xet.py:120-146 | false without a working service; with the filter module, no false negatives for added digests; without it, exactly the set check |
| XetUtils.CacheClient.MarkBlockInBloom | src/kohakuhub/utils/xet.py:149-165 | adds the digest to the filter, or to the set when the module is missing; a no-op without a working service; the filter check then finds it |
| Storage.Fetch | src/kohakuhub/api/xet/routers/cas.py:314-318 | following a presigned URL: nothing for a missing object, the whole object without a range, else the inclusive byte range clipped at the end |
| Storage.BlocksGrowConsistent | src/kohakuhub/api/xet/chunker.py:56-59 | registering more blocks keeps every layout and placement row's foreign keys resolvable |
| Storage.LayoutConsistent | src/kohakuhub/api/xet/chunker.py:73-77 | a non-empty layout over registered blocks keeps the tables consistent |
| Storage.XorbConsistent | src/kohakuhub/api/xet/compactor.py:91-95 | a new xorb row keeps the tables consistent |
| Storage.PlacementConsistent | src/kohakuhub/api/xet/compactor.py:97-103 | a placement of a registered block in an existing xorb keeps the tables consistent |
| Storage.Store.PutObject | src/kohakuhub/api/xet/chunker.py:65-70 | `put_object` stores the bytes under the key unless the upload raises, in which case nothing changes; no table changes |
| Chunker.Windows | src/kohakuhub/api/xet/chunker.py:15-49 | every window is non-empty and at most 4 MiB, and all but the last are exactly 4 MiB |
| Chunker.WindowExists | src/kohakuhub/api/xet/chunker.py:46 | window k exists exactly when offset k * 4 MiB lies inside the content |
| Chunker.WindowCount | src/kohakuhub/api/xet/chunker.py:46 | the number of windows is the length divided by 4 MiB, rounded up; empty content gives none |
| Chunker.WindowsFlatten | src/kohakuhub/api/xet/chunker.py:45-49 | the windows concatenate back to the original content |
| Chunker.WindowAt | src/kohakuhub/api/xet/chunker.py:46-47 | window k is the Python slice `content[k*4MiB : k*4MiB+4MiB]` |
| Chunker.TenMiBWindows | src/kohakuhub/api/xet/chunker.py:15-49 | 10 MiB of content gives windows of 4, 4 and 2 MiB |
| Chunker.ChunksReassemble | src/kohakuhub/api/xet/chunker.py:45-49 | the chunks' bytes concatenated give back the object, each chunk is at most one 4 MiB window and labelled with the SHA-256 of its own bytes, and the layout lists those digests in window order |
| Chunker.RegisterBlocksKeeps | src/kohakuhub/api/xet/chunker.py:56-59 | get-or-create never changes a recorded size: an existing block keeps its size through later registrations |
| Chunker.RegisterBlocksNew | src/kohakuhub/api/xet/chunker.py:56-59 | a block unknown before gets the length of the first window with its digest |
| Chunker.RegisterBlocksOnly | src/kohakuhub/api/xet/chunker.py:56-59 | nothing but the chunks' digests is added to the block table |
| Chunker.LfsKey | src/kohakuhub/api/xet/chunker.py:34 | the LFS object key starts with `lfs/` (and uses the sharded scheme) |
| Chunker.FirstFailing | src/kohakuhub/api/xet/chunker.py:65-70 | the index of the first chunk whose upload raises: every earlier upload succeeds, and the one there fails unless it is the count |
| Chunker.FirstFailingAt | src/kohakuhub/api/xet/chunker.py:65-70 | that index is determined by which uploads fail |
| Chunker.ChunkLfsFile | src/kohakuhub/api/xet/chunker.py:18-87 | false and nothing changed for a non-LFS file or a failed fetch; true and nothing changed when a layout exists; otherwise true exactly when every upload succeeds, with the block rows registered by get-or-create and the layout set to the digests (none for empty content); on failure the rows are rolled back while earlier uploads stay; the membership set and the filter gain exactly the digests of the chunks uploaded (when the cache is up; the set instead of the filter without the filter module), and the hot cache and the rest of the cache are untouched |
| Chunker.SplitIntoChunks | src/kohakuhub/api/xet/chunker.py:45-49 | the first loop computes exactly the chunks of the windows |
| Chunker.WriteLayout | src/kohakuhub/api/xet/chunker.py:52-87 | the transaction: success exactly when no upload fails, with the rows as above and a rollback of block and layout rows otherwise; the cache gains exactly the uploaded chunks' digests and nothing else |
| Chunker.WriteRows | src/kohakuhub/api/xet/chunker.py:54-81 | the loop stops at the first failing upload, having uploaded, registered and marked every earlier chunk; the membership set and filter are the old ones plus exactly those digests, the hot cache unchanged |
| Chunker.MarkChunk | src/kohakuhub/api/xet/chunker.py:79-81 | a cache that is up gains exactly this chunk's digest in its membership set and in its filter (in the set again without the filter module); one that is not up is left alone; the hot cache is untouched |
| Chunker.WriteChunk | src/kohakuhub/api/xet/chunker.py:55-77 | one iteration: the block row, the upload, and on success the layout row at `sequence_order` s |
| Chunker.RegisterChunk | src/kohakuhub/api/xet/chunker.py:56-59 | the block row of chunk s by get-or-create, keeping the tables consistent |
| Chunker.AppendLayoutRow | src/kohakuhub/api/xet/chunker.py:73-77 | the layout row of a registered block is appended at the next position |
| Chunker.ChunksSameDigestSameBytes | src/kohakuhub/api/xet/chunker.py:45-49 | with a collision-free digest, two chunks of a file with the same digest have the same bytes |
| Chunker.UploadedHolds | src/kohakuhub/api/xet/chunker.py:65-70 | after the uploads of the first n chunks, the object under each of their block keys holds that chunk's bytes, even when a later chunk repeats the digest |
| Chunker.RegisteredLengths | src/kohakuhub/api/xet/chunker.py:56-59 | when every block already registered under one of the chunks' digests records that chunk's length, registration leaves every chunk's digest registered with its own length |
| Compactor.Candidates | src/kohakuhub/api/xet/compactor.py:24-27 | the block query returns at most 1000 blocks |
| Compactor.EligibleInExact | src/kohakuhub/api/xet/compactor.py:24-26 | the query keeps exactly the scanned blocks with a size above 0 and no placement |
| Compactor.EligibleInDistinct | src/kohakuhub/api/xet/compactor.py:24-26 | the query returns each block at most once |
| Compactor.CandidatesSelect | src/kohakuhub/api/xet/compactor.py:24-27 | every candidate qualifies, none repeats, and below the limit every qualifying block is selected |
| Compactor.BatchPrefixShape | src/kohakuhub/api/xet/compactor.py:33-43 | at every step of the batching loop the sealed batches followed by the open one are the candidates so far, the running size is the open batch's recorded size and below 100 MiB, and each sealed batch closed at the block that brought it to the target |
| Compactor.BatchesPartition | src/kohakuhub/api/xet/compactor.py:33-46 | the batches partition the candidates in order, none is empty, every batch but the last closed on reaching 100 MiB, and the last did so too or is the leftover below it |
| Compactor.FourMiBPrefix | src/kohakuhub/api/xet/compactor.py:17-43 | with 4 MiB blocks the batch stays open for 24 blocks and closes at the 25th |
| Compactor.ThirtyFourMiBBlocks | src/kohakuhub/api/xet/compactor.py:17-46 | thirty 4 MiB blocks give two xorbs, of 25 and 5 blocks |
| Compactor.PlanOffsets | src/kohakuhub/api/xet/compactor.py:58-72 | the placements' offsets are running sums of recorded sizes starting at 0, each length is the block's recorded size |
| Compactor.FetchedInExact | src/kohakuhub/api/xet/compactor.py:60-75 | the fetched blocks are exactly the batch's blocks whose object exists |
| Compactor.PlanSkipsMissing | src/kohakuhub/api/xet/compactor.py:61-75 | exactly the blocks that could be fetched get a placement, in batch order; a failed fetch is skipped |
| Compactor.PlanLocatesBlocks | src/kohakuhub/api/xet/compactor.py:58-72 | with true recorded sizes the running offset is the xorb's length and each row's range of the xorb holds its block's bytes |
| Compactor.FetchBatch | src/kohakuhub/api/xet/compactor.py:55-75 | the fetch loop computes exactly the planned xorb bytes and placement rows |
| Compactor.PlacedRows | src/kohakuhub/api/xet/compactor.py:97-103 | each planned block gets its placement in the new xorb with the planned offset and length; other blocks keep theirs |
| Compactor.RecordPlacements | src/kohakuhub/api/xet/compactor.py:97-103 | the insert loop creates one placement row per planned row and changes nothing else |
| Compactor.PlanRowsFetched | src/kohakuhub/api/xet/compactor.py:60-72 | every planned block comes from the batch and its object exists |
| Compactor.PlanRowsDistinct | src/kohakuhub/api/xet/compactor.py:58-72 | a batch without repeats plans each block once |
| Compactor.SealAllStops | src/kohakuhub/api/xet/compactor.py:36-46 | once a batch raised, the sweep changes nothing more |
| Compactor.BatchPrefixGrows | src/kohakuhub/api/xet/compactor.py:36-43 | batches, once sealed, stay sealed as the loop goes on |
| Compactor.NoCandidatesNoXorbs | src/kohakuhub/api/xet/compactor.py:29-31 | with no candidate the sweep creates nothing |
| Compactor.NothingFetchedNoXorb | src/kohakuhub/api/xet/compactor.py:77-78 | a batch of which nothing could be fetched creates no xorb and no placement |
| Compactor.PlanNothingFetched | src/kohakuhub/api/xet/compactor.py:58-78 | with no object fetched the xorb content is empty |
| Compactor.SealedXorbHoldsBlocks | src/kohakuhub/api/xet/compactor.py:49-103 | a sealed xorb is stored under its key with its byte size, and each fetched block is placed in it at a range that reads back the block's bytes |
| Compactor.FetchedRow | src/kohakuhub/api/xet/compactor.py:60-71 | a fetched block of the batch has a planned row |
| Compactor.RowLocates | src/kohakuhub/api/xet/compactor.py:66-72 | a planned row's range of the xorb is its block's bytes |
| Compactor.CreateXorbFromBatch | src/kohakuhub/api/xet/compactor.py:49-103 | the tables after `_create_xorb_from_batch` are those of SealBatch: nothing for an empty fetch, nothing and a raise for a failed upload, the upload but no rows for an id clash, else the xorb row and its placements |
| Compactor.CompactBlocks | src/kohakuhub/api/xet/compactor.py:20-46 | one sweep seals the batches of the candidates in order, stopping at the first that raises, and reports whether one raised |
| Compactor.SealCandidates | src/kohakuhub/api/xet/compactor.py:33-46 | the loop over the candidates leaves the tables exactly as sealing the candidates' batches in order does, stopping at the first batch that raises and reporting that it raised, and touches nothing else |
| Compactor.AddCandidate | src/kohakuhub/api/xet/compactor.py:36-43 | one candidate moves the batching state as the batching definition does, sealing the batch when it reaches 100 MiB; a sealing that raises is reported |
| Compactor.SealLeftover | src/kohakuhub/api/xet/compactor.py:45-46 | a non-empty leftover batch is sealed last, completing the sweep over all the batches, and whether it raised is reported |
| Compactor.AbortedSweep | src/kohakuhub/api/xet/compactor.py:36-46 | a sweep that raised midway ends in the state where it stopped |
| Compactor.SealNext | src/kohakuhub/api/xet/compactor.py:40-46 | sealing the next batch moves the tables one batch further |
| ShardManager.ShardKeyLayout | src/kohakuhub/api/xet/shard_manager.py:13-15 | a shard's key is `cas/shards/`, the first two characters of its id, `/`, the next two, `/`, then the whole id |
| ShardManager.ShardKeyInjective | src/kohakuhub/api/xet/shard_manager.py:13-15 | two shard ids share a key exactly when they are equal |
| ShardManager.HexValueBound | src/kohakuhub/api/xet/shard_manager.py:48-49 | a hex digit's value is below 16 |
| ShardManager.FromHexAlphabet | src/kohakuhub/api/xet/shard_manager.py:48-49 | `bytes.fromhex` fails on any character that is neither whitespace nor a hex digit |
| ShardManager.FromHexDigits | src/kohakuhub/api/xet/shard_manager.py:48-49 | an even run of hex digits decodes to half as many bytes |
| ShardManager.Pad32 | src/kohakuhub/api/xet/shard_manager.py:50 | the `32s` field is always 32 bytes: a longer value is cut to its first 32 bytes, a shorter one is kept and padded with zero bytes |
| ShardManager.Header | src/kohakuhub/api/xet/shard_manager.py:36-42 | the header is 12 bytes and starts with the magic `XSHD` |
| ShardManager.EntryBytes | src/kohakuhub/api/xet/shard_manager.py:40-50 | a record packs to exactly 80 bytes |
| ShardManager.EntriesBytes | src/kohakuhub/api/xet/shard_manager.py:50-55 | the joined records are 80 bytes per record |
| ShardManager.ParseEntries | src/kohakuhub/api/xet/shard_manager.py:104-117 | an entry region of whole records reads as one record per 80 bytes |
| ShardManager.ParseShard | src/kohakuhub/api/xet/shard_manager.py:36-42 | a shard is accepted only when its length is the header plus 80 bytes per record it holds |
| ShardManager.EntryRoundTrip | src/kohakuhub/api/xet/shard_manager.py:50 | a packed record reads back as itself |
| ShardManager.EntriesRoundTrip | src/kohakuhub/api/xet/shard_manager.py:50-55 | joined packed records read back as the same records in order |
| ShardManager.ParseEntriesConcat | src/kohakuhub/api/xet/shard_manager.py:116-117 | reading two joined entry regions gives the records of the first followed by those of the second |
| ShardManager.ParseAfterHeader | src/kohakuhub/api/xet/shard_manager.py:42-55 | a header followed by a body is accepted exactly when the body holds the header's count of records, and then reads as the body's records |
| ShardManager.ShardRoundTrip | src/kohakuhub/api/xet/shard_manager.py:42-55 | a shard of a header counting its records followed by those records reads back as exactly those records |
| ShardManager.HeaderCountMismatch | src/kohakuhub/api/xet/shard_manager.py:42-55 | a header whose count differs from the number of records after it makes the shard unreadable |
| ShardManager.RowsArePlacements | src/kohakuhub/api/xet/shard_manager.py:27-45 | over a scan that visits every placement once, the query rows are exactly the placements: one row per placed block, carrying that block's xorb id, offset and length |
| ShardManager.ToEntry | src/kohakuhub/api/xet/shard_manager.py:47-53 | a row that encodes becomes a packable record with the row's offset and length |
| ShardManager.Encoded | src/kohakuhub/api/xet/shard_manager.py:45-53 | at most one record per row is written, and every written record is packable |
| ShardManager.ShardContent | src/kohakuhub/api/xet/shard_manager.py:42-55 | the generated shard is the header plus 80 bytes per record actually written |
| ShardManager.HexRowEncodes | src/kohakuhub/api/xet/shard_manager.py:47-50 | a row whose ids are hex digests is packed as its two decoded ids, offset and length |
| ShardManager.HexIdsAllEncoded | src/kohakuhub/api/xet/shard_manager.py:45-53 | when every row's ids are hex digests, every row is written, as its own decoded record, in order |
| ShardManager.GeneratedShardRoundTrip | src/kohakuhub/api/xet/shard_manager.py:42-55 | with hex-digest ids the generated shard reads back as one record per placement, each holding the decoded ids, offset and length |
| ShardManager.UuidXorbIdsNeverEncoded | src/kohakuhub/api/xet/shard_manager.py:42-55 | with xorb ids in UUID form no record is written, the shard is the bare header with a non-zero count, and it cannot be read back |
| ShardManager.UuidRowsSkipped | src/kohakuhub/api/xet/shard_manager.py:47-53 | every row with a UUID-form xorb id is skipped by the encoding loop |
| ShardManager.GenerateGlobalShard | src/kohakuhub/api/xet/shard_manager.py:17-79 | with no placements nothing happens; otherwise the shard is built from every placement, uploaded under its SHA-256 key and registered with get_or_create; a failed upload changes nothing; no other table changes |
| ShardManager.PublishShard | src/kohakuhub/api/xet/shard_manager.py:56-79 | the content is stored under the key of its digest and the shard row created unless it exists; a failed upload leaves the store as it was; a table whose shards all lie under their computed keys keeps that property |
| ShardManager.EncodeRows | src/kohakuhub/api/xet/shard_manager.py:43-53 | the encoding loop produces the joined records of exactly the rows that encode, in order |
| ShardManager.EntriesBytesAppend | src/kohakuhub/api/xet/shard_manager.py:50-55 | appending a record appends its 80 packed bytes |
| ShardManager.RegenerationRegistersOnce | src/kohakuhub/api/xet/shard_manager.py:70-73 | registering the same shard twice leaves one row, and a registration adds at most one row |
| ShardManager.SmallShards | src/kohakuhub/api/xet/shard_manager.py:86 | the selected shards are exactly the scanned shards smaller than 1 MiB |
| ShardManager.SourcesAllRead | src/kohakuhub/api/xet/shard_manager.py:97-110 | when every selected shard's object exists, every one is downloaded, in order |
| ShardManager.Stripped | src/kohakuhub/api/xet/shard_manager.py:105-107 | one body per downloaded shard |
| ShardManager.MergedContent | src/kohakuhub/api/xet/shard_manager.py:116-120 | the merged shard is a 12-byte header followed by every body |
| ShardManager.MergedRecords | src/kohakuhub/api/xet/shard_manager.py:97-117 | the bodies of well-formed shards, joined, hold 80 bytes per record and read back as all source records in order |
| ShardManager.MergeKeepsEveryRecord | src/kohakuhub/api/xet/shard_manager.py:112-120 | merging well-formed shards gives a well-formed shard whose count is the sum of the source counts and whose records are the sources' records in order |
| ShardManager.CompactShards | src/kohakuhub/api/xet/shard_manager.py:81-151 | fewer than two small shards or nothing downloaded changes nothing; otherwise the merged shard is uploaded, registered, and every selected shard's row and object removed (an object whose deletion fails stays); a failed upload or an existing row aborts the transaction |
| ShardManager.MergeSources | src/kohakuhub/api/xet/shard_manager.py:115-151 | from the joined bodies: header, upload, new row and removal of the selected shards in one transaction, each failure leaving the state the source leaves; a table whose shards all lie under their computed keys keeps that property |
| ShardManager.ReadBodies | src/kohakuhub/api/xet/shard_manager.py:94-110 | the download loop yields the body of each selected shard whose object exists, in order, skipping the rest |
| ShardManager.FlattenBodies | src/kohakuhub/api/xet/shard_manager.py:116 | the bodies are joined in order |
| ShardManager.DeleteSources | src/kohakuhub/api/xet/shard_manager.py:141-147 | every selected shard's row is deleted and its object removed unless its deletion fails; nothing else changes; a table whose shards all lie under their computed keys keeps that property |
| ShardManager.CountedShardReadsBack | src/kohakuhub/api/xet/shard_manager.py:42-55 | with the header counting the records written, every generated shard reads back as exactly those records, and with hex-digest ids it equals the shard the code writes |
| DiskCache.CachePath | src/kohakuhub/utils/disk_cache.py:11-14 | a block's cache path has three components: the first two characters of its hash, the next two, then the whole hash |
| DiskCache.CachePathInjective | src/kohakuhub/utils/disk_cache.py:11-14 | two blocks share a cache path exactly when their hashes are equal |
| DiskCache.Entries | src/kohakuhub/utils/disk_cache.py:46-56 | the directory walk gives one entry per listed file, in listing order, carrying its size and modification time |
| DiskCache.Insert | src/kohakuhub/utils/disk_cache.py:53-56 | inserting an entry adds exactly that entry to the multiset |
| DiskCache.InsertSorted | src/kohakuhub/utils/disk_cache.py:53-56 | inserting into entries sorted by modification time keeps them sorted |
| DiskCache.SortByMtime | src/kohakuhub/utils/disk_cache.py:53-56 | the sort returns a permutation of the files ordered oldest first, and files of equal mtime stay in listing order (a stable sort) |
| DiskCache.InsertWithMtime | src/kohakuhub/utils/disk_cache.py:53-56 | inserting an entry puts it ahead of the entries of its own mtime and keeps every mtime's entries otherwise in order |
| DiskCache.TotalSizeAppend | src/kohakuhub/utils/disk_cache.py:46 | the total size grows by the size of an appended file |
| DiskCache.TotalSizeSplit | src/kohakuhub/utils/disk_cache.py:46-68 | the total size of the files is the total of any prefix plus that of the rest |
| DiskCache.TotalSizeInsert | src/kohakuhub/utils/disk_cache.py:46-56 | inserting a file adds its size to the total |
| DiskCache.TotalSizeSorted | src/kohakuhub/utils/disk_cache.py:46-56 | sorting keeps the total size |
| DiskCache.DiskCache.GetFromCache | src/kohakuhub/utils/disk_cache.py:16-25 | a block is returned exactly when its file exists and can be read, and then it is the file's content |
| DiskCache.DiskCache.SaveToCache | src/kohakuhub/utils/disk_cache.py:27-37 | when writes succeed the file at the block's path holds the content and reads back as it; a failing write changes nothing |
| DiskCache.DiskCache.CleanupCache | src/kohakuhub/utils/disk_cache.py:39-71 | the pass deletes exactly the first files of the stable oldest-first order (equal mtimes in listing order) that the eviction plan counts, and nothing else changes |
| DiskCache.PlanEviction | src/kohakuhub/utils/disk_cache.py:41-49 | a missing directory or a total within the cap deletes nothing; above the cap the walk over the stable oldest-first order decides |
| DiskCache.EvictionPlan | src/kohakuhub/utils/disk_cache.py:42-49 | nothing is deleted when the directory is missing or the total is within the cap; above it, the eviction count of the stable oldest-first order |
| DiskCache.EvictionCount | src/kohakuhub/utils/disk_cache.py:58-69 | eviction deletes at most every file |
| DiskCache.EvictionReachesTarget | src/kohakuhub/utils/disk_cache.py:58-69 | after eviction at most 80 % of the cap remains in use, or every file was deleted |
| DiskCache.EvictionMinimal | src/kohakuhub/utils/disk_cache.py:63-65 | before each deleted file more than 80 % of the cap was still in use, so no file is deleted needlessly |
| DiskCache.EvictionStep | src/kohakuhub/utils/disk_cache.py:63-69 | each step frees the size of the file it deletes |
| DiskCache.OldestToDelete | src/kohakuhub/utils/disk_cache.py:59-69 | the deletion loop deletes exactly the eviction count of files |
| Metrics.Recorded | src/kohakuhub/api/xet/metrics.py:16-22 | a recorded lookup adds one to exactly one of hits and misses and its size to the matching byte total |
| Metrics.XetMetrics.constructor | src/kohakuhub/api/xet/metrics.py:10-14 | a new tracker starts with every counter at zero |
| Metrics.XetMetrics.RecordDedup | src/kohakuhub/api/xet/metrics.py:16-22 | a hit counts one hit and adds the size to the bytes saved; a miss counts one miss and adds it to the bytes uploaded; the other counters stay |
| Metrics.XetMetrics.GetDedupRatio | src/kohakuhub/api/xet/metrics.py:24-28 | the ratio is hits over lookups, 0 with no lookups, between 0 and 1, and 1 exactly when there were only hits |
| Metrics.Ratio | src/kohakuhub/api/xet/metrics.py:24-28 | the ratio is hits over lookups, 0 with no lookups, and lies between 0 and 1 |
| Metrics.RatioMonotone | src/kohakuhub/api/xet/metrics.py:16-28 | a hit never lowers the ratio and a miss never raises it |
| AdminStats.GetXetStats | src/kohakuhub/api/admin/routers/xet.py:14-56 | counts and sums are reported with NULL sums as 0; the ratio is logical over physical size, 1 without physical size; the savings are the excess of logical over physical size and never negative |
| AdminStats.CountInRange | src/kohakuhub/api/admin/routers/xet.py:105 | a bucket counts at most every block |
| AdminStats.BucketsPartitionSizes | src/kohakuhub/api/admin/routers/xet.py:96-101 | every size below 1 TiB lies in exactly one bucket and larger sizes in none |
| AdminStats.BucketCountsAddUp | src/kohakuhub/api/admin/routers/xet.py:96-106 | the four bucket counts add up to the number of blocks below 1 TiB |
| AdminStats.GetBlockDistribution | src/kohakuhub/api/admin/routers/xet.py:89-108 | the histogram has exactly the four bucket names, each counting the blocks in its half-open range, and the counts add up to the blocks below 1 TiB |
| CasRouter.HeadBlock | src/kohakuhub/api/xet/routers/cas.py:51-81 | HEAD answers 200 exactly when the filter, the set, the block table or the object store knows the block, probed in that order; a cache hit changes nothing; a table or store hit adds the block to the set only, counts a dedup hit of the recorded size, and a store-only hit registers the block with size 0; otherwise 404 and nothing changes |
| CasRouter.GetBlock | src/kohakuhub/api/xet/routers/cas.py:84-113 | non-empty hot-cache bytes are returned as they are; otherwise non-empty disk-cache bytes are returned and counted as a dedup hit; otherwise a redirect to the stored object, or 404 when there is none |
| CasRouter.PutBlock | src/kohakuhub/api/xet/routers/cas.py:116-156 | a body whose digest is not the claimed hash is refused with 400 and changes nothing; a failing upload changes nothing; otherwise the object is stored, the block row created with the body length, a miss counted, the disk cache file written with the current time (when writable), and a cache that is up gains exactly this block in its hot entries (default lifetime), its set and its filter, with nothing else in the cache changed |
| CasRouter.PutThenRead | src/kohakuhub/api/xet/routers/cas.py:84-156 | after a successful upload HEAD answers 200 and GET gives back the uploaded bytes, directly or through a redirect that fetches them |
| Reconstruction.FetchIndexLastWins | src/kohakuhub/api/xet/routers/cas.py:315-383 | the descriptor dictionary holds exactly the term hashes, each with the descriptor of its last term |
| Reconstruction.DistinctKeysKeepEveryEntry | src/kohakuhub/api/xet/routers/cas.py:315-383 | with pairwise distinct hashes every term keeps its own descriptor |
| Reconstruction.FetchIndexStep | src/kohakuhub/api/xet/routers/cas.py:315-383 | each loop step assigns the next term's descriptor under its hash |
| Reconstruction.NumChunks | src/kohakuhub/api/xet/routers/cas.py:270-275 | there is always at least one window |
| Reconstruction.ChunkCount | src/kohakuhub/api/xet/routers/cas.py:275 | the window count is the size divided by 64 MiB rounded up |
| Reconstruction.FallbackWindowsShape | src/kohakuhub/api/xet/routers/cas.py:270-291 | an empty file gives the single window (0, 0); the windows are contiguous, start at 0, end at the file size, and all but the last are 64 MiB |
| Reconstruction.FallbackLengthsSum | src/kohakuhub/api/xet/routers/cas.py:291-308 | the terms' unpacked lengths add up to the file size |
| Reconstruction.OneHundredFiftyMiB | src/kohakuhub/api/xet/routers/cas.py:275-280 | a 150 MiB file gives windows of 64, 64 and 22 MiB |
| Reconstruction.ChunkLabelInjective | src/kohakuhub/api/xet/routers/cas.py:301 | different window indices give different hashed labels |
| Reconstruction.ChunkedReconstruction | src/kohakuhub/api/xet/routers/cas.py:252-328 | term i is window i with its hash and length; the descriptors are keyed by window hash and ask for each window's inclusive byte range of the URL; the offset into the first range is 0 |
| Reconstruction.ChunkTerm | src/kohakuhub/api/xet/routers/cas.py:290-326 | the loop body gives window i's term, with its hash and length, and the descriptor for its inclusive byte range |
| Reconstruction.FallbackKeepsEveryWindow | src/kohakuhub/api/xet/routers/cas.py:295-326 | with a collision-free digest the window hashes are distinct and every window keeps its own descriptor |
| Reconstruction.WindowsPrefix | src/kohakuhub/api/xet/routers/cas.py:277-323 | the first k windows joined are the content up to the end of window k |
| Reconstruction.FallbackReconstructsFile | src/kohakuhub/api/xet/routers/cas.py:270-326 | following the fallback description of a non-empty object, each descriptor downloads its window and the windows in order give back the whole object |
| Reconstruction.EmptyFileFallbackDownloadsNothing | src/kohakuhub/api/xet/routers/cas.py:316-324 | for an empty object the one descriptor asks for the byte range 0-0, which a zero-length object cannot satisfy, so nothing is downloaded |
| Reconstruction.RealReconstruction | src/kohakuhub/api/xet/routers/cas.py:331-385 | term i is layout row i with its block's recorded size; each descriptor points at the block's range in its xorb, or at the block's own object when unplaced; later terms win in the dictionary |
| Reconstruction.RealReconstructsFile | src/kohakuhub/api/xet/routers/cas.py:344-385 | when the store serves every layout block, the descriptor found under each term's hash downloads that term's bytes |
| Reconstruction.DuplicateKeepsLater | src/kohakuhub/api/xet/routers/cas.py:381-383 | a hash that occurs twice keeps only its later term's descriptor |
| Reconstruction.GetReconstruction | src/kohakuhub/api/xet/routers/cas.py:159-249 | an unknown file, a denied read and an object missing from the main branch each fail; otherwise, with a recorded layout, term i is layout row i with its block's recorded size and chunk range [i, i+1), and the fetch descriptors are those of `RealReconstruction` (the xorb range or the whole block object, later terms winning), so `RealReconstructsFile` applies to the answer; without a layout, the terms and descriptors are the 64 MiB windows of the main-branch object |
| RoundTrip.ChunkedFileReadsBack | src/kohakuhub/api/xet/chunker.py:45-81 | with a collision-free digest and none of the file's blocks placed in a xorb, after the uploads each layout block is served by its own object with its chunk's bytes, and following the real description term by term reads back exactly the chunked content |
| RoundTrip.ChunkedTermLengths | src/kohakuhub/api/xet/routers/cas.py:366-370 | when the block table recorded true lengths for the file's digests before chunking, every term's block is registered and the terms' `unpacked_length` values add up to the file's size |
| RoundTrip.ChunkedFileReconstruction | src/kohakuhub/api/xet/routers/cas.py:331-385 | the description built from a chunked file's layout reads back the file from the uploaded objects, and its term lengths add up to the file's size under the true-lengths hypothesis |
| RoundTrip.ChunkThenReconstruct | src/kohakuhub/api/xet/chunker.py:18-87 | chunking a non-empty LFS file and then asking for its reconstruction: a committed chunking gives a description that reads back the file, with term lengths adding up to its size when the block table recorded true lengths before |
| RoundTrip.HeadZeroSizeSurvivesChunking | src/kohakuhub/api/xet/routers/cas.py:73-79 | a block found only in object storage is registered by HEAD with size 0, and chunking a one-block file of that block keeps the 0, so the table no longer records the block's length |
| RoundTrip.HeadRegistration | src/kohakuhub/api/xet/routers/cas.py:73-79 | the intended registration: a block found only in object storage gets its stored object's length; an existing row is kept |
| RoundTrip.HeadRegistrationKeepsLengths | src/kohakuhub/api/xet/routers/cas.py:73-79 | registering with the stored object's length keeps the table's lengths true, so every block of a file chunked afterwards is recorded with its own length |
| ShardsRouter.HeadShard | src/kohakuhub/api/xet/routers/shards.py:27-40 | HEAD answers 200 exactly when the shard is registered or its object exists; an object found only in the store is registered with size 0 under its computed key; otherwise 404; a table whose shards all lie under their computed keys keeps that property |
| ShardsRouter.GetShard | src/kohakuhub/api/xet/routers/shards.py:43-57 | a registered shard redirects to its storage key, an unregistered one with an object to its computed key, otherwise 404 |
| ShardsRouter.PutShard | src/kohakuhub/api/xet/routers/shards.py:60-82 | the body is stored under the computed key and the shard row created with its size unless it exists; a failing upload changes nothing; a table whose shards all lie under their computed keys keeps that property |
| ShardsRouter.PutThenRead | src/kohakuhub/api/xet/routers/shards.py:27-82 | after a successful upload HEAD answers 200, and GET redirects to an object holding the uploaded body when the shard was not registered before or every registered shard lies under its computed key |
| Pack.RunEnd | src/kohakuhub/api/git/utils/pack.py:83-147 | a continuation run ends inside the data, past its first byte |
| Pack.RunEndFound | src/kohakuhub/api/git/utils/pack.py:83-147 | the run ends just after the first byte without bit 7 |
| Pack.RunEndMissing | src/kohakuhub/api/git/utils/pack.py:83-147 | when every remaining byte has bit 7 set, reading runs off the end |
| Pack.LittleEndian128Cons | src/kohakuhub/api/git/utils/pack.py:144 | the first byte contributes its low seven bits, the rest are shifted by seven |
| Pack.EncodeLittleEndian128 | src/kohakuhub/api/git/utils/pack.py:138-147 | a written varint has at least one byte |
| Pack.EncodeLittleEndian128Facts | src/kohakuhub/api/git/utils/pack.py:138-147 | a written varint sets bit 7 on every byte but the last and reads back its value |
| Pack.VarIntRoundTrip | src/kohakuhub/api/git/utils/pack.py:138-147 | a varint written anywhere in the data reads back its value, with the cursor just after it |
| Pack.SizeOfSplit | src/kohakuhub/api/git/utils/pack.py:79-87 | the size is the low four bits of the first byte plus sixteen times the base-128 value of the continuation bytes |
| Pack.EntryHeader | src/kohakuhub/api/git/utils/pack.py:74-89 | an object header ends inside the data, past its first byte, and its type is a three-bit number |
| Pack.EncodeEntryHeader | src/kohakuhub/api/git/utils/pack.py:74-89 | a written object header has at least one byte |
| Pack.EntryHeaderRoundTrip | src/kohakuhub/api/git/utils/pack.py:74-89 | an object header reads back the type and size it was written with, with the cursor just after it |
| Pack.OfsDistance | src/kohakuhub/api/git/utils/pack.py:105-111 | a base distance ends inside the data, past its first byte |
| Pack.EncodeOffsetFrom | src/kohakuhub/api/git/utils/pack.py:105-111 | a written distance has at least one byte |
| Pack.EncodeOffsetFacts | src/kohakuhub/api/git/utils/pack.py:105-111 | a written distance sets bit 7 on every byte but the last and reads back its value under the add-one-per-byte rule |
| Pack.OfsDistanceRoundTrip | src/kohakuhub/api/git/utils/pack.py:102-113 | a written base distance reads back, with the cursor just after it |
| Pack.Operand | src/kohakuhub/api/git/utils/pack.py:166-175 | reading the flagged operand bytes never moves the cursor back |
| Pack.CopyArgs | src/kohakuhub/api/git/utils/pack.py:161-177 | reading a copy instruction's offset and size never moves the cursor back |
| Pack.DeltaHeaderReads | src/kohakuhub/api/git/utils/pack.py:149-151 | a delta's two size headers read back the source and result sizes |
| Pack.SourceSizeChecked | src/kohakuhub/api/git/utils/pack.py:153-154 | a delta whose declared source size is not the base's length is refused |
| Pack.ResultSizeChecked | src/kohakuhub/api/git/utils/pack.py:187-190 | a delta that applies produces exactly its declared number of bytes |
| Pack.InsertEmitsLiteral | src/kohakuhub/api/git/utils/pack.py:180-183 | an insert instruction of n emits the next n bytes of the delta |
| Pack.ZeroOpcodeRefused | src/kohakuhub/api/git/utils/pack.py:184-185 | instruction byte 0 is refused |
| Pack.CopyArgsLowSize | src/kohakuhub/api/git/utils/pack.py:161-177 | copy opcode 0xB0 reads offset 0 and a two-byte little-endian size, 0 meaning 0x10000 |
| Pack.CopyWholeBase | src/kohakuhub/api/git/utils/pack.py:161-190 | a delta copying the whole base from offset 0 gives back the base |
| Pack.EmptySizeMeansSixtyFourKiB | src/kohakuhub/api/git/utils/pack.py:177 | a copy with no size bytes copies 0x10000 bytes from offset 0 |
| Pack.Ascii | src/kohakuhub/api/git/utils/pack.py:195 | the encoded text has one byte per ASCII character |
| Pack.DeltaNamedAsBlob | src/kohakuhub/api/git/utils/pack.py:62-194 | a deltified object is hashed under the blob type whatever its base's type |
| Pack.Hex | src/kohakuhub/api/git/utils/pack.py:123 | hex text has two characters per byte |
| Pack.PackHeaderAccepts | src/kohakuhub/api/git/utils/pack.py:29-41 | the header is accepted exactly when it is `PACK` followed by version 2, and it yields the announced object count |
| Pack.PackHeaderRoundTrip | src/kohakuhub/api/git/utils/pack.py:29-41 | a header written for a count of objects reads back that count |
| Pack.Inflated | src/kohakuhub/api/git/utils/pack.py:91-100 | an inflated object has exactly the declared size and the cursor never moves back |
| Pack.Resolved | src/kohakuhub/api/git/utils/pack.py:117-134 | resolving a delta never moves the cursor back |
| Pack.OfsEntry | src/kohakuhub/api/git/utils/pack.py:102-119 | a missing distance is a truncation; a distance reaching before the pack start is a missing base; success moves the cursor forward |
| Pack.RefEntry | src/kohakuhub/api/git/utils/pack.py:121-134 | a base id not decoded yet is refused; success moves past the 20-byte id |
| Pack.EntryAt | src/kohakuhub/api/git/utils/pack.py:44-59 | a decoded entry has a base type (1-4) or a delta type (6, 7) and moves the cursor forward |
| Pack.EntriesFrom | src/kohakuhub/api/git/utils/pack.py:44-64 | each decoded entry adds one offset, and every decoded object has a known type |
| Pack.ParsePack | src/kohakuhub/api/git/utils/pack.py:23-72 | a parsed pack had a valid header and holds one object per announced entry, each of a known type |
| Pack.ReadVarInt | src/kohakuhub/api/git/utils/pack.py:138-147 | the delta varint loop succeeds exactly when the varint is complete, and yields its value and the position after it |
| Pack.RunInstruction | src/kohakuhub/api/git/utils/pack.py:157-185 | each pass of the instruction loop fails exactly when the instruction fails, with the same error, and otherwise appends the instruction's bytes and moves the cursor to where the instruction ends |
| Pack.Instruction | src/kohakuhub/api/git/utils/pack.py:158-185 | an instruction moves the cursor forward; opcode 0 fails; an insert of n bytes moves the cursor past its n bytes |
| Pack.ApplyDelta | src/kohakuhub/api/git/utils/pack.py:136-190 | applying a delta gives exactly the delta semantics: a source-size check, the instructions, then a result-size check |
| Pack.GitPackParser.constructor | src/kohakuhub/api/git/utils/pack.py:17-21 | a new parser is at offset 0 with empty tables |
| Pack.GitPackParser.ReadTypeAndSize | src/kohakuhub/api/git/utils/pack.py:74-89 | the header loop succeeds exactly when the header is complete, and yields its type and size with the cursor after it |
| Pack.GitPackParser.ReadBaseObject | src/kohakuhub/api/git/utils/pack.py:91-100 | the cursor advances by the input the decompressor used, and the content must have the declared size |
| Pack.GitPackParser.ReadOfsDelta | src/kohakuhub/api/git/utils/pack.py:102-119 | the base is the entry that many bytes earlier and the delta is applied to it |
| Pack.GitPackParser.ReadDistance | src/kohakuhub/api/git/utils/pack.py:104-111 | the distance loop succeeds exactly when the offset encoding is complete in the data, and then yields its value and leaves the cursor just past it |
| Pack.GitPackParser.ReadRefDelta | src/kohakuhub/api/git/utils/pack.py:121-134 | the base is looked up by its 20-byte id and the delta is applied to it |
| Pack.GitPackParser.ParseEntry | src/kohakuhub/api/git/utils/pack.py:44-64 | one entry is decoded and recorded by its id and by its offset |
| Pack.GitPackParser.Parse | src/kohakuhub/api/git/utils/pack.py:23-72 | the parser returns exactly the objects the pack decoding defines, or its error |
| PyText.LineEnd | src/kohakuhub/api/git/routers/git_push.py:30 | a line runs to the first line boundary, with no boundary before it |
| PyText.SplitLines | src/kohakuhub/api/git/routers/git_push.py:30 | `splitlines` gives lines without line boundaries |
| PyText.SplitTerminated | src/kohakuhub/api/git/routers/git_push.py:30 | splitting newline-terminated lines gives them back |
| PyText.LineEndAt | src/kohakuhub/api/git/routers/git_push.py:30 | a line ends at the first boundary after its start |
| PyText.StripStart | src/kohakuhub/api/git/routers/git_push.py:35-37 | stripping the start removes exactly the leading whitespace |
| PyText.StripEnd | src/kohakuhub/api/git/routers/git_push.py:35-37 | stripping the end removes exactly the trailing whitespace |
| PyText.Strip | src/kohakuhub/api/git/routers/git_push.py:35-37 | stripped text neither starts nor ends with whitespace |
| PyText.StripTrimmed | src/kohakuhub/api/git/routers/git_push.py:35-37 | text with nothing to strip is left as it is |
| PyText.StripIdempotent | src/kohakuhub/api/git/routers/git_push.py:35-37 | stripping twice is stripping once |
| PyText.RemoveAll | src/kohakuhub/api/git/routers/git_push.py:35-37 | removing a pattern never lengthens the text |
| PyText.RemoveAllLeading | src/kohakuhub/api/git/routers/git_push.py:35-37 | a leading occurrence of the pattern is removed |
| PyText.RemoveAllAbsent | src/kohakuhub/api/git/routers/git_push.py:35-37 | text without the pattern is left as it is |
| PyText.AbsentByFirst | src/kohakuhub/api/git/routers/git_push.py:35-37 | a pattern whose first character never appears does not occur |
| PyText.SplitTwice | src/kohakuhub/api/repo/utils/metadata.py:28 | `split(sep, 2)` gives one to three pieces; with an occurrence the first piece runs up to the first separator |
| PyText.SplitTwiceRejoins | src/kohakuhub/api/repo/utils/metadata.py:28 | the pieces rejoined with the separator are the text |
| PyText.SplitTwiceMiddle | src/kohakuhub/api/repo/utils/metadata.py:28-32 | the middle piece holds no separator |
| PyText.DropUnderscores | src/kohakuhub/api/git/routers/git_push.py:37 | dropping the underscores of a digit group leaves only digits |
| PyText.DecimalValueOfDecimal | src/kohakuhub/api/git/routers/git_push.py:37 | the decimal digits of n read back as n |
| PyText.DropUnderscoresOfDigits | src/kohakuhub/api/git/routers/git_push.py:37 | plain digits have no underscores to drop |
| PyText.ParseIntDecimal | src/kohakuhub/api/git/routers/git_push.py:37 | `int(str(n))` is n, and with a leading minus sign it is -n |
| PyText.DigitsGroup | src/kohakuhub/api/git/routers/git_push.py:37 | a run of digits is a well-formed group read directly |
| PyText.ParseIntNeedsDigits | src/kohakuhub/api/git/routers/git_push.py:37 | text without a digit is not a number |
| GitPush.IsLfsPointer | src/kohakuhub/api/git/routers/git_push.py:24-26 | content is a pointer exactly when it starts with the 42 bytes of the LFS version line |
| GitPush.ParseLfsPointer | src/kohakuhub/api/git/routers/git_push.py:28-38 | the line loop gives exactly the pointer fields that the line semantics define, or the error of a failing decode or size |
| GitPush.ReadPointerLine | src/kohakuhub/api/git/routers/git_push.py:34-37 | one line sets the oid, sets the size or raises on a size that is not a number, exactly as the line semantics say |
| GitPush.RaisedStaysRaised | src/kohakuhub/api/git/routers/git_push.py:33-37 | once a line has raised, the whole parse raises |
| GitPush.PrefixesExclusive | src/kohakuhub/api/git/routers/git_push.py:34-36 | no line starts with both the oid and the size prefix |
| GitPush.SizeLineRaises | src/kohakuhub/api/git/routers/git_push.py:36-37 | a size line whose value is not a number raises |
| GitPush.SizeNotNumberRaises | src/kohakuhub/api/git/routers/git_push.py:33-37 | any size line whose value is not a number makes the whole parse raise |
| GitPush.RaisedBy | src/kohakuhub/api/git/routers/git_push.py:33-37 | a bad size line at the end of the lines read so far makes the parse raise |
| GitPush.MissingFieldsDefault | src/kohakuhub/api/git/routers/git_push.py:31-32 | without oid or size lines the result is the empty oid and size 0 |
| GitPush.LastOidLineWins | src/kohakuhub/api/git/routers/git_push.py:33-35 | the oid is the stripped value of the last oid line |
| GitPush.LastSizeLineWins | src/kohakuhub/api/git/routers/git_push.py:33-37 | the size is the integer value of the last size line |
| GitPush.PointerTextSpelled | src/kohakuhub/api/git/routers/git_push.py:26-37 | the pointer text is the version line, the oid line and the size line, each ended by a newline |
| GitPush.PointerTextIsAscii | src/kohakuhub/api/git/routers/git_push.py:30 | a pointer with a hex oid is ASCII text |
| GitPush.OidLineReads | src/kohakuhub/api/git/routers/git_push.py:34-35 | an oid line reads back its hex oid |
| GitPush.SizeLineReads | src/kohakuhub/api/git/routers/git_push.py:36-37 | a size line reads back its size |
| GitPush.PointerLinesRead | src/kohakuhub/api/git/routers/git_push.py:33-38 | the three pointer lines read back the oid and size |
| GitPush.PointerLinesHaveNoBreak | src/kohakuhub/api/git/routers/git_push.py:30 | the pointer lines hold no line boundary |
| GitPush.PointerRecognised | src/kohakuhub/api/git/routers/git_push.py:24-26 | a written pointer is recognised as one |
| GitPush.PointerSplits | src/kohakuhub/api/git/routers/git_push.py:30 | a written pointer decodes and splits into its three lines |
| GitPush.PointerRoundTrip | src/kohakuhub/api/git/routers/git_push.py:24-38 | a written pointer is recognised and parses back to its oid and size |
| GitPush.SampleText | tests/test_git_push_endpoint.py:47 | the test's pointer text is the pointer written for oid 12345678 and size 100 |
| GitPush.SamplePointer | tests/test_git_push_endpoint.py:44-52 | the test's pointer is recognised and parses to oid 12345678 and size 100 |
| GitPush.CountsPartitionBlobs | src/kohakuhub/api/git/routers/git_push.py:76-89 | every blob is either a pointer or a plain blob, and there are no more blobs than objects |
| GitPush.CountObject | src/kohakuhub/api/git/routers/git_push.py:77-89 | a plain blob counts one blob, a pointer one pointer, any other object nothing; a pointer that fails to parse raises |
| GitPush.CountBlobs | src/kohakuhub/api/git/routers/git_push.py:71-89 | the loop succeeds exactly when every pointer parses, and then counts the plain blobs and the pointers |
| GitPush.GitPushEndpoint | src/kohakuhub/api/git/routers/git_push.py:40-112 | an unknown model repository gives 404, an empty body 400; a failing parse, pointer or commit gives 500; otherwise the object, blob and pointer counts of the decoded pack and the repository id |
| Permissions.NamespacePermission | src/kohakuhub/auth/permissions.py:12-65 | allowed exactly for an admin token, the namespace owner, or an organization member, holding an admin role when admin rights are required; otherwise 403 |
| Permissions.GatedAccess | src/kohakuhub/auth/permissions.py:68-82 | allowed exactly when the repository is not gated or the user has an approved request |
| Permissions.ReadPermission | src/kohakuhub/auth/permissions.py:85-149 | allowed exactly for an admin token, the owner or a member, or a public repository whose gate lets the user in; 401 exactly for anonymous users of a gated or private repository; every denial is 401 or 403 |
| Permissions.WritePermission | src/kohakuhub/auth/permissions.py:152-194 | allowed exactly for an admin token, the owner, or a member with role member, admin or super-admin; otherwise 403 |
| Permissions.DeletePermission | src/kohakuhub/auth/permissions.py:197-237 | allowed exactly for an admin token, the owner, or a member with role admin or super-admin; otherwise 403 |
| Permissions.AdminBypass | src/kohakuhub/auth/permissions.py:33-219 | an admin token passes all four checks whatever the user and repository |
| Permissions.DeleteWriteRead | src/kohakuhub/auth/permissions.py:152-237 | whoever may delete may write, and whoever may write may read |
| Permissions.VisitorReadsOnly | src/kohakuhub/auth/permissions.py:110-237 | a visitor of the owning organization may read but neither write nor delete |
| Permissions.NamespaceAdminNarrows | src/kohakuhub/auth/permissions.py:52-63 | requiring admin rights only narrows who may use a namespace |
| Permissions.AnonymousReadsPublic | src/kohakuhub/auth/permissions.py:122-149 | anonymous users read exactly the public, ungated repositories |
| Metadata.FrontMatterText | src/kohakuhub/api/repo/utils/metadata.py:25-32 | the front matter is the text between the leading `---` and the next one, and holds no `---`; without a second one there is none |
| Metadata.FrontMatterFacts | src/kohakuhub/api/repo/utils/metadata.py:25-32 | splitting text that starts with `---` gives an empty first piece and the front matter between the first two delimiters |
| Metadata.ParseReadmeMetadata | src/kohakuhub/api/repo/utils/metadata.py:16-40 | text without a leading `---` gives no metadata; any metadata is the loaded front matter, and a loaded mapping is returned as it is |
| Metadata.FrontMatterRoundTrip | src/kohakuhub/api/repo/utils/metadata.py:25-32 | a README written as `---`, front matter, `---`, body gives back exactly that front matter |
| Metadata.FirstOccurrence | src/kohakuhub/api/repo/utils/metadata.py:28 | the split cuts at the first delimiter after text that holds none |
| Metadata.NoLeadingDelimiterNoMetadata | src/kohakuhub/api/repo/utils/metadata.py:25-26 | text that does not start with `---` has no metadata |
| Metadata.UpdatedField | src/kohakuhub/api/repo/utils/metadata.py:54-64 | license and pipeline_tag are replaced exactly by a truthy new value; a falsy one keeps the old value |
| Metadata.UpdatedTags | src/kohakuhub/api/repo/utils/metadata.py:66-72 | a list of tags is stored as its JSON text; any other value is ignored |
| Metadata.Updated | src/kohakuhub/api/repo/utils/metadata.py:42-78 | the update reports a change exactly when some field changed |
| Metadata.UpdateIdempotent | src/kohakuhub/api/repo/utils/metadata.py:42-78 | updating again with the same metadata changes nothing and reports no change |
| Metadata.MissingTagsAreEmpty | src/kohakuhub/api/repo/utils/metadata.py:67-69 | without a tags key the tags become the JSON text of the empty list |
| Metadata.Repository.constructor | src/kohakuhub/api/repo/utils/metadata.py:42 | a repository starts with the given fields and no save |
| Metadata.Repository.UpdateRepositoryMetadata | src/kohakuhub/api/repo/utils/metadata.py:42-78 | the fields become the updated ones, the method reports whether any changed, and the row is saved once exactly when one did |

## Left out

- Networking, HTTP framing and response bodies are not modelled: handlers return a response datatype, and detail messages and JSON encoding are left out.
- Authentication (`get_current_user`, `get_optional_user`, `verify_admin_token`) is not modelled: the user, the admin flag and the outcome of the read check are inputs.
- The database lookups of the permission checks (organizations, memberships, approved access requests) are inputs: a `Directory` and a set of approved users.
- Concurrency and locking are not modelled. Each handler runs to completion on the store, and `asyncio.gather` in `_generate_real_reconstruction` is modelled as an order-preserving sequential map.
- The LakeFS lookup in `get_reconstruction` (the repository name and the physical address on `main`) is an input: the object's key, or none when the lookup raises.
- The lifetimes of presigned URLs and of cached blocks are not modelled: the lifetime is recorded but never expires.
- Floating point is not modelled. The dedup ratios are real numbers, `round(..., 2)` in the admin statistics is not applied, and the 0.8 factor of the disk-cache eviction is scaled to integers (5 × remaining ≤ 4 × cap). YAML floats and timestamps (`license: 2.0`, a date), which `yaml.safe_load` can return, have no case in `Metadata.YamlValue`.
- `log_stats` and all logging are left out, as is the every-hundredth-miss log call in `put_block`.
- `get_top_xet_repos` is left out: it is a grouped database aggregation with no logic of its own.
- The trailing SHA-1 checksum of a pack is not modelled. The source computes it but never compares it.
- The commit itself and its message and metadata are not modelled: the commit is a parameter saying whether it succeeds.
- The order of `objects.items()` in the push loop is not modelled. The counts are the same in every order.
- `Pack.GitPackParser.ReadBaseObject` assumes that the decompressor never reports using more input than it was given (`Consumes`), which is what zlib guarantees.
- The pack fixture of `tests/test_git_push_endpoint.py:9-19` is not modelled: it writes its one-byte object header (size 0) followed by a stray length byte before the zlib stream, so it is not a valid pack.
- `PyText.ParseInt` reads ASCII digits only. `int()` also accepts other Unicode decimal digits, which LFS pointers never contain.
- `shard_manager.py:27-30` names `XetXorb`, which the module does not import, so the query would raise `NameError`. The model treats the import as present.
- `Metadata.FrontMatterRoundTrip` requires front matter that does not end in `-`. Otherwise the closing `---` would start one character early, and the source does split it there.
- The compactor follows the code, not the design description: a leftover batch below the target is sealed too, so 30 blocks of 4 MiB give two xorbs, of 25 and 5 blocks (`Compactor.ThirtyFourMiBBlocks`).
- The background loop that schedules compaction and shard generation is not part of this model.
- Reconstruction.FallbackReconstructsFile: does not cover an empty object. Its one window asks for bytes 0-0 (`src/kohakuhub/api/xet/routers/cas.py:316-324`), a range that no zero-length object can satisfy (section 14.1.1 of RFC 9110), so the description of an empty file downloads nothing and then fails (`Reconstruction.EmptyFileFallbackDownloadsNothing`). An empty LFS file gets no layout when chunked, so `RoundTrip.ChunkThenReconstruct` covers non-empty files only.
- RoundTrip.ChunkedFileReadsBack: assumes that none of the file's blocks is already placed in a xorb. A placed block is read from its xorb range, and the store carries no invariant saying that this range holds the block's bytes.
- RoundTrip.ChunkedTermLengths: assumes that the block table already records true lengths for the file's digests. HEAD breaks that for a block found only in object storage (see "## Findings").

## Findings

| source | as written | input that shows it | evidently intended | confidence | as-written member | corrected member |
|---|---|---|---|---|---|---|
| src/kohakuhub/api/xet/shard_manager.py:42-55 | the header counts every placement, but placements whose ids `bytes.fromhex` rejects are skipped; the xorb ids come from `str(uuid.uuid4())` (src/kohakuhub/api/xet/compactor.py:51), whose ninth character is `-`, so every placement is skipped | any non-empty set of placements into compacted xorbs: the shard is a bare header counting them, and it cannot be read back | the header counts the records written, so every generated shard reads back as its records | high, not executed | ShardManager.UuidXorbIdsNeverEncoded | ShardManager.CountedShardReadsBack |
| src/kohakuhub/api/xet/routers/cas.py:73-79 | HEAD registers a block that exists only in object storage with size 0; `get_or_create` in chunking (src/kohakuhub/api/xet/chunker.py:56-59) and in PUT (src/kohakuhub/api/xet/routers/cas.py:138-141) keeps that row, and the reconstruction reports `unpacked_length` from it (src/kohakuhub/api/xet/routers/cas.py:366-370) | a chunking transaction uploads a file's first block and then fails, so the rows roll back but the upload stays; a HEAD for that block with the cache service down finds no row and registers size 0; chunking a one-block file of that block again keeps 0, and its reconstruction describes the file's one non-empty term with `unpacked_length` 0 | a block found only in storage is registered with its object's length, so term lengths add up to the file's size | medium, not executed | RoundTrip.HeadZeroSizeSurvivesChunking | RoundTrip.HeadRegistrationKeepsLengths |
