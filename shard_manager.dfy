/** Shards: a binary export of the placement table (a 12-byte header, then
    one 80-byte record per placement), its content-derived id and storage
    key, and the merge of small shards into one. */
module ShardManager {
  import opened Common
  import opened Storage

  const ShardPrefix := "cas/shards/"
  const MiB := 1024 * 1024
  /** Shards strictly smaller than this are merged. */
  const SmallShardSize := MiB
  const HeaderSize := 12
  const EntrySize := 80

  /** Object-store key of a shard: `cas/shards/<id[0:2]>/<id[2:4]>/<id>`. */
  function ShardKey(shardId: string): string
  {
    ShardedKey(ShardPrefix, shardId)
  }

  /** Every registered shard is stored under the key computed from its id,
      as every writer of shard rows registers it. */
  ghost predicate ShardKeysCanonical(shards: map<string, ShardRow>)
  {
    forall id :: id in shards ==> shards[id].storageKey == ShardKey(id)
  }

  lemma ShardKeyLayout(shardId: string)
    requires 4 <= |shardId|
    ensures ShardKey(shardId) == ShardPrefix + shardId[..2] + "/" + shardId[2..4] + "/" + shardId
  {
  }

  /** Two shards never share a key. */
  lemma {:induction false} ShardKeyInjective(a: string, b: string)
    ensures ShardKey(a) == ShardKey(b) <==> a == b
  {
    if ShardKey(a) == ShardKey(b) { ShardedKeyInjective(ShardPrefix, a, b); }
  }

  // ---------------------------------------------------------------------
  // Hex text to bytes (`bytes.fromhex`)

  /** The characters `bytes.fromhex` skips between byte pairs. */
  predicate IsSpace(c: char)
  {
    c == ' ' || c == '\t' || c == '\n' || c == '\r' || c as int == 11 || c as int == 12
  }

  function HexValue(c: char): Option<nat>
  {
    if '0' <= c <= '9' then Some(c as int - '0' as int)
    else if 'a' <= c <= 'f' then Some(c as int - 'a' as int + 10)
    else if 'A' <= c <= 'F' then Some(c as int - 'A' as int + 10)
    else None
  }

  lemma HexValueBound(c: char)
    ensures HexValue(c).Some? ==> HexValue(c).value < 16
  {
  }

  /** `bytes.fromhex`: whitespace is skipped before each pair of hex digits;
      any other character, or a lone digit at the end, fails. */
  function FromHex(s: string): (r: Option<Bytes>)
    decreases |s|
  {
    if s == [] then Some([])
    else if IsSpace(s[0]) then FromHex(s[1..])
    else if |s| >= 2 && HexValue(s[0]).Some? && HexValue(s[1]).Some? then
      HexValueBound(s[0]);
      HexValueBound(s[1]);
      var b: byte := 16 * HexValue(s[0]).value + HexValue(s[1]).value;
      match FromHex(s[2..])
      case None => None
      case Some(rest) => Some([b] + rest)
    else None
  }

  /** Text decodes only when every character is whitespace or a hex digit. */
  lemma {:induction false} FromHexAlphabet(s: string, i: nat)
    requires i < |s| && !IsSpace(s[i]) && HexValue(s[i]).None?
    ensures FromHex(s) == None
    decreases |s|
  {
    if IsSpace(s[0]) {
      FromHexAlphabet(s[1..], i - 1);
    } else if |s| >= 2 && HexValue(s[0]).Some? && HexValue(s[1]).Some? {
      FromHexAlphabet(s[2..], i - 2);
    }
  }

  /** A text of 2n hex digits decodes to n bytes. */
  lemma {:induction false} FromHexDigits(s: string)
    requires |s| % 2 == 0 && forall i :: 0 <= i < |s| ==> HexValue(s[i]).Some?
    ensures FromHex(s).Some? && |FromHex(s).value| == |s| / 2
    decreases |s|
  {
    if s != [] {
      assert !IsSpace(s[0]);
      FromHexDigits(s[2..]);
    }
  }

  /** A SHA-256 hex digest: 64 hex digits. */
  predicate IsHexDigest(s: string)
  {
    |s| == 64 && forall i :: 0 <= i < |s| ==> HexValue(s[i]).Some?
  }

  /** `struct.pack("32s", b)`: cut to 32 bytes or padded with zero bytes. */
  function Pad32(b: Bytes): (r: Bytes)
    ensures |r| == 32
    ensures |b| >= 32 ==> r == b[..32]
    ensures |b| < 32 ==> r[..|b|] == b && forall i :: |b| <= i < 32 ==> r[i] == 0
  {
    if |b| >= 32 then b[..32] else b + seq(32 - |b|, _ => 0)
  }

  // ---------------------------------------------------------------------
  // The format

  /** One record: block digest, xorb id, offset and length. */
  datatype ShardEntry = ShardEntry(block: Bytes, xorb: Bytes, offset: nat, length: nat)

  /** A record the format can hold: two 32-byte ids and two u64 values. */
  predicate Encodable(e: ShardEntry)
  {
    |e.block| == 32 && |e.xorb| == 32 && e.offset < Pow256(8) && e.length < Pow256(8)
  }

  /** The magic `XSHD`. */
  const Magic: Bytes := [88, 83, 72, 68]

  /** `struct.pack(">4sII", b"XSHD", 1, count)`. */
  function Header(count: nat): (h: Bytes)
    requires count < Pow256(4)
    ensures |h| == HeaderSize && h[..4] == Magic
  {
    Pow256Four();
    Magic + BigEndian(1, 4) + BigEndian(count, 4)
  }

  lemma Pow256Four()
    ensures Pow256(4) == 0x1_0000_0000
  {
  }

  lemma Pow256Eight()
    ensures Pow256(8) == 0x1_0000_0000_0000_0000
  {
    assert Pow256(4) == 0x1_0000_0000;
  }

  /** `struct.pack(">32s32sQQ", ...)` of an encodable record. */
  function EntryBytes(e: ShardEntry): (b: Bytes)
    requires Encodable(e)
    ensures |b| == EntrySize
  {
    e.block + e.xorb + BigEndian(e.offset, 8) + BigEndian(e.length, 8)
  }

  function EntriesBytes(es: seq<ShardEntry>): (b: Bytes)
    requires forall i :: 0 <= i < |es| ==> Encodable(es[i])
    ensures |b| == EntrySize * |es|
  {
    if es == [] then [] else EntryBytes(es[0]) + EntriesBytes(es[1..])
  }

  /** One 80-byte record read back. */
  function Record(r: Bytes): ShardEntry
    requires |r| == EntrySize
  {
    ShardEntry(r[..32], r[32..64], FromBigEndian(r[64..72]), FromBigEndian(r[72..80]))
  }

  /** The records of an entry region, 80 bytes each (the inverse of EntriesBytes). */
  function ParseEntries(b: Bytes): (es: seq<ShardEntry>)
    requires |b| % EntrySize == 0
    ensures |es| == |b| / EntrySize
    decreases |b|
  {
    if b == [] then [] else [Record(b[..80])] + ParseEntries(b[80..])
  }

  /** Reads a shard: magic, version 1, and exactly `count` records after the header. */
  function ParseShard(s: Bytes): (r: Option<seq<ShardEntry>>)
    ensures r.Some? ==> |s| == HeaderSize + EntrySize * |r.value|
  {
    if |s| < HeaderSize || s[..4] != Magic || FromBigEndian(s[4..8]) != 1 then None
    else
      var count := FromBigEndian(s[8..12]);
      if |s| != HeaderSize + EntrySize * count then None
      else Some(ParseEntries(s[12..]))
  }

  lemma {:induction false} EntryRoundTrip(e: ShardEntry)
    requires Encodable(e)
    ensures Record(EntryBytes(e)) == e
  {
    var b := EntryBytes(e);
    assert b[..32] == e.block;
    assert b[32..64] == e.xorb;
    assert b[64..72] == BigEndian(e.offset, 8);
    assert b[72..80] == BigEndian(e.length, 8);
    BigEndianRoundTrip(e.offset, 8);
    BigEndianRoundTrip(e.length, 8);
  }

  lemma {:induction false} EntriesRoundTrip(es: seq<ShardEntry>)
    requires forall i :: 0 <= i < |es| ==> Encodable(es[i])
    ensures ParseEntries(EntriesBytes(es)) == es
  {
    if es != [] {
      var b := EntriesBytes(es);
      EntryRoundTrip(es[0]);
      assert b == EntryBytes(es[0]) + EntriesBytes(es[1..]);
      assert b[..80] == EntryBytes(es[0]);
      assert b[80..] == EntriesBytes(es[1..]);
      EntriesRoundTrip(es[1..]);
    }
  }

  /** Entry regions concatenate record by record. */
  lemma {:induction false} ParseEntriesConcat(a: Bytes, b: Bytes)
    requires |a| % EntrySize == 0 && |b| % EntrySize == 0
    ensures ParseEntries(a + b) == ParseEntries(a) + ParseEntries(b)
    decreases |a|
  {
    if a != [] {
      assert a + b != [];
      assert (a + b)[..80] == a[..80];
      assert (a + b)[80..] == a[80..] + b;
      ParseEntriesConcat(a[80..], b);
    } else {
      assert a + b == b;
    }
  }

  /** The header reads back: a shard is accepted exactly when its body holds
      the counted number of whole records. */
  lemma {:induction false} ParseAfterHeader(count: nat, body: Bytes)
    requires count < Pow256(4)
    ensures |body| == EntrySize * count ==> ParseShard(Header(count) + body) == Some(ParseEntries(body))
    ensures |body| != EntrySize * count ==> ParseShard(Header(count) + body) == None
  {
    var h := Header(count);
    var s := h + body;
    Pow256Four();
    assert s[..4] == h[..4];
    assert s[4..8] == h[4..8] == BigEndian(1, 4);
    assert s[8..12] == h[8..12] == BigEndian(count, 4);
    assert s[12..] == body;
    BigEndianRoundTrip(1, 4);
    BigEndianRoundTrip(count, 4);
  }

  /** A shard holding exactly its records reads back as those records. */
  lemma {:induction false} ShardRoundTrip(es: seq<ShardEntry>)
    requires |es| < Pow256(4) && forall i :: 0 <= i < |es| ==> Encodable(es[i])
    ensures ParseShard(Header(|es|) + EntriesBytes(es)) == Some(es)
  {
    ParseAfterHeader(|es|, EntriesBytes(es));
    EntriesRoundTrip(es);
  }

  /** A header whose count differs from the records that follow it is rejected. */
  lemma {:induction false} HeaderCountMismatch(count: nat, es: seq<ShardEntry>)
    requires count < Pow256(4) && count != |es| && forall i :: 0 <= i < |es| ==> Encodable(es[i])
    ensures ParseShard(Header(count) + EntriesBytes(es)) == None
  {
    ParseAfterHeader(count, EntriesBytes(es));
  }

  // ---------------------------------------------------------------------
  // generate_global_shard

  /** A row of the placement query: block digest and xorb id as text. */
  datatype PlacementRow = PlacementRow(blockHash: string, xorbId: string, offset: nat, length: nat)

  /** The query rows in the order the database returns them. */
  function Rows(placements: map<string, Placement>, scan: seq<string>): (rows: seq<PlacementRow>)
    requires forall i :: 0 <= i < |scan| ==> scan[i] in placements
    ensures |rows| == |scan|
    ensures forall i :: 0 <= i < |scan| ==>
              rows[i] == PlacementRow(scan[i], placements[scan[i]].xorb, placements[scan[i]].offset, placements[scan[i]].length)
  {
    seq(|scan|, i requires 0 <= i < |scan| =>
      PlacementRow(scan[i], placements[scan[i]].xorb, placements[scan[i]].offset, placements[scan[i]].length))
  }

  /** Over a scan that visits every placement once, the rows are the
      placements: every placed block has exactly one row, and that row
      carries the block's xorb, offset and length. */
  lemma {:induction false} RowsArePlacements(placements: map<string, Placement>, scan: seq<string>)
    requires Distinct(scan) && forall h :: h in scan <==> h in placements
    ensures forall i :: 0 <= i < |scan| ==> scan[i] in placements
    ensures var rows := Rows(placements, scan);
            && (set r | r in rows :: r.blockHash) == placements.Keys
            && (forall i, j :: 0 <= i < j < |rows| ==> rows[i].blockHash != rows[j].blockHash)
            && (forall r :: r in rows ==>
                  r.blockHash in placements && placements[r.blockHash] == Placement(r.xorbId, r.offset, r.length))
  {
    assert forall i :: 0 <= i < |scan| ==> scan[i] in scan;
    var rows := Rows(placements, scan);
    forall h | h in placements ensures h in (set r | r in rows :: r.blockHash) {
      var i :| 0 <= i < |scan| && scan[i] == h;
      assert rows[i] in rows;
    }
  }

  /** The `try` block of the encoding loop: both ids must be hex text and
      both numbers must fit in u64, else the row is skipped. */
  function ToEntry(row: PlacementRow): (r: Option<ShardEntry>)
    ensures r.Some? ==> Encodable(r.value) && r.value.offset == row.offset && r.value.length == row.length
  {
    match (FromHex(row.blockHash), FromHex(row.xorbId))
    case (Some(b), Some(x)) =>
      if row.offset < Pow256(8) && row.length < Pow256(8) then Some(ShardEntry(Pad32(b), Pad32(x), row.offset, row.length))
      else None
    case _ => None
  }

  /** The records actually written: one per row that encodes, in row order. */
  function Encoded(rows: seq<PlacementRow>): (es: seq<ShardEntry>)
    ensures |es| <= |rows|
    ensures forall i :: 0 <= i < |es| ==> Encodable(es[i])
  {
    if rows == [] then []
    else
      var es := Encoded(rows[..|rows| - 1]);
      match ToEntry(rows[|rows| - 1])
      case Some(e) => es + [e]
      case None => es
  }

  /** The shard bytes: the header counts every queried row, skipped or not. */
  function ShardContent(rows: seq<PlacementRow>): (s: Bytes)
    requires |rows| < Pow256(4)
    ensures |s| == HeaderSize + EntrySize * |Encoded(rows)|
  {
    Header(|rows|) + EntriesBytes(Encoded(rows))
  }

  /** A row whose ids are hex digests and whose numbers fit in u64. */
  predicate HexRow(row: PlacementRow)
  {
    IsHexDigest(row.blockHash) && IsHexDigest(row.xorbId) && row.offset < Pow256(8) && row.length < Pow256(8)
  }

  /** A hex-digest row is packed as its decoded ids, unpadded. */
  lemma {:induction false} HexRowEncodes(row: PlacementRow)
    requires HexRow(row)
    ensures FromHex(row.blockHash).Some? && FromHex(row.xorbId).Some?
    ensures ToEntry(row) == Some(ShardEntry(FromHex(row.blockHash).value, FromHex(row.xorbId).value, row.offset, row.length))
  {
    FromHexDigits(row.blockHash);
    FromHexDigits(row.xorbId);
    var b, x := FromHex(row.blockHash).value, FromHex(row.xorbId).value;
    assert b[..32] == b && x[..32] == x;
  }

  /** With hex-digest ids every row is written, as exactly its decoded record. */
  lemma {:induction false} HexIdsAllEncoded(rows: seq<PlacementRow>)
    requires forall i :: 0 <= i < |rows| ==> HexRow(rows[i])
    ensures |Encoded(rows)| == |rows|
    ensures forall i :: 0 <= i < |rows| ==> Some(Encoded(rows)[i]) == ToEntry(rows[i])
  {
    if rows != [] {
      var n := |rows| - 1;
      HexIdsAllEncoded(rows[..n]);
      HexRowEncodes(rows[n]);
      assert Encoded(rows) == Encoded(rows[..n]) + [ToEntry(rows[n]).value];
    }
  }

  /** The intended format: with hex-digest ids the shard reads back as one
      record per placement row, in row order. */
  lemma {:induction false} GeneratedShardRoundTrip(rows: seq<PlacementRow>)
    requires |rows| < Pow256(4)
    requires forall i :: 0 <= i < |rows| ==> HexRow(rows[i])
    ensures ParseShard(ShardContent(rows)) == Some(Encoded(rows))
    ensures |Encoded(rows)| == |rows|
    ensures forall i :: 0 <= i < |rows| ==>
              FromHex(rows[i].blockHash).Some? && FromHex(rows[i].xorbId).Some? &&
              Encoded(rows)[i] == ShardEntry(FromHex(rows[i].blockHash).value, FromHex(rows[i].xorbId).value,
                                             rows[i].offset, rows[i].length)
  {
    HexIdsAllEncoded(rows);
    ShardRoundTrip(Encoded(rows));
    forall i | 0 <= i < |rows|
      ensures FromHex(rows[i].blockHash).Some? && FromHex(rows[i].xorbId).Some?
      ensures Encoded(rows)[i] == ShardEntry(FromHex(rows[i].blockHash).value, FromHex(rows[i].xorbId).value,
                                             rows[i].offset, rows[i].length)
    {
      HexRowEncodes(rows[i]);
    }
  }

  /** As written: xorb ids are `str(uuid4())`, whose ninth character is '-',
      so no row is ever encoded, yet the header counts them all and the
      shard does not read back. */
  lemma {:induction false} UuidXorbIdsNeverEncoded(rows: seq<PlacementRow>)
    requires 0 < |rows| < Pow256(4)
    requires forall i :: 0 <= i < |rows| ==> |rows[i].xorbId| == 36 && rows[i].xorbId[8] == '-'
    ensures Encoded(rows) == []
    ensures ShardContent(rows) == Header(|rows|)
    ensures ParseShard(ShardContent(rows)) == None
  {
    UuidRowsSkipped(rows);
    HeaderCountMismatch(|rows|, []);
    assert ShardContent(rows) == Header(|rows|) + [];
  }

  lemma {:induction false} UuidRowsSkipped(rows: seq<PlacementRow>)
    requires forall i :: 0 <= i < |rows| ==> |rows[i].xorbId| == 36 && rows[i].xorbId[8] == '-'
    ensures Encoded(rows) == []
  {
    if rows != [] {
      UuidRowsSkipped(rows[..|rows| - 1]);
      FromHexAlphabet(rows[|rows| - 1].xorbId, 8);
    }
  }

  /** The corrected shard bytes: the header counts the records written. */
  function CountedShardContent(rows: seq<PlacementRow>): Bytes
    requires |rows| < Pow256(4)
  {
    Header(|Encoded(rows)|) + EntriesBytes(Encoded(rows))
  }

  /** Corrected: whatever the ids, the shard reads back as exactly the
      records written, and with hex-digest ids it is the shard the code
      writes. */
  lemma {:induction false} CountedShardReadsBack(rows: seq<PlacementRow>)
    requires |rows| < Pow256(4)
    ensures ParseShard(CountedShardContent(rows)) == Some(Encoded(rows))
    ensures (forall i :: 0 <= i < |rows| ==> HexRow(rows[i])) ==> CountedShardContent(rows) == ShardContent(rows)
  {
    ShardRoundTrip(Encoded(rows));
    if forall i :: 0 <= i < |rows| ==> HexRow(rows[i]) {
      HexIdsAllEncoded(rows);
    }
  }

  /** What `generate_global_shard` ended with. */
  datatype GenOutcome = NoPlacements | HeaderOverflow | UploadFailed | Generated(shardId: string)

  /** `generate_global_shard`. `scan` is the order of the placement query
      (every placement once); `sha256hex` is the digest function. */
  method GenerateGlobalShard(store: Store, scan: seq<string>, sha256hex: Bytes -> string) returns (r: GenOutcome)
    requires Distinct(scan) && forall h :: h in scan <==> h in store.placements
    modifies store
    ensures scan == [] ==> r == NoPlacements && unchanged(store)
    ensures |scan| >= Pow256(4) ==> r == HeaderOverflow && unchanged(store)
    ensures 0 < |scan| < Pow256(4) ==>
              var content := ShardContent(Rows(old(store.placements), scan));
              var id := sha256hex(content);
              && (ShardKey(id) in old(store.failingPuts) ==> r == UploadFailed && unchanged(store))
              && (ShardKey(id) !in old(store.failingPuts) ==>
                    && r == Generated(id)
                    && store.objects == old(store.objects)[ShardKey(id) := content]
                    && store.shards == GetOrCreate(old(store.shards), id, ShardRow(ShardKey(id), |content|)))
    ensures store.failingPuts == old(store.failingPuts) && store.blocks == old(store.blocks)
    ensures store.layouts == old(store.layouts) && store.xorbs == old(store.xorbs)
    ensures store.placements == old(store.placements)
  {
    if |scan| == 0 {
      return NoPlacements;
    }
    if |scan| >= Pow256(4) {
      return HeaderOverflow;
    }
    var rows := Rows(store.placements, scan);
    var header := Header(|rows|);
    var entries := EncodeRows(rows);
    r := PublishShard(store, header + entries, sha256hex);
  }

  /** Upload under the content's id, then `get_or_create` of the shard row;
      a failing upload is caught and logged. */
  method PublishShard(store: Store, content: Bytes, sha256hex: Bytes -> string) returns (r: GenOutcome)
    modifies store
    ensures var id := sha256hex(content);
            && (ShardKey(id) in old(store.failingPuts) ==> r == UploadFailed && unchanged(store))
            && (ShardKey(id) !in old(store.failingPuts) ==>
                  && r == Generated(id)
                  && store.objects == old(store.objects)[ShardKey(id) := content]
                  && store.shards == GetOrCreate(old(store.shards), id, ShardRow(ShardKey(id), |content|)))
    ensures store.failingPuts == old(store.failingPuts) && store.blocks == old(store.blocks)
    ensures store.layouts == old(store.layouts) && store.xorbs == old(store.xorbs)
    ensures store.placements == old(store.placements)
    ensures ShardKeysCanonical(old(store.shards)) ==> ShardKeysCanonical(store.shards)
  {
    var id := sha256hex(content);
    var key := ShardKey(id);
    var ok := store.PutObject(key, content);
    if !ok {
      return UploadFailed;
    }
    store.shards := GetOrCreate(store.shards, id, ShardRow(key, |content|));
    r := Generated(id);
  }

  /** The encoding loop: each row is packed, or skipped when its `try` fails. */
  method EncodeRows(rows: seq<PlacementRow>) returns (entries: Bytes)
    ensures entries == EntriesBytes(Encoded(rows))
  {
    entries := [];
    var i := 0;
    while i < |rows|
      invariant i <= |rows|
      invariant entries == EntriesBytes(Encoded(rows[..i]))
    {
      EncodedNext(rows, i);
      var e := ToEntry(rows[i]);
      if e.Some? {
        entries := entries + EntryBytes(e.value);
      }
      i := i + 1;
    }
    assert rows[..i] == rows;
  }

  /** One more row adds its record's bytes, or nothing when it is skipped. */
  lemma {:induction false} EncodedNext(rows: seq<PlacementRow>, i: nat)
    requires i < |rows|
    ensures var e := ToEntry(rows[i]);
            EntriesBytes(Encoded(rows[..i + 1]))
            == EntriesBytes(Encoded(rows[..i])) + (if e.Some? then EntryBytes(e.value) else [])
  {
    assert rows[..i + 1][..i] == rows[..i];
    var e := ToEntry(rows[i]);
    if e.Some? {
      EntriesBytesAppend(Encoded(rows[..i]), e.value);
    } else {
      assert EntriesBytes(Encoded(rows[..i])) + [] == EntriesBytes(Encoded(rows[..i]));
    }
  }

  lemma {:induction false} EntriesBytesAppend(es: seq<ShardEntry>, e: ShardEntry)
    requires Encodable(e) && forall i :: 0 <= i < |es| ==> Encodable(es[i])
    ensures EntriesBytes(es + [e]) == EntriesBytes(es) + EntryBytes(e)
  {
    if es == [] {
      assert es + [e] == [e];
    } else {
      assert (es + [e])[1..] == es[1..] + [e];
      EntriesBytesAppend(es[1..], e);
    }
  }

  /** Generating again from unchanged placements adds no shard row. */
  lemma {:induction false} RegenerationRegistersOnce(shards: map<string, ShardRow>, id: string, row: ShardRow)
    ensures GetOrCreate(GetOrCreate(shards, id, row), id, row) == GetOrCreate(shards, id, row)
    ensures |GetOrCreate(shards, id, row).Keys| <= |shards.Keys| + 1
  {
    if id !in shards {
      assert GetOrCreate(shards, id, row).Keys == shards.Keys + {id};
    }
  }

  // ---------------------------------------------------------------------
  // compact_shards

  /** The shards below the size threshold, in scan order. */
  function SmallShards(shards: map<string, ShardRow>, scan: seq<string>): (small: seq<string>)
    requires forall i :: 0 <= i < |scan| ==> scan[i] in shards
    ensures forall i :: 0 <= i < |small| ==> small[i] in shards && shards[small[i]].size < SmallShardSize
    ensures forall id :: id in scan && shards[id].size < SmallShardSize ==> id in small
    ensures forall id :: id in small ==> id in scan
  {
    if scan == [] then []
    else
      var rest := SmallShards(shards, scan[1..]);
      assert forall id :: id in scan ==> id == scan[0] || id in scan[1..];
      if shards[scan[0]].size < SmallShardSize then [scan[0]] + rest else rest
  }

  /** The contents downloaded: for each selected shard whose object exists,
      its bytes, in selection order. */
  function Sources(objects: map<string, Bytes>, shards: map<string, ShardRow>, small: seq<string>): seq<Bytes>
    requires forall i :: 0 <= i < |small| ==> small[i] in shards
  {
    if small == [] then []
    else
      var rest := Sources(objects, shards, small[..|small| - 1]);
      var key := shards[small[|small| - 1]].storageKey;
      if key in objects then rest + [objects[key]] else rest
  }

  /** When every selected shard can be downloaded, all of them are merged. */
  lemma {:induction false} SourcesAllRead(objects: map<string, Bytes>, shards: map<string, ShardRow>, small: seq<string>)
    requires forall i :: 0 <= i < |small| ==> small[i] in shards && shards[small[i]].storageKey in objects
    ensures |Sources(objects, shards, small)| == |small|
    ensures forall i :: 0 <= i < |small| ==> Sources(objects, shards, small)[i] == objects[shards[small[i]].storageKey]
  {
    if small != [] {
      SourcesAllRead(objects, shards, small[..|small| - 1]);
    }
  }

  /** Each content without its first 12 bytes (Python `content[12:]`). */
  function Stripped(sources: seq<Bytes>): (bodies: seq<Bytes>)
    ensures |bodies| == |sources|
  {
    if sources == [] then []
    else
      var last := sources[|sources| - 1];
      Stripped(sources[..|sources| - 1]) + [Slice(last, HeaderSize, |last|)]
  }

  /** The merged shard: a fresh header counting whole records, then every body. */
  function MergedContent(bodies: seq<Bytes>): (s: Bytes)
    requires |Flatten(bodies)| / EntrySize < Pow256(4)
    ensures |s| == HeaderSize + |Flatten(bodies)|
    ensures s[HeaderSize..] == Flatten(bodies)
  {
    Header(|Flatten(bodies)| / EntrySize) + Flatten(bodies)
  }

  /** The bodies of well-formed shards hold their records back to back: the
      merged region has the sum of the source counts and reads back as all
      source records in order. */
  lemma {:induction false} MergedRecords(sources: seq<Bytes>, records: seq<seq<ShardEntry>>)
    requires |sources| == |records|
    requires forall i :: 0 <= i < |sources| ==> ParseShard(sources[i]) == Some(records[i])
    ensures |Flatten(Stripped(sources))| == EntrySize * |Flatten(records)|
    ensures ParseEntries(Flatten(Stripped(sources))) == Flatten(records)
  {
    if sources != [] {
      var n := |sources| - 1;
      var front := Stripped(sources[..n]);
      var last := Slice(sources[n], HeaderSize, |sources[n]|);
      MergedRecords(sources[..n], records[..n]);
      FlattenAppend(front, last);
      FlattenLast(records);
      ShardBody(sources[n], records[n]);
      ParseEntriesConcat(Flatten(front), last);
    }
  }


  /** The body of a well-formed shard holds exactly its records. */
  lemma {:induction false} ShardBody(source: Bytes, records: seq<ShardEntry>)
    requires ParseShard(source) == Some(records)
    ensures var body := Slice(source, HeaderSize, |source|);
            |body| == EntrySize * |records| && ParseEntries(body) == records
  {
    assert Slice(source, HeaderSize, |source|) == source[12..];
  }

  /** Merging well-formed shards gives a well-formed shard whose record
      count is the sum of the sources' counts and whose records are the
      sources' records, in order. */
  lemma {:induction false} MergeKeepsEveryRecord(sources: seq<Bytes>, records: seq<seq<ShardEntry>>)
    requires |sources| == |records|
    requires forall i :: 0 <= i < |sources| ==> ParseShard(sources[i]) == Some(records[i])
    requires |Flatten(records)| < Pow256(4)
    ensures |Flatten(Stripped(sources))| / EntrySize == |Flatten(records)|
    ensures ParseShard(MergedContent(Stripped(sources))) == Some(Flatten(records))
  {
    MergedRecords(sources, records);
    ParseAfterHeader(|Flatten(records)|, Flatten(Stripped(sources)));
  }

  /** What `compact_shards` ended with. */
  datatype CompactOutcome = TooFew | NothingRead | CountOverflow | PutFailed | CreateFailed | Merged(shardId: string)

  /** The storage keys of the selected shards. */
  function KeysOf(shards: map<string, ShardRow>, small: seq<string>): set<string>
    requires forall i :: 0 <= i < |small| ==> small[i] in shards
  {
    set i | 0 <= i < |small| :: shards[small[i]].storageKey
  }

  /** `compact_shards`. `scan` is the order of the shard query (every shard
      once); deleting an object whose key is in `undeletable` raises and is
      logged. */
  method CompactShards(store: Store, scan: seq<string>, undeletable: set<string>, sha256hex: Bytes -> string)
    returns (r: CompactOutcome)
    requires Distinct(scan) && forall id :: id in scan <==> id in store.shards
    modifies store
    ensures var small := SmallShards(old(store.shards), scan);
            var bodies := Stripped(Sources(old(store.objects), old(store.shards), small));
            && (|small| < 2 ==> r == TooFew && unchanged(store))
            && (|small| >= 2 && bodies == [] ==> r == NothingRead && unchanged(store))
            && (|small| >= 2 && bodies != [] && |Flatten(bodies)| / EntrySize >= Pow256(4) ==>
                  r == CountOverflow && unchanged(store))
            && (|small| >= 2 && bodies != [] && |Flatten(bodies)| / EntrySize < Pow256(4) ==>
                  var content := MergedContent(bodies);
                  var id := sha256hex(content);
                  var key := ShardKey(id);
                  && (key in old(store.failingPuts) ==> r == PutFailed && unchanged(store))
                  && (key !in old(store.failingPuts) && id in old(store.shards) ==>
                        r == CreateFailed && store.objects == old(store.objects)[key := content] &&
                        store.shards == old(store.shards))
                  && (key !in old(store.failingPuts) && id !in old(store.shards) ==>
                        && r == Merged(id)
                        && store.objects == old(store.objects)[key := content] - (KeysOf(old(store.shards), small) - undeletable)
                        && store.shards == old(store.shards)[id := ShardRow(key, |content|)] - set i | 0 <= i < |small| :: small[i]))
    ensures store.failingPuts == old(store.failingPuts) && store.blocks == old(store.blocks)
    ensures store.layouts == old(store.layouts) && store.xorbs == old(store.xorbs)
    ensures store.placements == old(store.placements)
  {
    var small := SmallShards(store.shards, scan);
    if |small| < 2 {
      return TooFew;
    }
    var bodies := ReadBodies(store, small);
    if bodies == [] {
      return NothingRead;
    }
    r := MergeSources(store, small, bodies, undeletable, sha256hex);
  }

  /** From the joined bodies on: header, upload, then in one transaction the
      new row and the removal of every selected shard. */
  method MergeSources(store: Store, small: seq<string>, bodies: seq<Bytes>, undeletable: set<string>,
                      sha256hex: Bytes -> string) returns (r: CompactOutcome)
    requires forall i :: 0 <= i < |small| ==> small[i] in store.shards
    modifies store
    ensures |Flatten(bodies)| / EntrySize >= Pow256(4) ==> r == CountOverflow && unchanged(store)
    ensures |Flatten(bodies)| / EntrySize < Pow256(4) ==>
              var content := MergedContent(bodies);
              var id := sha256hex(content);
              var key := ShardKey(id);
              && (key in old(store.failingPuts) ==> r == PutFailed && unchanged(store))
              && (key !in old(store.failingPuts) && id in old(store.shards) ==>
                    r == CreateFailed && store.objects == old(store.objects)[key := content] &&
                    store.shards == old(store.shards))
              && (key !in old(store.failingPuts) && id !in old(store.shards) ==>
                    && r == Merged(id)
                    && store.objects == old(store.objects)[key := content] - (KeysOf(old(store.shards), small) - undeletable)
                    && store.shards == old(store.shards)[id := ShardRow(key, |content|)] - set i | 0 <= i < |small| :: small[i])
    ensures store.failingPuts == old(store.failingPuts) && store.blocks == old(store.blocks)
    ensures store.layouts == old(store.layouts) && store.xorbs == old(store.xorbs)
    ensures store.placements == old(store.placements)
    ensures ShardKeysCanonical(old(store.shards)) ==> ShardKeysCanonical(store.shards)
  {
    var combined := FlattenBodies(bodies);
    var entryCount := |combined| / EntrySize;
    if entryCount >= Pow256(4) {
      return CountOverflow;
    }
    var content := Header(entryCount) + combined;
    var id := sha256hex(content);
    var key := ShardKey(id);
    var ok := store.PutObject(key, content);
    if !ok {
      return PutFailed;
    }
    if id in store.shards {
      return CreateFailed;
    }
    ghost var shards0 := store.shards;
    store.shards := store.shards[id := ShardRow(key, |content|)];
    assert KeysOf(store.shards, small) == KeysOf(shards0, small) by {
      assert forall i :: 0 <= i < |small| ==> small[i] != id;
    }
    DeleteSources(store, small, undeletable);
    r := Merged(id);
  }

  /** The download loop: a shard whose object cannot be fetched is skipped. */
  method ReadBodies(store: Store, small: seq<string>) returns (bodies: seq<Bytes>)
    requires forall i :: 0 <= i < |small| ==> small[i] in store.shards
    ensures bodies == Stripped(Sources(store.objects, store.shards, small))
  {
    bodies := [];
    var i := 0;
    while i < |small|
      invariant i <= |small|
      invariant bodies == Stripped(Sources(store.objects, store.shards, small[..i]))
    {
      assert small[..i + 1][..i] == small[..i];
      var key := store.shards[small[i]].storageKey;
      if key in store.objects {
        var content := store.objects[key];
        bodies := bodies + [Slice(content, HeaderSize, |content|)];
      }
      i := i + 1;
    }
    assert small[..i] == small;
  }

  /** `b"".join(all_entries)`. */
  method FlattenBodies(bodies: seq<Bytes>) returns (combined: Bytes)
    ensures combined == Flatten(bodies)
  {
    combined := [];
    var i := 0;
    while i < |bodies|
      invariant i <= |bodies|
      invariant combined == Flatten(bodies[..i])
    {
      FlattenAppend(bodies[..i], bodies[i]);
      assert bodies[..i + 1] == bodies[..i] + [bodies[i]];
      combined := combined + bodies[i];
      i := i + 1;
    }
    assert bodies[..i] == bodies;
  }

  /** The deletion loop inside the transaction: each selected shard's object
      is removed (a failing removal is logged) and then its row. */
  method DeleteSources(store: Store, small: seq<string>, undeletable: set<string>)
    requires forall i :: 0 <= i < |small| ==> small[i] in store.shards
    modifies store
    ensures store.objects == old(store.objects) - (KeysOf(old(store.shards), small) - undeletable)
    ensures store.shards == old(store.shards) - set i | 0 <= i < |small| :: small[i]
    ensures store.failingPuts == old(store.failingPuts) && store.blocks == old(store.blocks)
    ensures store.layouts == old(store.layouts) && store.xorbs == old(store.xorbs)
    ensures store.placements == old(store.placements)
    ensures ShardKeysCanonical(old(store.shards)) ==> ShardKeysCanonical(store.shards)
  {
    var shards0 := store.shards;
    ghost var doneKeys: set<string> := {};
    ghost var doneIds: set<string> := {};
    var i := 0;
    while i < |small|
      invariant i <= |small|
      invariant doneKeys == KeysOf(shards0, small[..i]) && doneIds == set j | 0 <= j < i :: small[j]
      invariant store.objects == old(store.objects) - (doneKeys - undeletable)
      invariant store.shards == old(store.shards) - doneIds
      invariant store.failingPuts == old(store.failingPuts) && store.blocks == old(store.blocks)
      invariant store.layouts == old(store.layouts) && store.xorbs == old(store.xorbs)
      invariant store.placements == old(store.placements)
    {
      var key := shards0[small[i]].storageKey;
      if key !in undeletable {
        store.objects := store.objects - {key};
      }
      store.shards := store.shards - {small[i]};
      MapMinusStep(old(store.objects), doneKeys, undeletable, key);
      MapMinusStep(old(store.shards), doneIds, {}, small[i]);
      KeysOfAppend(shards0, small[..i], small[i]);
      assert small[..i + 1] == small[..i] + [small[i]];
      assert (set j | 0 <= j < i + 1 :: small[j]) == doneIds + {small[i]};
      doneKeys, doneIds := doneKeys + {key}, doneIds + {small[i]};
      i := i + 1;
    }
    assert small[..i] == small;
  }

  lemma {:induction false} KeysOfAppend(shards: map<string, ShardRow>, s: seq<string>, x: string)
    requires x in shards && forall i :: 0 <= i < |s| ==> s[i] in shards
    ensures KeysOf(shards, s + [x]) == KeysOf(shards, s) + {shards[x].storageKey}
  {
    var t := s + [x];
    forall k ensures k in KeysOf(shards, t) <==> k in KeysOf(shards, s) + {shards[x].storageKey} {
      if k in KeysOf(shards, s) {
        var j :| 0 <= j < |s| && shards[s[j]].storageKey == k;
        assert t[j] == s[j];
      }
      if k == shards[x].storageKey {
        assert t[|s|] == x;
      }
      if k in KeysOf(shards, t) {
        var j :| 0 <= j < |t| && shards[t[j]].storageKey == k;
        if j < |s| { assert t[j] == s[j]; }
      }
    }
  }

  /** Removing one more key, unless it is protected. */
  lemma MapMinusStep<V>(m: map<string, V>, done: set<string>, keep: set<string>, k: string)
    ensures (if k in keep then m - (done - keep) else (m - (done - keep)) - {k}) == m - ((done + {k}) - keep)
  {
  }
}
