/** The compaction worker: standalone blocks without a placement are grouped,
    in the order the block query returns them, into batches of about 100 MiB,
    and each batch becomes one xorb object with a placement row per block
    that could be fetched. */
module Compactor {
  import opened Common
  import opened Storage
  import XetUtils

  const MiB := 1024 * 1024
  /** A batch is sealed once its recorded sizes reach this many bytes. */
  const TargetXorbSize := 100 * MiB
  /** At most this many blocks are selected per sweep. */
  const SweepLimit := 1000

  // ---------------------------------------------------------------------
  // Selection

  /** A block qualifies for compaction: a known size above 0 and no placement. */
  predicate Eligible(blocks: map<string, nat>, placements: map<string, Placement>, h: string)
  {
    h in blocks && blocks[h] > 0 && h !in placements
  }

  /** The qualifying blocks among the first `n` rows of the scan, in scan order. */
  function EligibleIn(blocks: map<string, nat>, placements: map<string, Placement>, scan: seq<string>, n: nat): seq<string>
    requires n <= |scan|
  {
    if n == 0 then []
    else EligibleIn(blocks, placements, scan, n - 1) + (if Eligible(blocks, placements, scan[n - 1]) then [scan[n - 1]] else [])
  }

  /** The query result: the qualifying blocks in scan order, cut at the limit. */
  function Candidates(blocks: map<string, nat>, placements: map<string, Placement>, scan: seq<string>): (cs: seq<string>)
    ensures |cs| <= SweepLimit
  {
    var all := EligibleIn(blocks, placements, scan, |scan|);
    if |all| <= SweepLimit then all else all[..SweepLimit]
  }

  /** Every qualifying row among the first n is kept, in order, and nothing else. */
  lemma {:induction false} EligibleInExact(blocks: map<string, nat>, placements: map<string, Placement>, scan: seq<string>, n: nat)
    requires n <= |scan|
    ensures forall h :: h in EligibleIn(blocks, placements, scan, n) <==>
              h in scan[..n] && Eligible(blocks, placements, h)
  {
    if n > 0 {
      EligibleInExact(blocks, placements, scan, n - 1);
      assert scan[..n] == scan[..n - 1] + [scan[n - 1]];
    }
  }

  lemma {:induction false} EligibleInDistinct(blocks: map<string, nat>, placements: map<string, Placement>, scan: seq<string>, n: nat)
    requires n <= |scan| && Distinct(scan)
    ensures Distinct(EligibleIn(blocks, placements, scan, n))
  {
    if n > 0 {
      EligibleInDistinct(blocks, placements, scan, n - 1);
      EligibleInExact(blocks, placements, scan, n - 1);
      var prev := EligibleIn(blocks, placements, scan, n - 1);
      if Eligible(blocks, placements, scan[n - 1]) {
        assert scan[n - 1] !in scan[..n - 1];
        assert scan[n - 1] !in prev;
        var r := prev + [scan[n - 1]];
        forall i, j | 0 <= i < j < |r| ensures r[i] != r[j] {
          if j == |r| - 1 { assert r[i] in prev; }
        }
      }
    }
  }

  /** The selection: every candidate qualifies, none repeats, at most 1000 are
      taken, and below the limit every qualifying block of the scan is taken. */
  lemma {:induction false} CandidatesSelect(blocks: map<string, nat>, placements: map<string, Placement>, scan: seq<string>)
    requires Distinct(scan)
    ensures var cs := Candidates(blocks, placements, scan);
            && Distinct(cs)
            && (forall i :: 0 <= i < |cs| ==> Eligible(blocks, placements, cs[i]))
            && (|cs| < SweepLimit ==> forall h :: h in scan && Eligible(blocks, placements, h) ==> h in cs)
  {
    var all := EligibleIn(blocks, placements, scan, |scan|);
    EligibleInExact(blocks, placements, scan, |scan|);
    EligibleInDistinct(blocks, placements, scan, |scan|);
    assert scan[..|scan|] == scan;
    var cs := Candidates(blocks, placements, scan);
    forall i | 0 <= i < |cs| ensures Eligible(blocks, placements, cs[i]) {
      assert cs[i] in all;
    }
  }

  // ---------------------------------------------------------------------
  // Batching

  /** The recorded size of a block (every candidate has one). */
  function SizeOf(sizes: map<string, nat>, h: string): nat
  {
    if h in sizes then sizes[h] else 0
  }

  /** The recorded sizes of a batch added up. */
  function BatchSize(batch: seq<string>, sizes: map<string, nat>): nat
  {
    if batch == [] then 0 else BatchSize(batch[..|batch| - 1], sizes) + SizeOf(sizes, batch[|batch| - 1])
  }

  /** The state of the batching loop: the sealed batches, the open batch and its size. */
  datatype Batching = Batching(sealed: seq<seq<string>>, current: seq<string>, size: nat)

  /** The batching loop after the first `n` candidates. */
  function BatchPrefix(cands: seq<string>, sizes: map<string, nat>, n: nat): Batching
    requires n <= |cands|
  {
    if n == 0 then Batching([], [], 0)
    else
      var b := BatchPrefix(cands, sizes, n - 1);
      var current := b.current + [cands[n - 1]];
      var size := b.size + SizeOf(sizes, cands[n - 1]);
      if size >= TargetXorbSize then Batching(b.sealed + [current], [], 0)
      else Batching(b.sealed, current, size)
  }

  /** The batches of a sweep: those sealed on reaching the target, then the
      leftover batch when it is not empty. */
  function Batches(cands: seq<string>, sizes: map<string, nat>): seq<seq<string>>
  {
    var b := BatchPrefix(cands, sizes, |cands|);
    if b.current == [] then b.sealed else b.sealed + [b.current]
  }

  /** A batch that reached the target exactly at its last block. */
  predicate ClosedAtEnd(batch: seq<string>, sizes: map<string, nat>)
  {
    batch != [] && BatchSize(batch, sizes) >= TargetXorbSize &&
    BatchSize(batch[..|batch| - 1], sizes) < TargetXorbSize
  }

  lemma {:induction false} BatchPrefixShape(cands: seq<string>, sizes: map<string, nat>, n: nat)
    requires n <= |cands|
    ensures Shaped(BatchPrefix(cands, sizes, n), cands[..n], sizes)
  {
    if n == 0 {
      assert cands[..0] == [];
    } else {
      BatchPrefixShape(cands, sizes, n - 1);
      assert cands[..n] == cands[..n - 1] + [cands[n - 1]];
      ShapedStep(BatchPrefix(cands, sizes, n - 1), cands[n - 1], sizes, BatchPrefix(cands, sizes, n), cands[..n - 1]);
    }
  }

  /** The batching state after `prefix`: the sealed batches and the open one
      spell out `prefix`, the open batch stays below the target and its size
      is the running total, and every sealed batch closed at its last block. */
  predicate Shaped(b: Batching, prefix: seq<string>, sizes: map<string, nat>)
  {
    && Flatten(b.sealed) + b.current == prefix
    && b.size == BatchSize(b.current, sizes) && b.size < TargetXorbSize
    && forall k :: 0 <= k < |b.sealed| ==> ClosedAtEnd(b.sealed[k], sizes)
  }

  lemma {:induction false} ShapedStep(before: Batching, block: string, sizes: map<string, nat>, after: Batching, prefix: seq<string>)
    requires Shaped(before, prefix, sizes) && BatchStep(before, block, sizes, after)
    ensures Shaped(after, prefix + [block], sizes)
  {
    var current := before.current + [block];
    assert current[..|current| - 1] == before.current;
    if before.size + SizeOf(sizes, block) >= TargetXorbSize {
      FlattenAppend(before.sealed, current);
    }
  }

  /** The batches partition the candidates in selection order; every batch
      but the last closed at the first block that brought it to the target,
      and the last either did so too or stayed below the target. */
  lemma {:induction false} BatchesPartition(cands: seq<string>, sizes: map<string, nat>)
    ensures var bs := Batches(cands, sizes);
            && Flatten(bs) == cands
            && (forall k :: 0 <= k < |bs| ==> bs[k] != [])
            && (forall k :: 0 <= k < |bs| - 1 ==> ClosedAtEnd(bs[k], sizes))
            && (|bs| > 0 ==> ClosedAtEnd(bs[|bs| - 1], sizes) || BatchSize(bs[|bs| - 1], sizes) < TargetXorbSize)
  {
    BatchPrefixShape(cands, sizes, |cands|);
    assert cands[..|cands|] == cands;
    ShapedPartition(BatchPrefix(cands, sizes, |cands|), cands, sizes);
  }

  /** The batches of a finished loop, read off its final state. */
  lemma {:induction false} ShapedPartition(b: Batching, cands: seq<string>, sizes: map<string, nat>)
    requires Shaped(b, cands, sizes)
    ensures var bs := if b.current == [] then b.sealed else b.sealed + [b.current];
            && Flatten(bs) == cands
            && (forall k :: 0 <= k < |bs| ==> bs[k] != [])
            && (forall k :: 0 <= k < |bs| - 1 ==> ClosedAtEnd(bs[k], sizes))
            && (|bs| > 0 ==> ClosedAtEnd(bs[|bs| - 1], sizes) || BatchSize(bs[|bs| - 1], sizes) < TargetXorbSize)
  {
    if b.current != [] {
      FlattenAppend(b.sealed, b.current);
    } else {
      assert Flatten(b.sealed) + [] == Flatten(b.sealed);
    }
  }

  /** Blocks of 4 MiB each: the batch stays open for the first 24 and closes
      at the 25th (25 x 4 MiB = 100 MiB), then a new one opens. */
  lemma {:induction false} FourMiBPrefix(cands: seq<string>, sizes: map<string, nat>, n: nat)
    requires n <= |cands| && forall i :: 0 <= i < |cands| ==> SizeOf(sizes, cands[i]) == 4 * MiB
    ensures n < 25 ==> BatchPrefix(cands, sizes, n) == Batching([], cands[..n], 4 * MiB * n)
    ensures n == 25 ==> BatchPrefix(cands, sizes, n) == Batching([cands[..25]], [], 0)
    ensures 25 < n < 50 ==> BatchPrefix(cands, sizes, n) == Batching([cands[..25]], cands[25..n], 4 * MiB * (n - 25))
  {
    if n < 25 {
      FourMiBOpen(cands, sizes, n);
    } else if n == 25 {
      FourMiBClosed(cands, sizes);
    } else if n < 50 {
      FourMiBSecond(cands, sizes, n);
    }
  }

  lemma {:induction false} FourMiBOpen(cands: seq<string>, sizes: map<string, nat>, n: nat)
    requires n <= |cands| && n < 25 && forall i :: 0 <= i < |cands| ==> SizeOf(sizes, cands[i]) == 4 * MiB
    ensures BatchPrefix(cands, sizes, n) == Batching([], cands[..n], 4 * MiB * n)
  {
    if n > 0 {
      FourMiBOpen(cands, sizes, n - 1);
      assert cands[..n] == cands[..n - 1] + [cands[n - 1]];
    }
  }

  lemma {:induction false} FourMiBClosed(cands: seq<string>, sizes: map<string, nat>)
    requires 25 <= |cands| && forall i :: 0 <= i < |cands| ==> SizeOf(sizes, cands[i]) == 4 * MiB
    ensures BatchPrefix(cands, sizes, 25) == Batching([cands[..25]], [], 0)
  {
    FourMiBOpen(cands, sizes, 24);
    assert cands[..25] == cands[..24] + [cands[24]];
  }

  lemma {:induction false} FourMiBSecond(cands: seq<string>, sizes: map<string, nat>, n: nat)
    requires n <= |cands| && 25 < n < 50 && forall i :: 0 <= i < |cands| ==> SizeOf(sizes, cands[i]) == 4 * MiB
    ensures BatchPrefix(cands, sizes, n) == Batching([cands[..25]], cands[25..n], 4 * MiB * (n - 25))
  {
    if n == 26 {
      FourMiBClosed(cands, sizes);
      assert cands[25..n] == [cands[25]];
    } else {
      FourMiBSecond(cands, sizes, n - 1);
      assert cands[25..n] == cands[25..n - 1] + [cands[n - 1]];
    }
  }

  /** Thirty blocks of 4 MiB give two xorbs: 25 blocks, then the leftover 5. */
  lemma {:induction false} ThirtyFourMiBBlocks(cands: seq<string>, sizes: map<string, nat>)
    requires |cands| == 30 && forall i :: 0 <= i < 30 ==> SizeOf(sizes, cands[i]) == 4 * MiB
    ensures Batches(cands, sizes) == [cands[..25], cands[25..]]
  {
    FourMiBPrefix(cands, sizes, 30);
    assert cands[25..30] == cands[25..];
  }

  // ---------------------------------------------------------------------
  // One xorb per batch

  /** A placement row to be created: block, offset in the xorb, length. */
  datatype Planned = Planned(block: string, offset: nat, length: nat)

  /** The fetch loop's state: the xorb bytes so far, the planned rows and the
      running offset. */
  datatype Plan = Plan(content: Bytes, rows: seq<Planned>, offset: nat)

  /** The fetch loop after the first `n` blocks of the batch: a block whose
      object is missing is skipped; a fetched one is appended and planned at
      the running offset with its recorded size, which then advances the offset. */
  function PlanPrefix(objects: map<string, Bytes>, sizes: map<string, nat>, batch: seq<string>, n: nat): Plan
    requires n <= |batch|
  {
    if n == 0 then Plan([], [], 0)
    else
      var p := PlanPrefix(objects, sizes, batch, n - 1);
      var h := batch[n - 1];
      var key := XetUtils.BlockKey(h);
      if key in objects then
        Plan(p.content + objects[key], p.rows + [Planned(h, p.offset, SizeOf(sizes, h))], p.offset + SizeOf(sizes, h))
      else p
  }

  /** The bytes and rows of a whole batch. */
  function PlanBatch(objects: map<string, Bytes>, sizes: map<string, nat>, batch: seq<string>): Plan
  {
    PlanPrefix(objects, sizes, batch, |batch|)
  }

  /** Rows laid end to end from offset 0, each as long as its block's
      recorded size, ending at `end`. */
  predicate Tiled(rows: seq<Planned>, sizes: map<string, nat>, end: nat)
  {
    && (forall j :: 0 <= j < |rows| ==> rows[j].length == SizeOf(sizes, rows[j].block))
    && (|rows| > 0 ==> rows[0].offset == 0)
    && (forall j :: 0 < j < |rows| ==> rows[j].offset == rows[j - 1].offset + rows[j - 1].length)
    && end == (if rows == [] then 0 else rows[|rows| - 1].offset + rows[|rows| - 1].length)
  }

  lemma TiledAppend(rows: seq<Planned>, sizes: map<string, nat>, end: nat, h: string)
    requires Tiled(rows, sizes, end)
    ensures Tiled(rows + [Planned(h, end, SizeOf(sizes, h))], sizes, end + SizeOf(sizes, h))
  {
    var r := rows + [Planned(h, end, SizeOf(sizes, h))];
    forall j | 0 < j < |r|
      ensures r[j].offset == r[j - 1].offset + r[j - 1].length
    {
      if j < |rows| { assert r[j] == rows[j] && r[j - 1] == rows[j - 1]; }
    }
  }

  /** Offsets are running sums of recorded sizes: the first row starts at 0,
      each next row where the previous one ends, the running offset where
      the last one ends; each length is the block's recorded size. */
  lemma {:induction false} PlanOffsets(objects: map<string, Bytes>, sizes: map<string, nat>, batch: seq<string>, n: nat)
    requires n <= |batch|
    ensures var p := PlanPrefix(objects, sizes, batch, n);
            && (forall j :: 0 <= j < |p.rows| ==> p.rows[j].length == SizeOf(sizes, p.rows[j].block))
            && (|p.rows| > 0 ==> p.rows[0].offset == 0)
            && (forall j :: 0 < j < |p.rows| ==> p.rows[j].offset == p.rows[j - 1].offset + p.rows[j - 1].length)
            && p.offset == (if p.rows == [] then 0 else p.rows[|p.rows| - 1].offset + p.rows[|p.rows| - 1].length)
  {
    PlanTiled(objects, sizes, batch, n);
  }

  lemma {:induction false} PlanTiled(objects: map<string, Bytes>, sizes: map<string, nat>, batch: seq<string>, n: nat)
    requires n <= |batch|
    ensures Tiled(PlanPrefix(objects, sizes, batch, n).rows, sizes, PlanPrefix(objects, sizes, batch, n).offset)
  {
    if n > 0 {
      PlanTiled(objects, sizes, batch, n - 1);
      var p := PlanPrefix(objects, sizes, batch, n - 1);
      if XetUtils.BlockKey(batch[n - 1]) in objects {
        TiledAppend(p.rows, sizes, p.offset, batch[n - 1]);
      }
    }
  }

  /** The blocks of the first `n` of the batch whose object exists, in batch order. */
  function FetchedIn(objects: map<string, Bytes>, batch: seq<string>, n: nat): seq<string>
    requires n <= |batch|
  {
    if n == 0 then []
    else FetchedIn(objects, batch, n - 1) + (if XetUtils.BlockKey(batch[n - 1]) in objects then [batch[n - 1]] else [])
  }

  lemma {:induction false} FetchedInExact(objects: map<string, Bytes>, batch: seq<string>, n: nat)
    requires n <= |batch|
    ensures forall h :: h in FetchedIn(objects, batch, n) <==> h in batch[..n] && XetUtils.BlockKey(h) in objects
  {
    if n > 0 {
      FetchedInExact(objects, batch, n - 1);
      assert batch[..n] == batch[..n - 1] + [batch[n - 1]];
    }
  }

  /** The blocks of the planned rows, in order. The ensures only expose the
      elements; `PlanSkipsMissing` states which blocks these are. */
  function BlocksOf(rows: seq<Planned>): (hs: seq<string>)
    ensures |hs| == |rows| && forall j :: 0 <= j < |rows| ==> hs[j] == rows[j].block
  {
    seq(|rows|, j requires 0 <= j < |rows| => rows[j].block)
  }

  /** Exactly the blocks whose object could be fetched are planned, in batch
      order; a failed fetch leaves no row. */
  lemma {:induction false} PlanSkipsMissing(objects: map<string, Bytes>, sizes: map<string, nat>, batch: seq<string>, n: nat)
    requires n <= |batch|
    ensures BlocksOf(PlanPrefix(objects, sizes, batch, n).rows) == FetchedIn(objects, batch, n)
  {
    if n > 0 {
      PlanSkipsMissing(objects, sizes, batch, n - 1);
      var p := PlanPrefix(objects, sizes, batch, n - 1);
      if XetUtils.BlockKey(batch[n - 1]) in objects {
        assert BlocksOf(p.rows + [Planned(batch[n - 1], p.offset, SizeOf(sizes, batch[n - 1]))])
            == BlocksOf(p.rows) + [batch[n - 1]];
      }
    }
  }

  /** Every fetched object has its recorded size. */
  predicate SizesMatch(objects: map<string, Bytes>, sizes: map<string, nat>, batch: seq<string>)
  {
    forall i :: 0 <= i < |batch| && XetUtils.BlockKey(batch[i]) in objects ==>
      |objects[XetUtils.BlockKey(batch[i])]| == SizeOf(sizes, batch[i])
  }

  /** When the recorded sizes are the true sizes, each placement row locates
      its block's bytes inside the xorb: reading `length` bytes at `offset`
      gives the block back, and the rows tile the whole xorb. */
  lemma {:induction false} PlanLocatesBlocks(objects: map<string, Bytes>, sizes: map<string, nat>, batch: seq<string>, n: nat)
    requires n <= |batch| && SizesMatch(objects, sizes, batch)
    ensures Located(PlanPrefix(objects, sizes, batch, n), objects)
  {
    if n > 0 {
      PlanLocatesBlocks(objects, sizes, batch, n - 1);
      var h := batch[n - 1];
      if XetUtils.BlockKey(h) in objects {
        LocatedAppend(PlanPrefix(objects, sizes, batch, n - 1), objects, h, SizeOf(sizes, h));
      }
    }
  }

  /** Every planned row of `p` spells out its block's object in `p.content`,
      and the running offset is the length of the content. */
  predicate Located(p: Plan, objects: map<string, Bytes>)
  {
    && p.offset == |p.content|
    && forall j :: 0 <= j < |p.rows| ==>
         XetUtils.BlockKey(p.rows[j].block) in objects &&
         p.rows[j].offset + p.rows[j].length <= |p.content| &&
         p.content[p.rows[j].offset..p.rows[j].offset + p.rows[j].length]
           == objects[XetUtils.BlockKey(p.rows[j].block)]
  }

  /** Appending a fetched block at the running offset keeps every row located. */
  lemma {:induction false} LocatedAppend(p: Plan, objects: map<string, Bytes>, h: string, len: nat)
    requires Located(p, objects)
    requires XetUtils.BlockKey(h) in objects && len == |objects[XetUtils.BlockKey(h)]|
    ensures var bytes := objects[XetUtils.BlockKey(h)];
            Located(Plan(p.content + bytes, p.rows + [Planned(h, p.offset, len)], p.offset + len), objects)
  {
    var bytes := objects[XetUtils.BlockKey(h)];
    var q := Plan(p.content + bytes, p.rows + [Planned(h, p.offset, len)], p.offset + len);
    forall j | 0 <= j < |q.rows|
      ensures XetUtils.BlockKey(q.rows[j].block) in objects
      ensures q.rows[j].offset + q.rows[j].length <= |q.content|
      ensures q.content[q.rows[j].offset..q.rows[j].offset + q.rows[j].length]
              == objects[XetUtils.BlockKey(q.rows[j].block)]
    {
      if j < |p.rows| {
        assert q.rows[j] == p.rows[j];
        assert q.content[q.rows[j].offset..q.rows[j].offset + q.rows[j].length]
            == p.content[p.rows[j].offset..p.rows[j].offset + p.rows[j].length];
      } else {
        assert q.content[p.offset..p.offset + len] == bytes;
      }
    }
  }

  /** The fetch loop of `_create_xorb_from_batch`. */
  method FetchBatch(store: Store, batch: seq<string>) returns (content: Bytes, rows: seq<Planned>)
    ensures content == PlanBatch(store.objects, store.blocks, batch).content
    ensures rows == PlanBatch(store.objects, store.blocks, batch).rows
  {
    content, rows := [], [];
    var offset := 0;
    var i := 0;
    while i < |batch|
      invariant i <= |batch|
      invariant Plan(content, rows, offset) == PlanPrefix(store.objects, store.blocks, batch, i)
    {
      var h := batch[i];
      var key := XetUtils.BlockKey(h);
      if key in store.objects {
        var data := store.objects[key];
        var size := SizeOf(store.blocks, h);
        content := content + data;
        rows := rows + [Planned(h, offset, size)];
        offset := offset + size;
      }
      i := i + 1;
    }
  }

  /** The placement table after creating a row for each of the first `n` planned rows. */
  function Placed(placements: map<string, Placement>, xorbId: string, rows: seq<Planned>, n: nat): map<string, Placement>
    requires n <= |rows|
  {
    if n == 0 then placements
    else Placed(placements, xorbId, rows, n - 1)[rows[n - 1].block := Placement(xorbId, rows[n - 1].offset, rows[n - 1].length)]
  }

  /** Each planned block gets its row in the new xorb, with the planned offset
      and length; every other block keeps what it had. */
  lemma {:induction false} PlacedRows(placements: map<string, Placement>, xorbId: string, rows: seq<Planned>, n: nat)
    requires n <= |rows| && Distinct(BlocksOf(rows))
    ensures var m := Placed(placements, xorbId, rows, n);
            && (forall j :: 0 <= j < n ==>
                  rows[j].block in m && m[rows[j].block] == Placement(xorbId, rows[j].offset, rows[j].length))
            && (forall h :: h !in BlocksOf(rows[..n]) ==>
                  (h in m <==> h in placements) && (h in placements ==> m[h] == placements[h]))
  {
    if n > 0 {
      PlacedRows(placements, xorbId, rows, n - 1);
      assert BlocksOf(rows[..n]) == BlocksOf(rows[..n - 1]) + [rows[n - 1].block];
      forall j | 0 <= j < n - 1 ensures rows[j].block != rows[n - 1].block {
        assert BlocksOf(rows)[j] != BlocksOf(rows)[n - 1];
      }
    }
  }

  /** The insert loop inside the transaction: one placement row per planned row. */
  method RecordPlacements(store: Store, xorbId: string, rows: seq<Planned>)
    requires store.Valid() && xorbId in store.xorbs
    requires forall j :: 0 <= j < |rows| ==> rows[j].block in store.blocks
    modifies store
    ensures store.Valid()
    ensures store.placements == Placed(old(store.placements), xorbId, rows, |rows|)
    ensures store.objects == old(store.objects) && store.failingPuts == old(store.failingPuts)
    ensures store.blocks == old(store.blocks) && store.layouts == old(store.layouts)
    ensures store.xorbs == old(store.xorbs) && store.shards == old(store.shards)
  {
    var i := 0;
    while i < |rows|
      invariant i <= |rows| && store.Valid()
      invariant store.placements == Placed(old(store.placements), xorbId, rows, i)
      invariant store.objects == old(store.objects) && store.failingPuts == old(store.failingPuts)
      invariant store.blocks == old(store.blocks) && store.layouts == old(store.layouts)
      invariant store.xorbs == old(store.xorbs) && store.shards == old(store.shards)
    {
      var r := rows[i];
      var placement := Placement(xorbId, r.offset, r.length);
      PlacementConsistent(store.blocks, store.layouts, store.xorbs, store.placements, store.shards, r.block, placement);
      store.placements := store.placements[r.block := placement];
      i := i + 1;
    }
  }

  /** Every planned block comes from the batch and its object exists. */
  lemma {:induction false} PlanRowsFetched(objects: map<string, Bytes>, sizes: map<string, nat>, batch: seq<string>)
    ensures var rows := PlanBatch(objects, sizes, batch).rows;
            forall j :: 0 <= j < |rows| ==> rows[j].block in batch && XetUtils.BlockKey(rows[j].block) in objects
  {
    var rows := PlanBatch(objects, sizes, batch).rows;
    PlanSkipsMissing(objects, sizes, batch, |batch|);
    FetchedInExact(objects, batch, |batch|);
    assert batch[..|batch|] == batch;
    forall j | 0 <= j < |rows| ensures rows[j].block in batch && XetUtils.BlockKey(rows[j].block) in objects {
      assert BlocksOf(rows)[j] in FetchedIn(objects, batch, |batch|);
    }
  }

  /** The planned blocks of a batch without repeats do not repeat either. */
  lemma {:induction false} PlanRowsDistinct(objects: map<string, Bytes>, sizes: map<string, nat>, batch: seq<string>, n: nat)
    requires n <= |batch| && Distinct(batch)
    ensures Distinct(BlocksOf(PlanPrefix(objects, sizes, batch, n).rows))
    ensures forall j :: 0 <= j < |PlanPrefix(objects, sizes, batch, n).rows| ==>
              PlanPrefix(objects, sizes, batch, n).rows[j].block in batch[..n]
  {
    if n > 0 {
      PlanRowsDistinct(objects, sizes, batch, n - 1);
      var p := PlanPrefix(objects, sizes, batch, n - 1);
      var q := PlanPrefix(objects, sizes, batch, n);
      assert batch[..n] == batch[..n - 1] + [batch[n - 1]];
      assert batch[n - 1] !in batch[..n - 1];
      if XetUtils.BlockKey(batch[n - 1]) in objects {
        forall i, j | 0 <= i < j < |q.rows| ensures BlocksOf(q.rows)[i] != BlocksOf(q.rows)[j] {
          if j == |q.rows| - 1 {
            assert q.rows[i] == p.rows[i];
          } else {
            assert BlocksOf(p.rows)[i] != BlocksOf(p.rows)[j];
          }
        }
      }
    }
  }

  // ---------------------------------------------------------------------
  // Sealing batches

  /** The part of the store a sweep changes: the bucket, the xorb table and
      the placement table. */
  datatype Tables = Tables(objects: map<string, Bytes>, xorbs: map<string, XorbRow>, placements: map<string, Placement>)

  /** `_create_xorb_from_batch` on values: the tables afterwards and whether
      it returned normally (false when it raised). Nothing fetched: nothing
      happens. A failing upload raises before any row is written; a clash of
      the new id with an existing xorb raises inside the transaction, after
      the upload, and rolls the rows back. */
  function SealBatch(t: Tables, failing: set<string>, sizes: map<string, nat>, batch: seq<string>, xorbId: string): (Tables, bool)
  {
    var p := PlanBatch(t.objects, sizes, batch);
    var key := XetUtils.XorbKey(xorbId);
    if p.content == [] then (t, true)
    else if key in failing then (t, false)
    else if xorbId in t.xorbs then (t.(objects := t.objects[key := p.content]), false)
    else (Tables(t.objects[key := p.content], t.xorbs[xorbId := XorbRow(key, |p.content|)],
                 Placed(t.placements, xorbId, p.rows, |p.rows|)), true)
  }

  /** The batches sealed in order, batch k with id `uuid4(k)`; the first
      batch that raises ends the sweep. */
  function SealAll(t: Tables, failing: set<string>, sizes: map<string, nat>, batches: seq<seq<string>>,
                   uuid4: nat -> string): (Tables, bool)
  {
    if batches == [] then (t, true)
    else
      var r := SealAll(t, failing, sizes, batches[..|batches| - 1], uuid4);
      if !r.1 then r
      else SealBatch(r.0, failing, sizes, batches[|batches| - 1], uuid4(|batches| - 1))
  }

  /** Once a batch has raised, later batches change nothing. */
  lemma {:induction false} SealAllStops(t: Tables, failing: set<string>, sizes: map<string, nat>,
                                        bs: seq<seq<string>>, more: seq<seq<string>>, uuid4: nat -> string)
    requires !SealAll(t, failing, sizes, bs, uuid4).1
    ensures SealAll(t, failing, sizes, bs + more, uuid4) == SealAll(t, failing, sizes, bs, uuid4)
  {
    if more == [] {
      assert bs + more == bs;
    } else {
      var all := bs + more;
      assert all[..|all| - 1] == bs + more[..|more| - 1];
      SealAllStops(t, failing, sizes, bs, more[..|more| - 1], uuid4);
    }
  }

  /** The batches sealed after n candidates are a prefix of those sealed after m >= n. */
  lemma {:induction false} BatchPrefixGrows(cands: seq<string>, sizes: map<string, nat>, n: nat, m: nat)
    requires n <= m <= |cands|
    ensures var a := BatchPrefix(cands, sizes, n).sealed;
            var b := BatchPrefix(cands, sizes, m).sealed;
            |a| <= |b| && b[..|a|] == a
  {
    if n < m {
      BatchPrefixGrows(cands, sizes, n, m - 1);
      var a := BatchPrefix(cands, sizes, n).sealed;
      var b := BatchPrefix(cands, sizes, m - 1).sealed;
      var c := BatchPrefix(cands, sizes, m).sealed;
      if c != b {
        assert c[..|b|] == b;
        assert c[..|a|] == b[..|a|];
      }
    }
  }

  /** With no candidate the sweep creates nothing. */
  lemma {:induction false} NoCandidatesNoXorbs(t: Tables, failing: set<string>, sizes: map<string, nat>, uuid4: nat -> string)
    ensures SealAll(t, failing, sizes, Batches([], sizes), uuid4) == (t, true)
  {
    assert BatchPrefix([], sizes, 0) == Batching([], [], 0);
  }

  /** A batch from which nothing could be fetched creates no xorb and no
      placement, and does not stop the sweep. */
  lemma {:induction false} NothingFetchedNoXorb(t: Tables, failing: set<string>, sizes: map<string, nat>, batch: seq<string>, xorbId: string)
    requires forall i :: 0 <= i < |batch| ==> XetUtils.BlockKey(batch[i]) !in t.objects
    ensures SealBatch(t, failing, sizes, batch, xorbId) == (t, true)
  {
    assert PlanBatch(t.objects, sizes, batch).content == [] by {
      PlanNothingFetched(t.objects, sizes, batch, |batch|);
    }
  }

  lemma {:induction false} PlanNothingFetched(objects: map<string, Bytes>, sizes: map<string, nat>, batch: seq<string>, n: nat)
    requires n <= |batch| && forall i :: 0 <= i < n ==> XetUtils.BlockKey(batch[i]) !in objects
    ensures PlanPrefix(objects, sizes, batch, n) == Plan([], [], 0)
  {
    if n > 0 {
      PlanNothingFetched(objects, sizes, batch, n - 1);
    }
  }

  /** A sealed xorb holds its blocks: when the recorded sizes are the true
      sizes and the batch has no repeats, every fetched block of the batch is
      placed in the new xorb, and reading the placement's range of the xorb
      object gives back the block's bytes. The xorb's size is the number of
      bytes fetched, which is where the last placement ends. */
  lemma {:induction false} SealedXorbHoldsBlocks(t: Tables, failing: set<string>, sizes: map<string, nat>, batch: seq<string>, xorbId: string)
    requires Distinct(batch) && SizesMatch(t.objects, sizes, batch)
    requires SealBatch(t, failing, sizes, batch, xorbId).1
    requires PlanBatch(t.objects, sizes, batch).content != []
    ensures var r := SealBatch(t, failing, sizes, batch, xorbId).0;
            var key := XetUtils.XorbKey(xorbId);
            && xorbId in r.xorbs && r.xorbs[xorbId].storageKey == key && key in r.objects
            && r.xorbs[xorbId].size == |r.objects[key]|
            && forall h :: h in batch && XetUtils.BlockKey(h) in t.objects ==>
                 h in r.placements && r.placements[h].xorb == xorbId &&
                 r.placements[h].offset + r.placements[h].length <= r.xorbs[xorbId].size &&
                 r.objects[key][r.placements[h].offset..r.placements[h].offset + r.placements[h].length]
                   == t.objects[XetUtils.BlockKey(h)]
  {
    var p := PlanBatch(t.objects, sizes, batch);
    var key := XetUtils.XorbKey(xorbId);
    var m := Placed(t.placements, xorbId, p.rows, |p.rows|);
    assert SealBatch(t, failing, sizes, batch, xorbId).0
        == Tables(t.objects[key := p.content], t.xorbs[xorbId := XorbRow(key, |p.content|)], m);
    PlacementsLocate(t, sizes, batch, xorbId);
  }

  /** The placements written for a batch point each fetched block at its
      bytes in the xorb content. */
  lemma {:induction false} PlacementsLocate(t: Tables, sizes: map<string, nat>, batch: seq<string>, xorbId: string)
    requires Distinct(batch) && SizesMatch(t.objects, sizes, batch)
    ensures var p := PlanBatch(t.objects, sizes, batch);
            var m := Placed(t.placements, xorbId, p.rows, |p.rows|);
            forall h :: h in batch && XetUtils.BlockKey(h) in t.objects ==>
              h in m && m[h].xorb == xorbId && m[h].offset + m[h].length <= |p.content|
              && p.content[m[h].offset..m[h].offset + m[h].length] == t.objects[XetUtils.BlockKey(h)]
  {
    forall h | h in batch && XetUtils.BlockKey(h) in t.objects {
      PlacementLocates(t, sizes, batch, xorbId, h);
    }
  }

  lemma {:induction false} PlacementLocates(t: Tables, sizes: map<string, nat>, batch: seq<string>, xorbId: string, h: string)
    requires Distinct(batch) && SizesMatch(t.objects, sizes, batch)
    requires h in batch && XetUtils.BlockKey(h) in t.objects
    ensures var p := PlanBatch(t.objects, sizes, batch);
            var m := Placed(t.placements, xorbId, p.rows, |p.rows|);
            h in m && m[h].xorb == xorbId && m[h].offset + m[h].length <= |p.content|
            && p.content[m[h].offset..m[h].offset + m[h].length] == t.objects[XetUtils.BlockKey(h)]
  {
    var p := PlanBatch(t.objects, sizes, batch);
    var m := Placed(t.placements, xorbId, p.rows, |p.rows|);
    PlanRowsDistinct(t.objects, sizes, batch, |batch|);
    PlacedRows(t.placements, xorbId, p.rows, |p.rows|);
    var j := FetchedRow(t.objects, sizes, batch, h);
    assert m[h] == Placement(xorbId, p.rows[j].offset, p.rows[j].length);
    RowLocates(t.objects, sizes, batch, j);
  }

  /** A fetched block of the batch has a planned row. */
  lemma {:induction false} FetchedRow(objects: map<string, Bytes>, sizes: map<string, nat>, batch: seq<string>, h: string) returns (j: nat)
    requires h in batch && XetUtils.BlockKey(h) in objects
    ensures var rows := PlanBatch(objects, sizes, batch).rows;
            j < |rows| && rows[j].block == h
  {
    var rows := PlanBatch(objects, sizes, batch).rows;
    PlanSkipsMissing(objects, sizes, batch, |batch|);
    FetchedInExact(objects, batch, |batch|);
    assert batch[..|batch|] == batch;
    assert h in BlocksOf(rows);
    j :| 0 <= j < |rows| && BlocksOf(rows)[j] == h;
  }

  /** Planned row j locates its block's bytes in the xorb content. */
  lemma {:induction false} RowLocates(objects: map<string, Bytes>, sizes: map<string, nat>, batch: seq<string>, j: nat)
    requires SizesMatch(objects, sizes, batch) && j < |PlanBatch(objects, sizes, batch).rows|
    ensures var p := PlanBatch(objects, sizes, batch);
            var row := p.rows[j];
            && XetUtils.BlockKey(row.block) in objects
            && row.offset + row.length <= |p.content|
            && p.content[row.offset..row.offset + row.length] == objects[XetUtils.BlockKey(row.block)]
  {
    PlanLocatesBlocks(objects, sizes, batch, |batch|);
  }

  /** `_create_xorb_from_batch`: fetch, upload the xorb, then the xorb row
      and its placements in one transaction. Returns false when it raised. */
  method CreateXorbFromBatch(store: Store, batch: seq<string>, xorbId: string) returns (ok: bool)
    requires store.Valid() && forall i :: 0 <= i < |batch| ==> batch[i] in store.blocks
    modifies store
    ensures store.Valid()
    ensures (Tables(store.objects, store.xorbs, store.placements), ok)
         == SealBatch(Tables(old(store.objects), old(store.xorbs), old(store.placements)),
                      old(store.failingPuts), old(store.blocks), batch, xorbId)
    ensures store.failingPuts == old(store.failingPuts) && store.blocks == old(store.blocks)
    ensures store.layouts == old(store.layouts) && store.shards == old(store.shards)
  {
    var content, rows := FetchBatch(store, batch);
    if content == [] {
      return true;
    }
    var key := XetUtils.XorbKey(xorbId);
    ok := store.PutObject(key, content);
    if !ok {
      return;
    }
    if xorbId in store.xorbs {
      return false;
    }
    PlanRowsFetched(old(store.objects), store.blocks, batch);
    XorbConsistent(store.blocks, store.layouts, store.xorbs, store.placements, store.shards, xorbId, XorbRow(key, |content|));
    store.xorbs := store.xorbs[xorbId := XorbRow(key, |content|)];
    RecordPlacements(store, xorbId, rows);
  }

  /** `compact_blocks`: one sweep. `scan` is the order in which the block
      query returns the rows of the block table; `uuid4(k)` is the id drawn
      for the k-th batch. The sweep seals the batches in order and stops at
      the first one that raises; `raised` tells whether one did, the
      exception the sweep passes on to its caller. */
  method CompactBlocks(store: Store, scan: seq<string>, uuid4: nat -> string) returns (raised: bool)
    requires store.Valid() && Distinct(scan) && forall h :: h in scan <==> h in store.blocks
    modifies store
    ensures store.Valid()
    ensures raised <==> !SealAll(Tables(old(store.objects), old(store.xorbs), old(store.placements)), old(store.failingPuts),
                                 old(store.blocks), Batches(Candidates(old(store.blocks), old(store.placements), scan),
                                                            old(store.blocks)), uuid4).1
    ensures Tables(store.objects, store.xorbs, store.placements)
         == SealAll(Tables(old(store.objects), old(store.xorbs), old(store.placements)), old(store.failingPuts),
                    old(store.blocks), Batches(Candidates(old(store.blocks), old(store.placements), scan), old(store.blocks)),
                    uuid4).0
    ensures store.failingPuts == old(store.failingPuts) && store.blocks == old(store.blocks)
    ensures store.layouts == old(store.layouts) && store.shards == old(store.shards)
  {
    var cands := Candidates(store.blocks, store.placements, scan);
    CandidatesSelect(store.blocks, store.placements, scan);
    if cands == [] {
      NoCandidatesNoXorbs(Tables(store.objects, store.xorbs, store.placements), store.failingPuts, store.blocks, uuid4);
      return false;
    }
    raised := SealCandidates(store, cands, uuid4);
  }

  /** The store part of the sweep's state: the tables are those reached by
      sealing `sealed` from `t0`, and the rest of the store is as it was. */
  ghost predicate Swept(store: Store, t0: Tables, failing: set<string>, sizes: map<string, nat>,
                        layouts: map<nat, seq<string>>, shards: map<string, ShardRow>,
                        sealed: seq<seq<string>>, uuid4: nat -> string)
    reads store
  {
    && store.Valid() && store.failingPuts == failing && store.blocks == sizes
    && store.layouts == layouts && store.shards == shards
    && SealAll(t0, failing, sizes, sealed, uuid4) == (Tables(store.objects, store.xorbs, store.placements), true)
  }

  /** The batching loop of `compact_blocks` over the selected candidates;
      `raised` tells whether a batch raised. */
  method SealCandidates(store: Store, cands: seq<string>, uuid4: nat -> string) returns (raised: bool)
    requires store.Valid() && forall k :: 0 <= k < |cands| ==> cands[k] in store.blocks
    modifies store
    ensures store.Valid()
    ensures raised <==> !SealAll(Tables(old(store.objects), old(store.xorbs), old(store.placements)), old(store.failingPuts),
                                 old(store.blocks), Batches(cands, old(store.blocks)), uuid4).1
    ensures Tables(store.objects, store.xorbs, store.placements)
         == SealAll(Tables(old(store.objects), old(store.xorbs), old(store.placements)), old(store.failingPuts),
                    old(store.blocks), Batches(cands, old(store.blocks)), uuid4).0
    ensures store.failingPuts == old(store.failingPuts) && store.blocks == old(store.blocks)
    ensures store.layouts == old(store.layouts) && store.shards == old(store.shards)
  {
    ghost var t0 := Tables(store.objects, store.xorbs, store.placements);
    ghost var failing, sizes, layouts, shards := store.failingPuts, store.blocks, store.layouts, store.shards;
    ghost var sealed: seq<seq<string>> := [];
    var currentBatch: seq<string> := [];
    var currentSize: nat := 0;
    var made := 0;
    var i := 0;
    while i < |cands|
      invariant i <= |cands| && made == |sealed|
      invariant BatchPrefix(cands, sizes, i) == Batching(sealed, currentBatch, currentSize)
      invariant Swept(store, t0, failing, sizes, layouts, shards, sealed, uuid4)
      invariant forall k :: 0 <= k < |currentBatch| ==> currentBatch[k] in sizes
    {
      ghost var before := Batching(sealed, currentBatch, currentSize);
      var ok;
      ok, currentBatch, currentSize, made, sealed :=
        AddCandidate(store, cands[i], currentBatch, currentSize, made, uuid4, sealed, t0, failing, sizes, layouts, shards);
      BatchPrefixNext(cands, sizes, i, before, Batching(sealed, currentBatch, currentSize));
      if !ok {
        AbortedSweep(t0, failing, sizes, cands, i + 1, uuid4);
        return true;
      }
      i := i + 1;
    }
    assert t0 == Tables(old(store.objects), old(store.xorbs), old(store.placements));
    assert failing == old(store.failingPuts) && sizes == old(store.blocks);
    raised := SealLeftover(store, cands, currentBatch, currentSize, made, uuid4, sealed, t0, failing, sizes, layouts, shards);
  }

  /** The end of `compact_blocks`: the open batch, when not empty, is sealed
      too; `raised` tells whether that last batch raised. */
  method SealLeftover(store: Store, cands: seq<string>, currentBatch: seq<string>, currentSize: nat, made: nat,
                      uuid4: nat -> string, ghost sealed: seq<seq<string>>, ghost t0: Tables,
                      ghost failing: set<string>, ghost sizes: map<string, nat>,
                      ghost layouts: map<nat, seq<string>>, ghost shards: map<string, ShardRow>)
    returns (raised: bool)
    requires made == |sealed| && Swept(store, t0, failing, sizes, layouts, shards, sealed, uuid4)
    requires BatchPrefix(cands, sizes, |cands|) == Batching(sealed, currentBatch, currentSize)
    requires forall k :: 0 <= k < |currentBatch| ==> currentBatch[k] in sizes
    modifies store
    ensures Tables(store.objects, store.xorbs, store.placements) == SealAll(t0, failing, sizes, Batches(cands, sizes), uuid4).0
    ensures raised <==> !SealAll(t0, failing, sizes, Batches(cands, sizes), uuid4).1
    ensures store.Valid() && store.failingPuts == failing && store.blocks == sizes
    ensures store.layouts == layouts && store.shards == shards
  {
    raised := false;
    if currentBatch != [] {
      var ok := SealNext(store, currentBatch, sealed, made, uuid4, t0, failing, sizes, layouts, shards);
      raised := !ok;
    }
  }

  /** One pass of the batching loop: the block joins the open batch, which is
      sealed once its size reaches the target. */
  method AddCandidate(store: Store, block: string, currentBatch: seq<string>, currentSize: nat, made: nat,
                      uuid4: nat -> string, ghost sealed: seq<seq<string>>, ghost t0: Tables,
                      ghost failing: set<string>, ghost sizes: map<string, nat>,
                      ghost layouts: map<nat, seq<string>>, ghost shards: map<string, ShardRow>)
    returns (ok: bool, nextBatch: seq<string>, nextSize: nat, nextMade: nat, ghost nextSealed: seq<seq<string>>)
    requires made == |sealed| && Swept(store, t0, failing, sizes, layouts, shards, sealed, uuid4)
    requires block in sizes && forall k :: 0 <= k < |currentBatch| ==> currentBatch[k] in sizes
    modifies store
    ensures BatchStep(Batching(sealed, currentBatch, currentSize), block, sizes, Batching(nextSealed, nextBatch, nextSize))
    ensures nextMade == |nextSealed| && forall k :: 0 <= k < |nextBatch| ==> nextBatch[k] in sizes
    ensures ok ==> Swept(store, t0, failing, sizes, layouts, shards, nextSealed, uuid4)
    ensures !ok ==> SealAll(t0, failing, sizes, nextSealed, uuid4) == (Tables(store.objects, store.xorbs, store.placements), false)
    ensures store.Valid() && store.failingPuts == failing && store.blocks == sizes
    ensures store.layouts == layouts && store.shards == shards
  {
    nextBatch := currentBatch + [block];
    nextSize := currentSize + SizeOf(store.blocks, block);
    nextMade, nextSealed, ok := made, sealed, true;
    if nextSize >= TargetXorbSize {
      ok := SealNext(store, nextBatch, sealed, made, uuid4, t0, failing, sizes, layouts, shards);
      nextSealed := sealed + [nextBatch];
      nextBatch, nextSize := [], 0;
      nextMade := made + 1;
    }
  }

  /** The batching loop's state moves as `BatchPrefix` does. */
  predicate BatchStep(before: Batching, block: string, sizes: map<string, nat>, after: Batching)
  {
    var grown := before.current + [block];
    var total := before.size + SizeOf(sizes, block);
    if total >= TargetXorbSize then after == Batching(before.sealed + [grown], [], 0)
    else after == Batching(before.sealed, grown, total)
  }

  /** One more candidate in the batching loop. */
  lemma BatchPrefixNext(cands: seq<string>, sizes: map<string, nat>, i: nat, before: Batching, after: Batching)
    requires i < |cands| && BatchPrefix(cands, sizes, i) == before
    requires BatchStep(before, cands[i], sizes, after)
    ensures BatchPrefix(cands, sizes, i + 1) == after
  {
  }

  /** A sweep that raised after the first n candidates ends where it stopped. */
  lemma {:induction false} AbortedSweep(t0: Tables, failing: set<string>, sizes: map<string, nat>, cands: seq<string>, n: nat, uuid4: nat -> string)
    requires n <= |cands|
    requires !SealAll(t0, failing, sizes, BatchPrefix(cands, sizes, n).sealed, uuid4).1
    ensures SealAll(t0, failing, sizes, Batches(cands, sizes), uuid4)
         == SealAll(t0, failing, sizes, BatchPrefix(cands, sizes, n).sealed, uuid4)
  {
    var a := BatchPrefix(cands, sizes, n).sealed;
    var all := Batches(cands, sizes);
    BatchPrefixGrows(cands, sizes, n, |cands|);
    assert all[..|a|] == a;
    assert all == a + all[|a|..];
    SealAllStops(t0, failing, sizes, a, all[|a|..], uuid4);
  }

  /** Seals the next batch of the sweep: the tables move from the state after
      the earlier batches to the state after this one. */
  method SealNext(store: Store, batch: seq<string>, ghost prior: seq<seq<string>>, made: nat, uuid4: nat -> string,
                  ghost t0: Tables, ghost failing: set<string>, ghost sizes: map<string, nat>,
                  ghost layouts: map<nat, seq<string>>, ghost shards: map<string, ShardRow>)
    returns (ok: bool)
    requires made == |prior| && Swept(store, t0, failing, sizes, layouts, shards, prior, uuid4)
    requires forall k :: 0 <= k < |batch| ==> batch[k] in sizes
    modifies store
    ensures SealAll(t0, failing, sizes, prior + [batch], uuid4) == (Tables(store.objects, store.xorbs, store.placements), ok)
    ensures store.Valid() && store.failingPuts == failing && store.blocks == sizes
    ensures store.layouts == layouts && store.shards == shards
  {
    ok := CreateXorbFromBatch(store, batch, uuid4(made));
    assert (prior + [batch])[..|prior|] == prior;
  }
}
