/** Decoding of Git pack files, version 2 (gitformat-pack): the 12-byte
    header, the per-object type/size header, the two delta representations
    (OFS_DELTA by negative offset, REF_DELTA by base object id) and the
    copy/insert instructions of a deltified object. zlib inflation and SHA-1
    are parameters. */
module Pack {
  import opened Common

  /** Why decoding stops; every one of them is an exception in the parser. */
  datatype PackError =
    | BadSignature          // the first four bytes are not `PACK`
    | ShortHeader           // fewer than four bytes where a u32 is unpacked
    | BadVersion(version: nat)
    | Truncated             // a read past the end of the data
    | UnknownType(kind: nat)
    | InflateFailed         // the decompressor rejects the stream
    | SizeMismatch          // inflated length differs from the declared size
    | MissingBase           // the delta base has not been decoded
    | DeltaSourceMismatch   // the delta's source size is not the base's length
    | ZeroOpcode            // delta instruction byte 0
    | DeltaResultMismatch   // the delta's output length differs from its declared size

  datatype Result<T> = Ok(value: T) | Err(error: PackError)

  /** A decoded object: the type number read from its header and its bytes. */
  datatype PackObject = PackObject(kind: nat, content: Bytes)

  /** The decompressor: for the bytes from the cursor to the end, the
      inflated data and the number of input bytes the stream used, or
      nothing when the stream is invalid. */
  type Inflate = Bytes -> Option<(Bytes, nat)>

  /** The decompressor never reports more input used than it was given. */
  ghost predicate Consumes(inflate: Inflate)
  {
    forall b :: inflate(b).Some? ==> inflate(b).value.1 <= |b|
  }

  function Pow2(n: nat): (r: nat)
    ensures r >= 1
  {
    if n == 0 then 1 else 2 * Pow2(n - 1)
  }

  lemma {:induction false} Pow2Add(a: nat, b: nat)
    ensures Pow2(a + b) == Pow2(a) * Pow2(b)
  {
    if a > 0 {
      Pow2Add(a - 1, b);
      assert Pow2(a + b) == 2 * Pow2(a - 1 + b);
    }
  }

  // ---------------------------------------------------------------------------
  // Runs of continuation bytes: every byte but the last has bit 7 set.

  /** The position just past the first byte at or after `pos` whose bit 7 is
      clear, or nothing when the data ends first. */
  function RunEnd(data: Bytes, pos: nat): (r: Option<nat>)
    ensures r.Some? ==> pos < r.value <= |data|
    decreases |data| - pos
  {
    if pos >= |data| then None
    else if data[pos] < 128 then Some(pos + 1)
    else RunEnd(data, pos + 1)
  }

  lemma {:induction false} RunEndFound(data: Bytes, start: nat, end: nat)
    requires start < end <= |data|
    requires forall k :: start <= k < end - 1 ==> data[k] >= 128
    requires data[end - 1] < 128
    ensures RunEnd(data, start) == Some(end)
    decreases end - start
  {
    if start < end - 1 {
      RunEndFound(data, start + 1, end);
    }
  }

  lemma {:induction false} RunEndMissing(data: Bytes, start: nat)
    requires forall k :: start <= k < |data| ==> data[k] >= 128
    ensures RunEnd(data, start) == None
    decreases |data| - start
  {
    if start < |data| {
      RunEndMissing(data, start + 1);
    }
  }

  /** Little-endian base 128: byte `k` contributes its low seven bits at
      shift `7k` (`result |= (byte & 127) << shift`; the bit groups are
      disjoint, so the or is a sum). */
  function LittleEndian128(bs: Bytes): nat
    decreases |bs|
  {
    if bs == [] then 0
    else LittleEndian128(bs[..|bs| - 1]) + (bs[|bs| - 1] % 128) * Pow2(7 * (|bs| - 1))
  }

  lemma Pow2Small()
    ensures Pow2(4) == 16 && Pow2(7) == 128
  {
    assert Pow2(2) == 4;
    assert Pow2(4) == 16;
    assert Pow2(6) == 64;
  }

  /** Moving a factor `c` across the shift of one more digit. */
  lemma ScaledSum(a: int, c: int, x: int, y: int, p: int)
    ensures a + c * (x + y * p) == a + c * x + y * (c * p)
  {
  }

  lemma {:induction false} LittleEndian128Cons(b: byte, bs: Bytes)
    ensures LittleEndian128([b] + bs) == b % 128 + 128 * LittleEndian128(bs)
    decreases |bs|
  {
    if bs != [] {
      var n := |bs|;
      var s := [b] + bs;
      assert s[..n] == [b] + bs[..n - 1];
      assert s[n] == bs[n - 1];
      LittleEndian128Cons(b, bs[..n - 1]);
      var x, y, p := LittleEndian128(bs[..n - 1]), bs[n - 1] % 128, Pow2(7 * (n - 1));
      assert Pow2(7 * n) == 128 * p by {
        Pow2Add(7, 7 * (n - 1));
        Pow2Small();
      }
      assert LittleEndian128(s) == b % 128 + 128 * x + y * (128 * p);
      assert LittleEndian128(bs) == x + y * p;
      ScaledSum(b % 128, 128, x, y, p);
    }
  }

  /** The writer's varint: seven bits at a time, least significant first,
      bit 7 set on every byte but the last. */
  function EncodeLittleEndian128(n: nat): (r: Bytes)
    ensures |r| >= 1
    decreases n
  {
    if n < 128 then [n] else [n % 128 + 128] + EncodeLittleEndian128(n / 128)
  }

  /** Every byte but the last has bit 7 set, and the last has it clear. */
  predicate ContinuationRun(e: Bytes)
  {
    |e| >= 1 && (forall k :: 0 <= k < |e| - 1 ==> e[k] >= 128) && e[|e| - 1] < 128
  }

  /** A run placed anywhere in the data ends where it was placed to end. */
  lemma {:induction false} RunEndOfRun(before: Bytes, e: Bytes, after: Bytes)
    requires ContinuationRun(e)
    ensures RunEnd(before + e + after, |before|) == Some(|before| + |e|)
    ensures (before + e + after)[|before|..|before| + |e|] == e
  {
    var data := before + e + after;
    forall k | |before| <= k < |before| + |e| - 1
      ensures data[k] >= 128
    {
      assert data[k] == e[k - |before|];
    }
    assert data[|before| + |e| - 1] == e[|e| - 1];
    RunEndFound(data, |before|, |before| + |e|);
    assert data[|before|..|before| + |e|] == e;
  }

  /** The digit split behind one step of the writer's varint. */
  lemma DigitSplit(n: nat)
    requires n >= 128
    ensures (n % 128 + 128) % 128 + 128 * (n / 128) == n && n % 128 + 128 >= 128 && n / 128 < n
  {
  }

  lemma {:induction false} EncodeLittleEndian128Facts(n: nat)
    ensures ContinuationRun(EncodeLittleEndian128(n)) && LittleEndian128(EncodeLittleEndian128(n)) == n
    decreases n
  {
    if n >= 128 {
      var rest := EncodeLittleEndian128(n / 128);
      var e := EncodeLittleEndian128(n);
      DigitSplit(n);
      EncodeLittleEndian128Facts(n / 128);
      LittleEndian128Cons(n % 128 + 128, rest);
      assert e == [n % 128 + 128] + rest;
      forall k | 0 <= k < |e| - 1
        ensures e[k] >= 128
      {
        if k > 0 { assert e[k] == rest[k - 1]; }
      }
    } else {
      assert LittleEndian128([n]) == LittleEndian128([]) + (n % 128) * Pow2(0);
    }
  }

  /** `read_var_int` at `pos`: the value and the position after it. */
  function VarInt(data: Bytes, pos: nat): Option<(nat, nat)>
  {
    match RunEnd(data, pos)
    case None => None
    case Some(e) => Some((LittleEndian128(data[pos..e]), e))
  }

  /** A varint written by the writer, wherever it sits, reads back. */
  lemma {:induction false} VarIntRoundTrip(before: Bytes, n: nat, after: Bytes)
    ensures VarInt(before + EncodeLittleEndian128(n) + after, |before|)
            == Some((n, |before| + |EncodeLittleEndian128(n)|))
  {
    EncodeLittleEndian128Facts(n);
    RunEndOfRun(before, EncodeLittleEndian128(n), after);
  }

  // ---------------------------------------------------------------------------
  // The object header: type in bits 4-6 of the first byte, size in its low
  // four bits and then seven bits per continuation byte at shifts 4, 11, 18, ...

  function SizeOf(bs: Bytes): nat
    requires |bs| >= 1
    decreases |bs|
  {
    if |bs| == 1 then bs[0] % 16
    else SizeOf(bs[..|bs| - 1]) + (bs[|bs| - 1] % 128) * Pow2(4 + 7 * (|bs| - 2))
  }

  lemma {:induction false} SizeOfSplit(bs: Bytes)
    requires |bs| >= 1
    ensures SizeOf(bs) == bs[0] % 16 + 16 * LittleEndian128(bs[1..])
    decreases |bs|
  {
    var m := |bs|;
    if m > 1 {
      SizeOfSplit(bs[..m - 1]);
      assert bs[..m - 1][1..] == bs[1..m - 1];
      assert bs[1..][..m - 2] == bs[1..m - 1];
      var x, y, p := LittleEndian128(bs[1..m - 1]), bs[m - 1] % 128, Pow2(7 * (m - 2));
      assert Pow2(4 + 7 * (m - 2)) == 16 * p by {
        Pow2Add(4, 7 * (m - 2));
        Pow2Small();
      }
      assert LittleEndian128(bs[1..]) == x + y * p;
      assert SizeOf(bs) == bs[0] % 16 + 16 * x + y * (16 * p);
      ScaledSum(bs[0] % 16, 16, x, y, p);
    } else {
      assert bs[1..] == [];
    }
  }

  /** `_read_type_and_size` at `pos`: type, size and the position after the header. */
  function EntryHeader(data: Bytes, pos: nat): (r: Option<(nat, nat, nat)>)
    ensures r.Some? ==> pos < r.value.2 <= |data| && r.value.0 < 8
  {
    match RunEnd(data, pos)
    case None => None
    case Some(e) => Some(((data[pos] / 16) % 8, SizeOf(data[pos..e]), e))
  }

  /** The writer's object header for type `t` and size `size`. */
  function EncodeEntryHeader(t: nat, size: nat): (r: Bytes)
    requires t < 8
    ensures |r| >= 1
  {
    if size < 16 then [t * 16 + size] else [128 + t * 16 + size % 16] + EncodeLittleEndian128(size / 16)
  }

  /** The first header byte carries the type in bits 4-6 and the low size
      bits in bits 0-3. */
  lemma FirstHeaderByte(first: int, t: nat, size: nat, more: nat)
    requires t < 8 && (more == 0 || more == 128) && (more == 0 ==> size < 16)
    requires first == more + t * 16 + size % 16
    ensures first % 16 == size % 16 && (first / 16) % 8 == t && (first >= 128 <==> more == 128)
            && size % 16 + 16 * (size / 16) == size
  {
  }

  /** The object header reads back the type and size it was written with,
      and the cursor lands just after it. */
  lemma {:induction false} EntryHeaderRoundTrip(t: nat, size: nat, rest: Bytes)
    requires t < 8
    ensures EntryHeader(EncodeEntryHeader(t, size) + rest, 0) == Some((t, size, |EncodeEntryHeader(t, size)|))
  {
    var h := EncodeEntryHeader(t, size);
    if size < 16 {
      assert h == [t * 16 + size];
      FirstHeaderByte(h[0], t, size, 0);
      assert ContinuationRun(h);
    } else {
      var e := EncodeLittleEndian128(size / 16);
      assert h == [128 + t * 16 + size % 16] + e;
      FirstHeaderByte(h[0], t, size, 128);
      EncodeLittleEndian128Facts(size / 16);
      assert h[1..] == e;
      forall k | 0 <= k < |h| - 1
        ensures h[k] >= 128
      {
        if k > 0 { assert h[k] == e[k - 1]; }
      }
      assert ContinuationRun(h);
      SizeOfSplit(h);
      var q := size / 16;
      assert LittleEndian128(h[1..]) == q;
      assert SizeOf(h) == size % 16 + 16 * q;
    }
    assert SizeOf(h) == size && (h[0] / 16) % 8 == t;
    var data := h + rest;
    RunEndOfRun([], h, rest);
    assert [] + h + rest == data;
    assert data[0] == h[0];
    var kind: nat, len: nat := (h[0] / 16) % 8, |h|;
    assert EntryHeader(data, 0) == Some((kind, SizeOf(h), len));
  }

  // ---------------------------------------------------------------------------
  // OFS_DELTA: the base's distance back, big-endian seven bits at a time with
  // one added per continuation byte, `rel = ((rel + 1) << 7) | (byte & 127)`.

  function OffsetOf(bs: Bytes): nat
    requires |bs| >= 1
    decreases |bs|
  {
    if |bs| == 1 then bs[0] % 128
    else (OffsetOf(bs[..|bs| - 1]) + 1) * 128 + bs[|bs| - 1] % 128
  }

  lemma {:induction false} OffsetOfStep(data: Bytes, start: nat, offset: nat)
    requires start < offset < |data|
    ensures OffsetOf(data[start..offset + 1]) == (OffsetOf(data[start..offset]) + 1) * 128 + data[offset] % 128
  {
    assert data[start..offset + 1][..offset - start] == data[start..offset];
  }

  function OfsDistance(data: Bytes, pos: nat): (r: Option<(nat, nat)>)
    ensures r.Some? ==> pos < r.value.1 <= |data|
  {
    match RunEnd(data, pos)
    case None => None
    case Some(e) => Some((OffsetOf(data[pos..e]), e))
  }

  /** The writer's offset encoding; `more` sets bit 7 on the last byte too. */
  function EncodeOffsetFrom(n: nat, more: bool): (r: Bytes)
    ensures |r| >= 1
    decreases n
  {
    var flag := if more then 128 else 0;
    if n < 128 then [n + flag] else EncodeOffsetFrom(n / 128 - 1, true) + [n % 128 + flag]
  }

  function EncodeOffset(n: nat): Bytes { EncodeOffsetFrom(n, false) }

  lemma {:induction false} EncodeOffsetFacts(n: nat, more: bool)
    ensures var e := EncodeOffsetFrom(n, more);
            && (forall k :: 0 <= k < |e| - 1 ==> e[k] >= 128) && (e[|e| - 1] >= 128 <==> more)
            && OffsetOf(e) == n
    decreases n
  {
    if n >= 128 {
      var e := EncodeOffsetFrom(n, more);
      var prefix := EncodeOffsetFrom(n / 128 - 1, true);
      EncodeOffsetFacts(n / 128 - 1, true);
      assert e[..|e| - 1] == prefix;
    }
  }

  /** An encoded distance reads back, and the cursor lands just after it. */
  lemma {:induction false} OfsDistanceRoundTrip(n: nat, rest: Bytes)
    ensures OfsDistance(EncodeOffset(n) + rest, 0) == Some((n, |EncodeOffset(n)|))
  {
    var e := EncodeOffset(n);
    var data := e + rest;
    EncodeOffsetFacts(n, false);
    RunEndFound(data, 0, |e|);
    assert data[0..|e|] == e;
  }

  // ---------------------------------------------------------------------------
  // Delta instructions.

  function Bit(op: nat, k: nat): bool { (op / Pow2(k)) % 2 == 1 }

  /** The little-endian operand whose bytes are flagged by bits `bit` up to
      `top - 1` of `op`, byte `bit` landing at shift `8 * (bit - first)`. */
  function Operand(delta: Bytes, pos: nat, op: nat, first: nat, bit: nat, top: nat, acc: nat): (r: Option<(nat, nat)>)
    requires first <= bit
    ensures r.Some? ==> pos <= r.value.1
    decreases top - bit
  {
    if bit >= top then Some((acc, pos))
    else if Bit(op, bit) then
      if pos >= |delta| then None
      else Operand(delta, pos + 1, op, first, bit + 1, top, acc + delta[pos] * Pow256(bit - first))
    else Operand(delta, pos, op, first, bit + 1, top, acc)
  }

  /** A copy instruction's offset (bits 0-3) and size (bits 4-6, 0 meaning
      0x10000), and the position after its operands. */
  function CopyArgs(delta: Bytes, pos: nat, op: nat): (r: Option<(nat, nat, nat)>)
    ensures r.Some? ==> pos <= r.value.2
  {
    match Operand(delta, pos, op, 0, 0, 4, 0)
    case None => None
    case Some((offset, p)) =>
      match Operand(delta, p, op, 4, 4, 7, 0)
      case None => None
      case Some((size, q)) => Some((offset, if size == 0 then 0x10000 else size, q))
  }

  /** The instruction at `pos`: the position after it and the bytes it
      emits. A copy takes `base[offset:offset + size]`, an insert takes the
      next `op` bytes of the delta (both clamped at the end, as Python slices
      are). */
  function Instruction(base: Bytes, delta: Bytes, pos: nat): (r: Result<(nat, Bytes)>)
    requires pos < |delta|
    ensures r.Ok? ==> r.value.0 > pos
    ensures delta[pos] == 0 ==> r == Err(ZeroOpcode)
    ensures 0 < delta[pos] < 128 ==> r.Ok? && r.value.0 == pos + 1 + delta[pos]
  {
    var op := delta[pos];
    if op >= 128 then
      match CopyArgs(delta, pos + 1, op)
      case None => Err(Truncated)
      case Some((offset, size, next)) => Ok((next, Slice(base, offset, offset + size)))
    else if op > 0 then Ok((pos + 1 + op, Slice(delta, pos + 1, pos + 1 + op)))
    else Err(ZeroOpcode)
  }

  /** Runs the instructions from `pos` on, appending to `out`. */
  function Execute(base: Bytes, delta: Bytes, pos: nat, out: Bytes): Result<Bytes>
    decreases |delta| - pos
  {
    if pos >= |delta| then Ok(out)
    else
      match Instruction(base, delta, pos)
      case Err(e) => Err(e)
      case Ok((next, emitted)) => Execute(base, delta, next, out + emitted)
  }

  /** `_apply_delta`: source size, result size, then the instructions. */
  function DeltaResult(base: Bytes, delta: Bytes): Result<Bytes>
  {
    match VarInt(delta, 0)
    case None => Err(Truncated)
    case Some((srcSize, p1)) =>
      match VarInt(delta, p1)
      case None => Err(Truncated)
      case Some((dstSize, p2)) =>
        if srcSize != |base| then Err(DeltaSourceMismatch)
        else match Execute(base, delta, p2, [])
          case Err(e) => Err(e)
          case Ok(out) => if |out| != dstSize then Err(DeltaResultMismatch) else Ok(out)
  }

  /** The two size headers of a delta. */
  function DeltaHeader(srcSize: nat, dstSize: nat): Bytes
  {
    EncodeLittleEndian128(srcSize) + EncodeLittleEndian128(dstSize)
  }

  lemma {:induction false} DeltaHeaderReads(srcSize: nat, dstSize: nat, instructions: Bytes)
    ensures var delta := DeltaHeader(srcSize, dstSize) + instructions;
            && VarInt(delta, 0) == Some((srcSize, |EncodeLittleEndian128(srcSize)|))
            && VarInt(delta, |EncodeLittleEndian128(srcSize)|) == Some((dstSize, |DeltaHeader(srcSize, dstSize)|))
  {
    var a, b := EncodeLittleEndian128(srcSize), EncodeLittleEndian128(dstSize);
    var delta := DeltaHeader(srcSize, dstSize) + instructions;
    assert delta == [] + a + (b + instructions);
    assert delta == a + b + instructions;
    VarIntRoundTrip([], srcSize, b + instructions);
    VarIntRoundTrip(a, dstSize, instructions);
  }

  /** A delta whose declared source size is not the base's length is refused,
      whatever its instructions. */
  lemma {:induction false} SourceSizeChecked(base: Bytes, srcSize: nat, dstSize: nat, instructions: Bytes)
    requires srcSize != |base|
    ensures DeltaResult(base, DeltaHeader(srcSize, dstSize) + instructions) == Err(DeltaSourceMismatch)
  {
    DeltaHeaderReads(srcSize, dstSize, instructions);
  }

  /** A successful delta produces exactly the declared number of bytes. */
  lemma {:induction false} ResultSizeChecked(base: Bytes, srcSize: nat, dstSize: nat, instructions: Bytes)
    requires DeltaResult(base, DeltaHeader(srcSize, dstSize) + instructions).Ok?
    ensures |DeltaResult(base, DeltaHeader(srcSize, dstSize) + instructions).value| == dstSize
  {
    DeltaHeaderReads(srcSize, dstSize, instructions);
  }

  /** Insert: opcode `n` in 1..127 emits the next `n` literal bytes. */
  lemma {:induction false} InsertEmitsLiteral(base: Bytes, literal: Bytes)
    requires 1 <= |literal| <= 127
    ensures DeltaResult(base, DeltaHeader(|base|, |literal|) + [|literal|] + literal) == Ok(literal)
  {
    var h := DeltaHeader(|base|, |literal|);
    var delta := h + [|literal|] + literal;
    DeltaHeaderReads(|base|, |literal|, [|literal|] + literal);
    assert h + ([|literal|] + literal) == delta;
    assert delta[|h|] == |literal| && |delta| == |h| + 1 + |literal|;
    assert delta[|h| + 1..] == literal;
    InsertRuns(base, delta, |h|);
  }

  /** An insert that ends the delta emits the rest of it. */
  lemma {:induction false} InsertRuns(base: Bytes, delta: Bytes, pos: nat)
    requires pos < |delta| && 0 < delta[pos] < 128 && pos + 1 + delta[pos] == |delta|
    ensures Execute(base, delta, pos, []) == Ok(delta[pos + 1..])
  {
    assert Instruction(base, delta, pos) == Ok((|delta|, delta[pos + 1..]));
    assert [] + delta[pos + 1..] == delta[pos + 1..];
  }

  /** Opcode 0 is refused. */
  lemma {:induction false} ZeroOpcodeRefused(base: Bytes, dstSize: nat, rest: Bytes)
    ensures DeltaResult(base, DeltaHeader(|base|, dstSize) + [0] + rest) == Err(ZeroOpcode)
  {
    var h := DeltaHeader(|base|, dstSize);
    DeltaHeaderReads(|base|, dstSize, [0] + rest);
    assert h + ([0] + rest) == h + [0] + rest;
  }

  /** Opcode 0xB0 flags no offset byte and the two low size bytes: offset 0
      and a little-endian size, 0 meaning 0x10000. */
  lemma {:induction false} CopyArgsLowSize(delta: Bytes, p: nat)
    requires p + 2 <= |delta|
    ensures var size: nat := delta[p] as int + delta[p + 1] as int * 256;
            var len: nat := if size == 0 then 0x10000 else size;
            var next: nat := p + 2;
            CopyArgs(delta, p, 0xB0) == Some((0, len, next))
  {
    assert Pow2(4) == 16 && Pow2(5) == 32 && Pow2(6) == 64;
    assert !Bit(0xB0, 0) && !Bit(0xB0, 1) && !Bit(0xB0, 2) && !Bit(0xB0, 3);
    assert Bit(0xB0, 4) && Bit(0xB0, 5) && !Bit(0xB0, 6);
    assert Operand(delta, p, 0xB0, 0, 0, 4, 0) == Some((0, p));
    var size: nat := delta[p] as int + delta[p + 1] as int * 256;
    var next: nat := p + 2;
    assert Operand(delta, p, 0xB0, 4, 4, 7, 0) == Some((size, next));
  }

  /** The instruction `0xB0, lo, hi` at the end of the delta copies the
      first `lo + 256 * hi` bytes of the base (0x10000 when that is 0). */
  lemma {:induction false} CopyLowSizeRuns(base: Bytes, delta: Bytes, pos: nat)
    requires pos + 3 == |delta| && delta[pos] == 0xB0
    requires delta[pos + 1] as int + delta[pos + 2] as int * 256 == |base|
    ensures Execute(base, delta, pos, []) == Ok(base)
  {
    CopyArgsLowSize(delta, pos + 1);
    var len: nat := if |base| == 0 then 0x10000 else |base|;
    var next: nat := pos + 3;
    assert Slice(base, 0, len) == base;
    assert Instruction(base, delta, pos) == Ok((next, base));
    assert [] + base == base;
  }

  /** Copy with a two-byte size and no offset bytes: offset 0, the size read
      little-endian; copying the whole base reproduces it. */
  lemma {:induction false} CopyWholeBase(base: Bytes)
    requires |base| < 0x10000
    ensures DeltaResult(base, DeltaHeader(|base|, |base|) + [0xB0, |base| % 256, |base| / 256]) == Ok(base)
  {
    var h := DeltaHeader(|base|, |base|);
    var ins: Bytes := [0xB0, |base| % 256, |base| / 256];
    var delta := h + ins;
    DeltaHeaderReads(|base|, |base|, ins);
    assert delta[|h|] == 0xB0 && delta[|h| + 1] == |base| % 256 && delta[|h| + 2] == |base| / 256;
    CopyLowSizeRuns(base, delta, |h|);
  }

  /** Copy with no size bytes copies 0x10000 bytes. */
  lemma {:induction false} EmptySizeMeansSixtyFourKiB(delta: Bytes, pos: nat)
    ensures CopyArgs(delta, pos, 0x80) == Some((0, 0x10000, pos))
  {
    Pow2Small();
    assert Pow2(5) == 32 && Pow2(6) == 64;
    assert !Bit(0x80, 0) && !Bit(0x80, 1) && !Bit(0x80, 2) && !Bit(0x80, 3);
    assert !Bit(0x80, 4) && !Bit(0x80, 5) && !Bit(0x80, 6);
    assert Operand(delta, pos, 0x80, 0, 0, 4, 0) == Some((0, pos));
    assert Operand(delta, pos, 0x80, 4, 4, 7, 0) == Some((0, pos));
  }

  // ---------------------------------------------------------------------------
  // Object identity.

  /** The bytes of an ASCII text. */
  function Ascii(s: string): (r: Bytes)
    requires forall k :: 0 <= k < |s| ==> s[k] < 128 as char
    ensures |r| == |s|
  {
    seq(|s|, k requires 0 <= k < |s| => s[k] as int)
  }

  /** The type name hashed into an id; anything but 1-4 (a delta) is hashed as a blob. */
  function TypeName(kind: nat): string
  {
    if kind == 1 then "commit" else if kind == 2 then "tree" else if kind == 4 then "tag" else "blob"
  }

  /** `_compute_sha1`: the SHA-1 hex of `"<type> <length>\0"` followed by the content. */
  function ObjectId(obj: PackObject, sha1hex: Bytes -> string): string
  {
    sha1hex(Ascii(TypeName(obj.kind) + " " + Decimal(|obj.content|)) + [0] + obj.content)
  }

  /** A deltified object is named with the blob type whatever its base's type:
      a delta that rebuilds a tree gets the id of a blob with the same bytes. */
  lemma DeltaNamedAsBlob(content: Bytes, sha1hex: Bytes -> string)
    ensures ObjectId(PackObject(6, content), sha1hex) == ObjectId(PackObject(3, content), sha1hex)
    ensures ObjectId(PackObject(7, content), sha1hex) == ObjectId(PackObject(3, content), sha1hex)
  { }

  /** Lower-case hex, as `bytes.hex()` writes it. */
  function Hex(bs: Bytes): (r: string)
    ensures |r| == 2 * |bs|
  {
    if bs == [] then []
    else
      var digits := "0123456789abcdef";
      [digits[bs[0] / 16], digits[bs[0] % 16]] + Hex(bs[1..])
  }

  // ---------------------------------------------------------------------------
  // The pack.

  const Signature: Bytes := [0x50, 0x41, 0x43, 0x4B]  // "PACK"

  /** The 12-byte header: signature, version 2, object count (big-endian u32s). */
  function PackHeader(data: Bytes): Result<nat>
  {
    if Slice(data, 0, 4) != Signature then Err(BadSignature)
    else if |data| < 8 then Err(ShortHeader)
    else if FromBigEndian(data[4..8]) != 2 then Err(BadVersion(FromBigEndian(data[4..8])))
    else if |data| < 12 then Err(ShortHeader)
    else Ok(FromBigEndian(data[8..12]))
  }

  /** The header is accepted exactly when it is `PACK`, version 2 and a
      complete count, and the count is read big-endian. */
  lemma {:induction false} PackHeaderAccepts(data: Bytes)
    ensures PackHeader(data).Ok? <==> |data| >= 12 && data[..4] == Signature && FromBigEndian(data[4..8]) == 2
    ensures PackHeader(data).Ok? ==> PackHeader(data).value == FromBigEndian(data[8..12])
  {
    if |data| >= 12 && data[..4] == Signature {
      assert Slice(data, 0, 4) == data[..4];
    }
  }

  /** A header written for `count` objects reads back `count`. */
  lemma {:induction false} PackHeaderRoundTrip(count: nat, rest: Bytes)
    requires count < Pow256(4)
    ensures PackHeader(Signature + BigEndian(2, 4) + BigEndian(count, 4) + rest) == Ok(count)
  {
    var data := Signature + BigEndian(2, 4) + BigEndian(count, 4) + rest;
    assert Pow256(4) == 4294967296 by {
      assert Pow256(1) == 256;
      assert Pow256(2) == 65536;
    }
    BigEndianRoundTrip(2, 4);
    BigEndianRoundTrip(count, 4);
    assert data[4..8] == BigEndian(2, 4);
    assert data[8..12] == BigEndian(count, 4);
    assert Slice(data, 0, 4) == Signature;
  }

  /** `_read_base_object` at `pos`: the inflated bytes, which must have the
      declared size, and the position after the stream. */
  function Inflated(data: Bytes, pos: nat, size: nat, inflate: Inflate): (r: Result<(Bytes, nat)>)
    ensures r.Ok? ==> |r.value.0| == size && pos <= r.value.1
  {
    match inflate(Slice(data, pos, |data|))
    case None => Err(InflateFailed)
    case Some((content, used)) => if |content| != size then Err(SizeMismatch) else Ok((content, pos + used))
  }

  /** The object types a pack may hold: commit, tree, blob, tag and the two
      delta types. */
  const KnownKinds: set<nat> := {1, 2, 3, 4, 6, 7}

  /** A delta stream inflated at `pos` and applied to `base`: the result
      and the position after the stream. */
  function Resolved(base: Bytes, data: Bytes, pos: nat, size: nat, inflate: Inflate): (r: Result<(Bytes, nat)>)
    ensures r.Ok? ==> pos <= r.value.1
  {
    match Inflated(data, pos, size, inflate)
    case Err(e) => Err(e)
    case Ok((delta, q)) =>
      match DeltaResult(base, delta)
      case Err(e) => Err(e)
      case Ok(content) => Ok((content, q))
  }

  /** `_read_ofs_delta` for the entry at `entryPos`, its distance at `pos`:
      the base is the entry that many bytes earlier. */
  function OfsEntry(data: Bytes, entryPos: nat, pos: nat, size: nat, offsets: map<nat, PackObject>,
                    inflate: Inflate): (r: Result<(Bytes, nat)>)
    ensures r.Ok? ==> pos < r.value.1
    ensures OfsDistance(data, pos) == None ==> r == Err(Truncated)
    ensures OfsDistance(data, pos).Some? && OfsDistance(data, pos).value.0 > entryPos ==> r == Err(MissingBase)
  {
    match OfsDistance(data, pos)
    case None => Err(Truncated)
    case Some((rel, p)) =>
      if rel > entryPos || entryPos - rel !in offsets then Err(MissingBase)
      else Resolved(offsets[entryPos - rel].content, data, p, size, inflate)
  }

  /** `_read_ref_delta` with the base's 20-byte id at `pos`. */
  function RefEntry(data: Bytes, pos: nat, size: nat, objects: map<string, PackObject>,
                    inflate: Inflate): (r: Result<(Bytes, nat)>)
    ensures Hex(Slice(data, pos, pos + 20)) !in objects ==> r == Err(MissingBase)
    ensures r.Ok? ==> pos + 20 <= r.value.1
  {
    var baseId := Hex(Slice(data, pos, pos + 20));
    if baseId !in objects then Err(MissingBase)
    else Resolved(objects[baseId].content, data, pos + 20, size, inflate)
  }

  /** One object entry at `pos`: the decoded object, whose type is a base
      type (1-4) or a delta type (6, 7), and the position after it, past at
      least the header byte. */
  function EntryAt(data: Bytes, pos: nat, objects: map<string, PackObject>, offsets: map<nat, PackObject>,
                   inflate: Inflate): (r: Result<(PackObject, nat)>)
    ensures r.Ok? ==> r.value.1 > pos && r.value.0.kind in KnownKinds
  {
    match EntryHeader(data, pos)
    case None => Err(Truncated)
    case Some((kind, size, p)) =>
      var body :=
        if 1 <= kind <= 4 then Inflated(data, p, size, inflate)
        else if kind == 6 then OfsEntry(data, pos, p, size, offsets, inflate)
        else if kind == 7 then RefEntry(data, p, size, objects, inflate)
        else Err(UnknownType(kind));
      match body
      case Err(e) => Err(e)
      case Ok((content, q)) => Ok((PackObject(kind, content), q))
  }

  /** The decoder's tables after an entry: by id and by entry offset. */
  datatype Tables = Tables(objects: map<string, PackObject>, offsets: map<nat, PackObject>, end: nat)

  /** `count` more entries from `pos` on. Each adds one key to the offset
      table, and every decoded object has a known type. */
  function EntriesFrom(data: Bytes, pos: nat, count: nat, objects: map<string, PackObject>,
                       offsets: map<nat, PackObject>, inflate: Inflate, sha1hex: Bytes -> string): (r: Result<Tables>)
    ensures r.Ok? && (forall k :: k in offsets ==> k < pos) ==> |r.value.offsets.Keys| == |offsets.Keys| + count
    ensures r.Ok? && (forall id :: id in objects ==> objects[id].kind in KnownKinds) ==>
              forall id :: id in r.value.objects ==> r.value.objects[id].kind in KnownKinds
    decreases count
  {
    if count == 0 then Ok(Tables(objects, offsets, pos))
    else match EntryAt(data, pos, objects, offsets, inflate)
      case Err(e) => Err(e)
      case Ok((obj, next)) =>
        EntriesFrom(data, next, count - 1, objects[ObjectId(obj, sha1hex) := obj], offsets[pos := obj], inflate, sha1hex)
  }

  /** One entry of `EntriesFrom`: its error, or the tables it extends. */
  lemma EntriesStep(data: Bytes, pos: nat, count: nat, objects: map<string, PackObject>,
                    offsets: map<nat, PackObject>, inflate: Inflate, sha1hex: Bytes -> string)
    requires count > 0
    ensures var entry := EntryAt(data, pos, objects, offsets, inflate);
            && (entry.Err? ==> EntriesFrom(data, pos, count, objects, offsets, inflate, sha1hex) == Err(entry.error))
            && (entry.Ok? ==>
                  EntriesFrom(data, pos, count, objects, offsets, inflate, sha1hex)
                  == EntriesFrom(data, entry.value.1, count - 1, objects[ObjectId(entry.value.0, sha1hex) := entry.value.0],
                                 offsets[pos := entry.value.0], inflate, sha1hex))
  {
  }

  /** `parse`: the header, then as many entries as it announces; the
      trailing checksum is not compared. */
  function ParsePack(data: Bytes, inflate: Inflate, sha1hex: Bytes -> string): (r: Result<Tables>)
    ensures r.Ok? ==> PackHeader(data).Ok? && |r.value.offsets.Keys| == PackHeader(data).value
    ensures r.Ok? ==> forall id :: id in r.value.objects ==> r.value.objects[id].kind in KnownKinds
  {
    match PackHeader(data)
    case Err(e) => Err(e)
    case Ok(count) => EntriesFrom(data, 12, count, map[], map[], inflate, sha1hex)
  }

  // ---------------------------------------------------------------------------
  // The cursor-driven parser.

  /** `read_var_int` inside `_apply_delta`. */
  method ReadVarInt(delta: Bytes, pos: nat) returns (ok: bool, value: nat, next: nat)
    ensures ok <==> VarInt(delta, pos).Some?
    ensures ok ==> VarInt(delta, pos) == Some((value, next))
  {
    if pos >= |delta| {
      return false, 0, 0;
    }
    var result := 0;
    var p := pos;
    var shift := 0;
    while true
      invariant pos <= p <= |delta|
      invariant forall k :: pos <= k < p ==> delta[k] >= 128
      invariant result == LittleEndian128(delta[pos..p]) && shift == 7 * (p - pos)
      decreases |delta| - p
    {
      if p >= |delta| {
        RunEndMissing(delta, pos);
        return false, 0, 0;
      }
      var b := delta[p];
      assert delta[pos..p + 1][..p - pos] == delta[pos..p];
      result := result + (b % 128) * Pow2(shift);
      p := p + 1;
      if b < 128 {
        RunEndFound(delta, pos, p);
        return true, result, p;
      }
      shift := shift + 7;
    }
  }

  /** One pass of the instruction loop of `_apply_delta`: the instruction at
      `pos` appended to `result`, or the exception it raises. */
  method RunInstruction(base: Bytes, delta: Bytes, pos: nat, result: Bytes)
    returns (failure: Option<PackError>, next: nat, out: Bytes)
    requires pos < |delta|
    ensures failure.Some? <==> Instruction(base, delta, pos).Err?
    ensures failure.Some? ==> Instruction(base, delta, pos) == Err(failure.value)
    ensures failure == None ==> Instruction(base, delta, pos).Ok?
                                && next == Instruction(base, delta, pos).value.0
                                && out == result + Instruction(base, delta, pos).value.1
  {
    var opcode := delta[pos];
    next := pos + 1;
    out := result;
    failure := None;
    if opcode >= 128 {
      var args := CopyArgs(delta, next, opcode);
      if args == None {
        return Some(Truncated), next, out;
      }
      var (offset, size, after) := args.value;
      var emitted := Slice(base, offset, offset + size);
      out := result + emitted;
      next := after;
    } else if opcode > 0 {
      var emitted := Slice(delta, next, next + opcode);
      out := result + emitted;
      next := next + opcode;
    } else {
      failure := Some(ZeroOpcode);
    }
  }

  /** `_apply_delta`. */
  method ApplyDelta(base: Bytes, delta: Bytes) returns (r: Result<Bytes>)
    ensures r == DeltaResult(base, delta)
  {
    var ok1, srcSize, p1 := ReadVarInt(delta, 0);
    if !ok1 { return Err(Truncated); }
    var ok2, dstSize, pos := ReadVarInt(delta, p1);
    if !ok2 { return Err(Truncated); }
    if srcSize != |base| {
      return Err(DeltaSourceMismatch);
    }
    var result: Bytes := [];
    ghost var start := pos;
    assert DeltaResult(base, delta) == match Execute(base, delta, start, [])
                                       case Err(e) => Err(e)
                                       case Ok(out) => if |out| != dstSize then Err(DeltaResultMismatch) else Ok(out);
    while pos < |delta|
      invariant Execute(base, delta, pos, result) == Execute(base, delta, start, [])
      decreases |delta| - pos
    {
      var failure;
      failure, pos, result := RunInstruction(base, delta, pos, result);
      if failure.Some? {
        return Err(failure.value);
      }
    }
    if |result| != dstSize {
      return Err(DeltaResultMismatch);
    }
    r := Ok(result);
  }

  class GitPackParser {
    const data: Bytes
    var offset: nat
    /** Decoded objects by id. */
    var objects: map<string, PackObject>
    /** Decoded objects by the offset of their entry. */
    var offsets: map<nat, PackObject>

    constructor (packData: Bytes)
      ensures data == packData && offset == 0 && objects == map[] && offsets == map[]
    {
      data := packData;
      offset := 0;
      objects := map[];
      offsets := map[];
    }

    /** `_read_type_and_size`. */
    method ReadTypeAndSize() returns (ok: bool, objType: nat, size: nat)
      modifies this`offset
      ensures ok <==> EntryHeader(data, old(offset)).Some?
      ensures ok ==> EntryHeader(data, old(offset)) == Some((objType, size, offset))
    {
      var start := offset;
      if offset >= |data| {
        return false, 0, 0;
      }
      var b := data[offset];
      offset := offset + 1;
      objType := (b / 16) % 8;
      size := b % 16;
      var shift := 4;
      assert data[start..offset] == [b];
      while b >= 128
        invariant start < offset <= |data| && b == data[offset - 1]
        invariant forall k :: start <= k < offset - 1 ==> data[k] >= 128
        invariant size == SizeOf(data[start..offset]) && shift == 4 + 7 * (offset - start - 1)
        decreases |data| - offset
      {
        if offset >= |data| {
          RunEndMissing(data, start);
          return false, 0, 0;
        }
        b := data[offset];
        assert data[start..offset + 1][..offset - start] == data[start..offset];
        offset := offset + 1;
        size := size + (b % 128) * Pow2(shift);
        shift := shift + 7;
      }
      RunEndFound(data, start, offset);
      ok := true;
    }

    /** `_read_base_object`. */
    method ReadBaseObject(size: nat, inflate: Inflate) returns (r: Result<Bytes>)
      requires Consumes(inflate)
      modifies this`offset
      ensures var spec := Inflated(data, old(offset), size, inflate);
              && (spec.Err? ==> r == Err(spec.error))
              && (spec.Ok? ==> r == Ok(spec.value.0) && offset == spec.value.1)
    {
      var rest := Slice(data, offset, |data|);
      var inflated := inflate(rest);
      if inflated == None {
        return Err(InflateFailed);
      }
      var (content, used) := inflated.value;
      offset := offset + used;
      if |content| != size {
        return Err(SizeMismatch);
      }
      r := Ok(content);
    }

    /** The distance loop of `_read_ofs_delta`. */
    method ReadDistance() returns (ok: bool, rel: nat)
      modifies this`offset
      ensures ok <==> OfsDistance(data, old(offset)).Some?
      ensures ok ==> OfsDistance(data, old(offset)) == Some((rel, offset))
    {
      var start := offset;
      if offset >= |data| {
        return false, 0;
      }
      var b := data[offset];
      offset := offset + 1;
      rel := b % 128;
      assert data[start..offset] == [b];
      while b >= 128
        invariant start < offset <= |data| && b == data[offset - 1]
        invariant forall k :: start <= k < offset - 1 ==> data[k] >= 128
        invariant rel == OffsetOf(data[start..offset])
        decreases |data| - offset
      {
        if offset >= |data| {
          RunEndMissing(data, start);
          return false, 0;
        }
        b := data[offset];
        OffsetOfStep(data, start, offset);
        offset := offset + 1;
        rel := (rel + 1) * 128 + b % 128;
      }
      RunEndFound(data, start, offset);
      ok := true;
    }

    /** `_read_ofs_delta`, the entry starting at `objOffset`. */
    method ReadOfsDelta(size: nat, objOffset: nat, inflate: Inflate) returns (r: Result<Bytes>)
      requires Consumes(inflate)
      modifies this`offset
      ensures var spec := OfsEntry(data, objOffset, old(offset), size, offsets, inflate);
              && (spec.Err? ==> r == Err(spec.error))
              && (spec.Ok? ==> r == Ok(spec.value.0) && offset == spec.value.1)
    {
      var ok, rel := ReadDistance();
      if !ok {
        return Err(Truncated);
      }
      if rel > objOffset || objOffset - rel !in offsets {
        return Err(MissingBase);
      }
      var baseContent := offsets[objOffset - rel].content;
      var delta := ReadBaseObject(size, inflate);
      if delta.Err? {
        return Err(delta.error);
      }
      r := ApplyDelta(baseContent, delta.value);
    }

    /** `_read_ref_delta`. */
    method ReadRefDelta(size: nat, inflate: Inflate) returns (r: Result<Bytes>)
      requires Consumes(inflate)
      modifies this`offset
      ensures var spec := RefEntry(data, old(offset), size, objects, inflate);
              && (spec.Err? ==> r == Err(spec.error))
              && (spec.Ok? ==> r == Ok(spec.value.0) && offset == spec.value.1)
    {
      var baseId := Hex(Slice(data, offset, offset + 20));
      offset := offset + 20;
      if baseId !in objects {
        return Err(MissingBase);
      }
      var baseContent := objects[baseId].content;
      var delta := ReadBaseObject(size, inflate);
      if delta.Err? {
        return Err(delta.error);
      }
      r := ApplyDelta(baseContent, delta.value);
    }

    /** One object entry of `parse`: decode it and record it by id and by offset. */
    method ParseEntry(inflate: Inflate, sha1hex: Bytes -> string) returns (r: Result<PackObject>)
      requires Consumes(inflate)
      modifies this
      ensures var spec := EntryAt(data, old(offset), old(objects), old(offsets), inflate);
              && (spec.Err? ==> r == Err(spec.error))
              && (spec.Ok? ==>
                    && r == Ok(spec.value.0) && offset == spec.value.1
                    && objects == old(objects)[ObjectId(spec.value.0, sha1hex) := spec.value.0]
                    && offsets == old(offsets)[old(offset) := spec.value.0])
    {
      var objOffset := offset;
      var ok, objType, size := ReadTypeAndSize();
      if !ok {
        return Err(Truncated);
      }
      var content;
      if 1 <= objType <= 4 {
        content := ReadBaseObject(size, inflate);
      } else if objType == 6 {
        content := ReadOfsDelta(size, objOffset, inflate);
      } else if objType == 7 {
        content := ReadRefDelta(size, inflate);
      } else {
        return Err(UnknownType(objType));
      }
      if content.Err? {
        return Err(content.error);
      }
      var obj := PackObject(objType, content.value);
      objects := objects[ObjectId(obj, sha1hex) := obj];
      offsets := offsets[objOffset := obj];
      r := Ok(obj);
    }

    /** `parse`: the decoded objects by id, exactly as the specification
        decodes them. */
    method Parse(inflate: Inflate, sha1hex: Bytes -> string) returns (r: Result<map<string, PackObject>>)
      requires Consumes(inflate)
      requires offset == 0 && objects == map[] && offsets == map[]
      modifies this
      ensures var spec := ParsePack(data, inflate, sha1hex);
              && (spec.Err? ==> r == Err(spec.error))
              && (spec.Ok? ==>
                    && r == Ok(spec.value.objects) && objects == spec.value.objects
                    && offsets == spec.value.offsets && offset == spec.value.end)
    {
      if Slice(data, offset, offset + 4) != Signature {
        return Err(BadSignature);
      }
      offset := offset + 4;
      if |data| < offset + 4 {
        return Err(ShortHeader);
      }
      var version := FromBigEndian(data[offset..offset + 4]);
      if version != 2 {
        return Err(BadVersion(version));
      }
      offset := offset + 4;
      if |data| < offset + 4 {
        return Err(ShortHeader);
      }
      var numObjects := FromBigEndian(data[offset..offset + 4]);
      offset := offset + 4;
      assert PackHeader(data) == Ok(numObjects);
      ghost var spec := ParsePack(data, inflate, sha1hex);
      assert spec == EntriesFrom(data, offset, numObjects, objects, offsets, inflate, sha1hex);
      var i := 0;
      while i < numObjects
        invariant 0 <= i <= numObjects
        invariant EntriesFrom(data, offset, numObjects - i, objects, offsets, inflate, sha1hex) == spec
        decreases numObjects - i
      {
        EntriesStep(data, offset, numObjects - i, objects, offsets, inflate, sha1hex);
        var entry := ParseEntry(inflate, sha1hex);
        if entry.Err? {
          return Err(entry.error);
        }
        i := i + 1;
      }
      r := Ok(objects);
    }
  }
}
