/** The reconstruction endpoint: the description a client follows to
    reassemble a file from ranged downloads. A file with a recorded block
    layout is described block by block; any other file is described as
    windows of at most 64 MiB over the single stored object. */
module Reconstruction {
  import opened Common
  import opened Storage
  import opened XetUtils

  const MiB := 1024 * 1024
  /** The largest window of the fallback description (below the client's u32 limit). */
  const ChunkSizeBytes := 64 * MiB

  /** A half-open range of term indices, `{"start": i, "end": i + 1}`. */
  datatype IndexRange = IndexRange(start: nat, end: nat)

  /** One term: the bytes of one piece of the file, in order. */
  datatype Term = Term(hash: string, unpackedLength: nat, range: IndexRange)

  /** How to download a term: a URL and, in the fallback, the inclusive byte
      range the client must request from it. */
  datatype FetchEntry = FetchEntry(range: IndexRange, url: Url, urlRange: Option<Range>)

  /** The response: terms in file order and the download descriptors keyed by hash. */
  datatype Reconstruction = Reconstruction(offsetIntoFirstRange: nat, terms: seq<Term>,
                                           fetchInfo: map<string, seq<FetchEntry>>)

  /** What the client downloads for one descriptor: the URL, restricted to
      `url_range` when one is given. */
  function Download(objects: map<string, Bytes>, e: FetchEntry): Option<Bytes>
  {
    match e.urlRange
    case None => Fetch(objects, e.url)
    case Some(rg) => Fetch(objects, Presigned(e.url.key, Some(rg)))
  }

  // ---------------------------------------------------------------------------
  // `fetch_info`: a dictionary filled in term order, later entries overwriting.

  /** The dictionary after assigning `fetch_info[keys[i]] = [entries[i]]` for
      every `i` in order. */
  function FetchIndex(keys: seq<string>, entries: seq<FetchEntry>): map<string, seq<FetchEntry>>
    requires |keys| == |entries|
    decreases |keys|
  {
    if keys == [] then map[]
    else FetchIndex(keys[..|keys| - 1], entries[..|keys| - 1])[keys[|keys| - 1] := [entries[|keys| - 1]]]
  }

  /** The position of the last occurrence of `k`. */
  function LastIndex(keys: seq<string>, k: string): (r: nat)
    requires k in keys
    ensures r < |keys| && keys[r] == k
    ensures forall l :: r < l < |keys| ==> keys[l] != k
    decreases |keys|
  {
    if keys[|keys| - 1] == k then |keys| - 1
    else
      assert k in keys[..|keys| - 1] by {
        var i :| 0 <= i < |keys| && keys[i] == k;
        assert keys[..|keys| - 1][i] == k;
      }
      LastIndex(keys[..|keys| - 1], k)
  }

  /** Keyed by hash, later wins: the dictionary holds exactly the hashes of
      the terms, and a hash that occurs several times keeps the descriptor of
      its last occurrence. */
  lemma {:induction false} FetchIndexLastWins(keys: seq<string>, entries: seq<FetchEntry>)
    requires |keys| == |entries|
    ensures forall k :: k in FetchIndex(keys, entries) <==> k in keys
    ensures forall k :: k in keys ==> FetchIndex(keys, entries)[k] == [entries[LastIndex(keys, k)]]
    decreases |keys|
  {
    if keys != [] {
      var n := |keys| - 1;
      FetchIndexLastWins(keys[..n], entries[..n]);
      forall k
        ensures k in FetchIndex(keys, entries) <==> k in keys
      {
        if k in keys && k != keys[n] {
          var i :| 0 <= i < |keys| && keys[i] == k;
          assert keys[..n][i] == k;
        }
        if k in keys[..n] {
          var i :| 0 <= i < n && keys[..n][i] == k;
          assert keys[i] == k;
        }
      }
      forall k | k in keys
        ensures FetchIndex(keys, entries)[k] == [entries[LastIndex(keys, k)]]
      {
        if k != keys[n] {
          var i :| 0 <= i < |keys| && keys[i] == k;
          assert keys[..n][i] == k;
        }
      }
    }
  }

  /** A dictionary built from pairwise distinct hashes keeps every descriptor. */
  lemma {:induction false} DistinctKeysKeepEveryEntry(keys: seq<string>, entries: seq<FetchEntry>)
    requires |keys| == |entries| && Distinct(keys)
    ensures forall i :: 0 <= i < |keys| ==> keys[i] in FetchIndex(keys, entries) && FetchIndex(keys, entries)[keys[i]] == [entries[i]]
  {
    FetchIndexLastWins(keys, entries);
    forall i | 0 <= i < |keys|
      ensures keys[i] in FetchIndex(keys, entries) && FetchIndex(keys, entries)[keys[i]] == [entries[i]]
    {
      assert keys[i] in keys;
      var j := LastIndex(keys, keys[i]);
      assert j == i;
    }
  }

  /** One loop step of either builder: assigning the next term's entry. */
  lemma {:induction false} FetchIndexStep(keys: seq<string>, entries: seq<FetchEntry>, i: nat)
    requires |keys| == |entries| && i < |keys|
    ensures FetchIndex(keys[..i + 1], entries[..i + 1]) == FetchIndex(keys[..i], entries[..i])[keys[i] := [entries[i]]]
  {
    assert keys[..i + 1][..i] == keys[..i];
    assert entries[..i + 1][..i] == entries[..i];
  }

  // ---------------------------------------------------------------------------
  // The fallback: windows of at most 64 MiB over the whole object.

  /** `ceil(size / 64 MiB)` windows, and a single empty one for an empty file. */
  function NumChunks(size: nat): (n: nat)
    ensures n >= 1
  {
    if size == 0 then 1 else (size + ChunkSizeBytes - 1) / ChunkSizeBytes
  }

  function ChunkStart(i: nat): nat { i * ChunkSizeBytes }

  function ChunkEnd(size: nat, i: nat): nat
  {
    if ChunkStart(i) + ChunkSizeBytes <= size then ChunkStart(i) + ChunkSizeBytes else size
  }

  /** `chunk_end - chunk_start`. */
  function ChunkLength(size: nat, i: nat): nat
  {
    if ChunkStart(i) <= ChunkEnd(size, i) then ChunkEnd(size, i) - ChunkStart(i) else 0
  }

  /** The window count brackets the size: all but the last window lie below it. */
  lemma {:induction false} ChunkCount(size: nat)
    requires size > 0
    ensures (NumChunks(size) - 1) * ChunkSizeBytes < size <= NumChunks(size) * ChunkSizeBytes
  {
    var q := (size + ChunkSizeBytes - 1) / ChunkSizeBytes;
    var r := (size + ChunkSizeBytes - 1) % ChunkSizeBytes;
    assert size + ChunkSizeBytes - 1 == q * ChunkSizeBytes + r;
    assert (q - 1) * ChunkSizeBytes == q * ChunkSizeBytes - ChunkSizeBytes;
  }

  /** The fallback windows: an empty file gives the single window (0, 0);
      otherwise the windows start at 0, each starts where the previous one
      ends, each holds between 1 byte and 64 MiB, all but the last hold
      exactly 64 MiB, and the last ends at the file size. */
  lemma {:induction false} FallbackWindowsShape(size: nat)
    ensures size == 0 ==> NumChunks(size) == 1 && ChunkStart(0) == 0 && ChunkEnd(size, 0) == 0
    ensures forall i :: 0 <= i < NumChunks(size) ==> ChunkStart(i) <= ChunkEnd(size, i) && ChunkLength(size, i) <= ChunkSizeBytes
    ensures size > 0 ==> forall i :: 0 <= i < NumChunks(size) ==> 0 < ChunkLength(size, i)
    ensures forall i :: 0 <= i < NumChunks(size) - 1 ==> ChunkLength(size, i) == ChunkSizeBytes
    ensures forall i :: 0 <= i < NumChunks(size) - 1 ==> ChunkEnd(size, i) == ChunkStart(i + 1)
    ensures ChunkStart(0) == 0 && ChunkEnd(size, NumChunks(size) - 1) == size
  {
    if size > 0 {
      var n := NumChunks(size);
      ChunkCount(size);
      forall i | 0 <= i < n
        ensures ChunkStart(i) < ChunkEnd(size, i) <= ChunkStart(i) + ChunkSizeBytes
      {
        assert i * ChunkSizeBytes <= (n - 1) * ChunkSizeBytes;
      }
      forall i | 0 <= i < n - 1
        ensures ChunkLength(size, i) == ChunkSizeBytes
      {
        assert (i + 1) * ChunkSizeBytes <= (n - 1) * ChunkSizeBytes;
      }
      assert ChunkEnd(size, n - 1) == size by {
        assert ChunkStart(n - 1) + ChunkSizeBytes == n * ChunkSizeBytes;
      }
    }
  }

  /** The window lengths, i.e. the terms' `unpacked_length`s, add up to the file size. */
  lemma {:induction false} FallbackLengthsSum(size: nat)
    ensures Sum(seq(NumChunks(size), i requires 0 <= i => ChunkLength(size, i))) == size
  {
    var n := NumChunks(size);
    var k := 0;
    var lens: seq<nat> := [];
    while k < n
      invariant 0 <= k <= n
      invariant lens == seq(k, i requires 0 <= i => ChunkLength(size, i))
      invariant Sum(lens) == if k == 0 then 0 else ChunkEnd(size, k - 1)
    {
      WindowBounds(size, k);
      SumAppend(lens, ChunkLength(size, k));
      lens := lens + [ChunkLength(size, k)];
      k := k + 1;
    }
    LastWindowEnd(size);
  }

  /** A 150 MiB file gives three windows of 64, 64 and 22 MiB. */
  lemma OneHundredFiftyMiB()
    ensures NumChunks(150 * MiB) == 3
    ensures ChunkLength(150 * MiB, 0) == 64 * MiB && ChunkLength(150 * MiB, 1) == 64 * MiB
    ensures ChunkLength(150 * MiB, 2) == 22 * MiB
  { }

  /** The text whose digest names window `i` of a multi-window file. */
  function ChunkLabel(fileId: string, i: nat): string
  {
    fileId + "-chunk" + Decimal(i)
  }

  lemma {:induction false} ChunkLabelInjective(fileId: string, i: nat, j: nat)
    requires ChunkLabel(fileId, i) == ChunkLabel(fileId, j)
    ensures i == j
  {
    var p := |fileId + "-chunk"|;
    assert Decimal(i) == ChunkLabel(fileId, i)[p..];
    assert Decimal(j) == ChunkLabel(fileId, j)[p..];
    DecimalInjective(i, j);
  }

  /** The term hash of window `i`: the file id itself when there is one
      window, otherwise the digest of the window's label. `sha256Text` gives
      the hex digest of the UTF-8 encoding of a text. */
  function ChunkHash(fileId: string, size: nat, i: nat, sha256Text: string -> string): string
  {
    if NumChunks(size) == 1 then fileId else sha256Text(ChunkLabel(fileId, i))
  }

  /** The inclusive byte range of window `i`, `{0, 0}` for an empty window. */
  function UrlRange(size: nat, i: nat): Range
  {
    Range(ChunkStart(i), if ChunkLength(size, i) > 0 then ChunkEnd(size, i) - 1 else 0)
  }

  function FallbackHashes(fileId: string, size: nat, sha256Text: string -> string): seq<string>
  {
    seq(NumChunks(size), i requires 0 <= i => ChunkHash(fileId, size, i, sha256Text))
  }

  function FallbackEntries(size: nat, url: Url): seq<FetchEntry>
  {
    seq(NumChunks(size), i requires 0 <= i => FetchEntry(IndexRange(i, i + 1), url, Some(UrlRange(size, i))))
  }

  /** `_generate_chunked_reconstruction`: term `i` describes window `i` and
      its descriptor asks for that window's inclusive byte range of `url`. */
  method ChunkedReconstruction(fileId: string, fileSize: nat, url: Url, sha256Text: string -> string)
    returns (r: Reconstruction)
    ensures r.offsetIntoFirstRange == 0
    ensures |r.terms| == NumChunks(fileSize)
    ensures forall i :: 0 <= i < |r.terms| ==>
              r.terms[i] == Term(ChunkHash(fileId, fileSize, i, sha256Text), ChunkLength(fileSize, i), IndexRange(i, i + 1))
    ensures r.fetchInfo == FetchIndex(FallbackHashes(fileId, fileSize, sha256Text), FallbackEntries(fileSize, url))
  {
    var n := NumChunks(fileSize);
    ghost var keys := FallbackHashes(fileId, fileSize, sha256Text);
    ghost var entries := FallbackEntries(fileSize, url);
    var terms: seq<Term> := [];
    var fetchInfo: map<string, seq<FetchEntry>> := map[];
    var i := 0;
    while i < n
      invariant 0 <= i <= n
      invariant |terms| == i
      invariant forall k :: 0 <= k < i ==>
                  terms[k] == Term(ChunkHash(fileId, fileSize, k, sha256Text), ChunkLength(fileSize, k), IndexRange(k, k + 1))
      invariant fetchInfo == FetchIndex(keys[..i], entries[..i])
    {
      var term, entry := ChunkTerm(fileId, fileSize, n, i, url, sha256Text);
      assert term.hash == keys[i] && entry == entries[i];
      terms := terms + [term];
      FetchIndexStep(keys, entries, i);
      fetchInfo := fetchInfo[term.hash := [entry]];
      i := i + 1;
    }
    assert keys[..n] == keys && entries[..n] == entries;
    r := Reconstruction(0, terms, fetchInfo);
  }

  /** The body of the window loop: the term of window `i` and its descriptor. */
  method ChunkTerm(fileId: string, fileSize: nat, n: nat, i: nat, url: Url, sha256Text: string -> string)
    returns (term: Term, entry: FetchEntry)
    requires n == NumChunks(fileSize)
    ensures term == Term(ChunkHash(fileId, fileSize, i, sha256Text), ChunkLength(fileSize, i), IndexRange(i, i + 1))
    ensures entry == FetchEntry(IndexRange(i, i + 1), url, Some(UrlRange(fileSize, i)))
  {
    var start := i * ChunkSizeBytes;
    var end := if start + ChunkSizeBytes <= fileSize then start + ChunkSizeBytes else fileSize;
    var chunkSize := if start <= end then end - start else 0;
    var chunkHash := if n == 1 then fileId else sha256Text(fileId + "-chunk" + Decimal(i));
    term := Term(chunkHash, chunkSize, IndexRange(i, i + 1));
    entry := FetchEntry(IndexRange(i, i + 1), url, Some(Range(start, if chunkSize > 0 then end - 1 else 0)));
  }

  /** Under a collision-free digest the window hashes are pairwise distinct,
      so the fallback's `fetch_info` keeps a descriptor for every window. */
  lemma {:induction false} FallbackKeepsEveryWindow(fileId: string, size: nat, url: Url, sha256Text: string -> string)
    requires forall a, b :: sha256Text(a) == sha256Text(b) ==> a == b
    ensures Distinct(FallbackHashes(fileId, size, sha256Text))
    ensures var m := FetchIndex(FallbackHashes(fileId, size, sha256Text), FallbackEntries(size, url));
            forall i :: 0 <= i < NumChunks(size) ==>
              && ChunkHash(fileId, size, i, sha256Text) in m
              && m[ChunkHash(fileId, size, i, sha256Text)] == [FetchEntry(IndexRange(i, i + 1), url, Some(UrlRange(size, i)))]
  {
    var keys := FallbackHashes(fileId, size, sha256Text);
    forall i, j | 0 <= i < j < |keys|
      ensures keys[i] != keys[j]
    {
      if keys[i] == keys[j] {
        assert sha256Text(ChunkLabel(fileId, i)) == sha256Text(ChunkLabel(fileId, j));
        ChunkLabelInjective(fileId, i, j);
      }
    }
    var entries := FallbackEntries(size, url);
    DistinctKeysKeepEveryEntry(keys, entries);
    forall i | 0 <= i < NumChunks(size)
      ensures keys[i] == ChunkHash(fileId, size, i, sha256Text)
      ensures entries[i] == FetchEntry(IndexRange(i, i + 1), url, Some(UrlRange(size, i)))
    { }
  }

  /** The bytes of window `i` of `content`. */
  function Window(content: Bytes, i: nat): Bytes
  {
    Slice(content, ChunkStart(i), ChunkEnd(|content|, i))
  }

  /** The first `k` windows. */
  function Windows(content: Bytes, k: nat): seq<Bytes>
  {
    if k == 0 then [] else Windows(content, k - 1) + [Window(content, k - 1)]
  }

  lemma {:induction false} WindowsPrefix(content: Bytes, k: nat)
    requires |content| > 0 && 1 <= k <= NumChunks(|content|)
    ensures Flatten(Windows(content, k)) == content[..ChunkEnd(|content|, k - 1)]
  {
    WindowBounds(|content|, k - 1);
    var e := ChunkEnd(|content|, k - 1);
    if k == 1 {
      assert Windows(content, 1) == [] + [Window(content, 0)];
      FlattenAppend([], Window(content, 0));
    } else {
      WindowsPrefix(content, k - 1);
      FlattenAppend(Windows(content, k - 1), Window(content, k - 1));
      var m := ChunkEnd(|content|, k - 2);
      assert content[..m] + content[m..e] == content[..e];
    }
  }

  /** Window i lies inside the content and starts where window i - 1 ends. */
  lemma {:induction false} WindowBounds(size: nat, i: nat)
    requires i < NumChunks(size)
    ensures ChunkStart(i) <= ChunkEnd(size, i) <= size
    ensures i == 0 ==> ChunkStart(i) == 0
    ensures i > 0 ==> ChunkEnd(size, i - 1) == ChunkStart(i)
  {
    FallbackWindowsShape(size);
  }

  /** The last window ends at the end of the content. */
  lemma {:induction false} LastWindowEnd(size: nat)
    ensures ChunkEnd(size, NumChunks(size) - 1) == size
  {
    FallbackWindowsShape(size);
  }

  /** Following the fallback description of a non-empty stored object: every
      descriptor downloads its window, and the windows in term order give
      back the whole object. */
  lemma {:induction false} FallbackReconstructsFile(objects: map<string, Bytes>, key: string)
    requires key in objects && |objects[key]| > 0
    ensures var content := objects[key];
            var entries := FallbackEntries(|content|, Presigned(key, None));
            && (forall i :: 0 <= i < NumChunks(|content|) ==> Download(objects, entries[i]) == Some(Window(content, i)))
            && Flatten(Windows(content, NumChunks(|content|))) == content
  {
    FallbackDownloads(objects, key);
    WindowsPrefix(objects[key], NumChunks(|objects[key]|));
  }

  /** An empty file gets one window, whose descriptor asks for bytes 0-0 of
      a zero-length object: a range no byte of it satisfies (section 14.1.1
      of RFC 9110), so the client downloads nothing for the file's one term. */
  lemma EmptyFileFallbackDownloadsNothing(objects: map<string, Bytes>, key: string)
    requires key in objects && objects[key] == []
    ensures var entries := FallbackEntries(0, Presigned(key, None));
            && |entries| == NumChunks(0) == 1
            && entries[0].urlRange == Some(Range(0, 0))
            && Download(objects, entries[0]) == None
  {
  }

  /** Each fallback term downloads its window of the object. */
  lemma {:induction false} FallbackDownloads(objects: map<string, Bytes>, key: string)
    requires key in objects && |objects[key]| > 0
    ensures var content := objects[key];
            var entries := FallbackEntries(|content|, Presigned(key, None));
            forall i :: 0 <= i < NumChunks(|content|) ==> Download(objects, entries[i]) == Some(Window(content, i))
  {
    var content := objects[key];
    var size := |content|;
    FallbackWindowsShape(size);
    forall i | 0 <= i < NumChunks(size)
      ensures Download(objects, FallbackEntries(size, Presigned(key, None))[i]) == Some(Window(content, i))
    {
      assert ChunkStart(i) < ChunkEnd(size, i) <= size;
    }
  }

  // ---------------------------------------------------------------------------
  // The real description: one term per layout row.

  /** Placements resolve to xorb rows. */
  ghost predicate Resolvable(xorbs: map<string, XorbRow>, placements: map<string, Placement>)
  {
    forall h :: h in placements ==> placements[h].xorb in xorbs
  }

  /** Where a block is downloaded from: its byte range inside its xorb when
      it has been placed, otherwise its own object. */
  function BlockUrl(xorbs: map<string, XorbRow>, placements: map<string, Placement>, h: string): Url
    requires Resolvable(xorbs, placements)
  {
    if h in placements then
      var p := placements[h];
      Presigned(xorbs[p.xorb].storageKey, Some(Range(p.offset, p.offset + p.length - 1)))
    else Presigned(BlockKey(h), None)
  }

  function RealEntries(xorbs: map<string, XorbRow>, placements: map<string, Placement>, layout: seq<string>): seq<FetchEntry>
    requires Resolvable(xorbs, placements)
  {
    seq(|layout|, i requires 0 <= i < |layout| => FetchEntry(IndexRange(i, i + 1), BlockUrl(xorbs, placements, layout[i]), None))
  }

  /** `_generate_real_reconstruction`, its parallel URL generation taken in
      layout order: term `i` is layout row `i` with its block's recorded size. */
  method RealReconstruction(store: Store, layout: seq<string>) returns (r: Reconstruction)
    requires store.Valid()
    requires forall i :: 0 <= i < |layout| ==> layout[i] in store.blocks
    ensures Resolvable(store.xorbs, store.placements)
    ensures r.offsetIntoFirstRange == 0
    ensures |r.terms| == |layout|
    ensures forall i :: 0 <= i < |layout| ==> r.terms[i] == Term(layout[i], store.blocks[layout[i]], IndexRange(i, i + 1))
    ensures r.fetchInfo == FetchIndex(layout, RealEntries(store.xorbs, store.placements, layout))
  {
    var blocks, xorbs, placements := store.blocks, store.xorbs, store.placements;
    ghost var entries := RealEntries(xorbs, placements, layout);
    var terms: seq<Term> := [];
    var fetchInfo: map<string, seq<FetchEntry>> := map[];
    var i := 0;
    while i < |layout|
      invariant 0 <= i <= |layout|
      invariant |terms| == i
      invariant forall k :: 0 <= k < i ==> terms[k] == Term(layout[k], blocks[layout[k]], IndexRange(k, k + 1))
      invariant fetchInfo == FetchIndex(layout[..i], entries[..i])
    {
      var blockHash := layout[i];
      var url;
      if blockHash in placements {
        var p := placements[blockHash];
        url := Presigned(xorbs[p.xorb].storageKey, Some(Range(p.offset, p.offset + p.length - 1)));
      } else {
        url := Presigned(BlockKey(blockHash), None);
      }
      terms := terms + [Term(blockHash, blocks[blockHash], IndexRange(i, i + 1))];
      assert entries[i] == FetchEntry(IndexRange(i, i + 1), url, None);
      FetchIndexStep(layout, entries, i);
      fetchInfo := fetchInfo[blockHash := [FetchEntry(IndexRange(i, i + 1), url, None)]];
      i := i + 1;
    }
    assert layout[..|layout|] == layout && entries[..|layout|] == entries;
    r := Reconstruction(0, terms, fetchInfo);
  }

  /** The stored bytes serve block `h` as `bytes`: a placed block's range of
      its xorb object, or an unplaced block's own object. */
  ghost predicate Serves(objects: map<string, Bytes>, xorbs: map<string, XorbRow>, placements: map<string, Placement>,
                         h: string, bytes: Bytes)
    requires Resolvable(xorbs, placements)
  {
    if h in placements then
      var p := placements[h];
      && xorbs[p.xorb].storageKey in objects
      && 0 < p.length && p.offset + p.length <= |objects[xorbs[p.xorb].storageKey]|
      && objects[xorbs[p.xorb].storageKey][p.offset..p.offset + p.length] == bytes
    else BlockKey(h) in objects && objects[BlockKey(h)] == bytes
  }

  /** Following the real description: whichever occurrence of a hash
      `fetch_info` kept, the descriptor found under term `i`'s hash downloads
      that term's block, so the downloads in term order give the file. */
  lemma {:induction false} RealReconstructsFile(objects: map<string, Bytes>, xorbs: map<string, XorbRow>,
                             placements: map<string, Placement>, layout: seq<string>, parts: seq<Bytes>)
    requires Resolvable(xorbs, placements) && |parts| == |layout|
    requires forall i :: 0 <= i < |layout| ==> Serves(objects, xorbs, placements, layout[i], parts[i])
    ensures var m := FetchIndex(layout, RealEntries(xorbs, placements, layout));
            forall i :: 0 <= i < |layout| ==> layout[i] in m && |m[layout[i]]| == 1 && Download(objects, m[layout[i]][0]) == Some(parts[i])
  {
    var entries := RealEntries(xorbs, placements, layout);
    FetchIndexLastWins(layout, entries);
    forall i | 0 <= i < |layout|
      ensures Download(objects, FetchIndex(layout, entries)[layout[i]][0]) == Some(parts[i])
    {
      assert layout[i] in layout;
      var j := LastIndex(layout, layout[i]);
      assert Serves(objects, xorbs, placements, layout[j], parts[j]);
      assert parts[j] == parts[i];
    }
  }

  /** A hash that occurs twice keeps only the later term's descriptor, so the
      earlier term's index range is not among the descriptors. */
  lemma {:induction false} DuplicateKeepsLater(xorbs: map<string, XorbRow>, placements: map<string, Placement>, layout: seq<string>, i: nat, j: nat)
    requires Resolvable(xorbs, placements)
    requires i < j < |layout| && layout[i] == layout[j]
    requires forall l :: j < l < |layout| ==> layout[l] != layout[j]
    ensures var m := FetchIndex(layout, RealEntries(xorbs, placements, layout));
            && layout[i] in m
            && m[layout[i]] == [FetchEntry(IndexRange(j, j + 1), BlockUrl(xorbs, placements, layout[j]), None)]
            && IndexRange(i, i + 1) != m[layout[i]][0].range
  {
    var entries := RealEntries(xorbs, placements, layout);
    FetchIndexLastWins(layout, entries);
    assert layout[j] in layout;
    assert LastIndex(layout, layout[j]) == j;
    assert entries[j] == FetchEntry(IndexRange(j, j + 1), BlockUrl(xorbs, placements, layout[j]), None);
  }

  // ---------------------------------------------------------------------------

  /** The outcome of `get_reconstruction`. */
  datatype Outcome =
    | FileNotFound                 // no file with that digest
    | AccessDenied                 // the caller may not read the repository
    | NotOnMain                    // the object is not on the main branch
    | Built(reconstruction: Reconstruction)

  /** `get_reconstruction`: the file's layout when one is recorded, otherwise
      the fallback over the object on the main branch. The lookup, the read
      check and the branch lookup are inputs. */
  method GetReconstruction(store: Store, file: Option<FileRecord>, readAllowed: bool, physicalKey: Option<string>,
                           sha256Text: string -> string)
    returns (o: Outcome)
    requires store.Valid()
    ensures file == None ==> o == FileNotFound
    ensures file.Some? && !readAllowed ==> o == AccessDenied
    ensures file.Some? && readAllowed && physicalKey == None ==> o == NotOnMain
    ensures file.Some? && readAllowed && physicalKey.Some? ==> o.Built? && o.reconstruction.offsetIntoFirstRange == 0
    ensures o.Built? && file.value.id in store.layouts ==>
              var layout := store.layouts[file.value.id];
              && |o.reconstruction.terms| == |layout|
              && forall i :: 0 <= i < |layout| ==>
                   o.reconstruction.terms[i].hash == layout[i] && o.reconstruction.terms[i].unpackedLength == store.blocks[layout[i]]
    ensures o.Built? && file.value.id in store.layouts ==>
              var layout := store.layouts[file.value.id];
              && Resolvable(store.xorbs, store.placements)
              && (forall i :: 0 <= i < |layout| ==>
                    o.reconstruction.terms[i] == Term(layout[i], store.blocks[layout[i]], IndexRange(i, i + 1)))
              && o.reconstruction.fetchInfo == FetchIndex(layout, RealEntries(store.xorbs, store.placements, layout))
    ensures o.Built? && file.value.id !in store.layouts ==>
              var size := file.value.size;
              && |o.reconstruction.terms| == NumChunks(size)
              && (forall i :: 0 <= i < NumChunks(size) ==>
                    o.reconstruction.terms[i].hash == ChunkHash(file.value.sha256, size, i, sha256Text)
                    && o.reconstruction.terms[i].unpackedLength == ChunkLength(size, i))
              && o.reconstruction.fetchInfo == FetchIndex(FallbackHashes(file.value.sha256, size, sha256Text),
                                                          FallbackEntries(size, Presigned(physicalKey.value, None)))
  {
    if file == None {
      return FileNotFound;
    }
    if !readAllowed {
      return AccessDenied;
    }
    if physicalKey == None {
      return NotOnMain;
    }
    var record := file.value;
    var r;
    if record.id in store.layouts {
      r := RealReconstruction(store, store.layouts[record.id]);
    } else {
      r := ChunkedReconstruction(record.sha256, record.size, Presigned(physicalKey.value, None), sha256Text);
    }
    o := Built(r);
  }
}
