/** Chunking a file and reading it back through its reconstruction: the
    blocks an LFS file is split into, followed through the layout the
    reconstruction endpoint describes, give the file back, and the term
    lengths add up to its size as long as the block table records true
    lengths. */
module RoundTrip {
  import opened Common
  import opened Storage
  import XetUtils
  import Chunker
  import Reconstruction

  /** The layout chunking records for `content`: its blocks' digests in order. */
  function Layout(content: Bytes, sha256: Bytes -> string): seq<string>
  {
    Chunker.Digests(Chunker.Chunks(content, sha256))
  }

  /** The block table after chunking `content` against the table `blocks`. */
  function Registered(blocks: map<string, nat>, content: Bytes, sha256: Bytes -> string): map<string, nat>
  {
    var cs := Chunker.Chunks(content, sha256);
    Chunker.RegisterBlocks(blocks, cs, |cs|)
  }

  /** The unpacked lengths of the terms, in order. */
  function TermLengths(terms: seq<Reconstruction.Term>): (lens: seq<nat>)
    ensures |lens| == |terms| && forall i :: 0 <= i < |terms| ==> lens[i] == terms[i].unpackedLength
  {
    seq(|terms|, i requires 0 <= i < |terms| => terms[i].unpackedLength)
  }

  /** What a client reads by following a reconstruction: for each term in
      order, the download of the descriptor listed under the term's hash. */
  function ReadTerms(objects: map<string, Bytes>, terms: seq<Reconstruction.Term>,
                     info: map<string, seq<Reconstruction.FetchEntry>>): Option<Bytes>
  {
    if terms == [] then Some([])
    else if terms[0].hash !in info || info[terms[0].hash] == [] then None
    else
      match (Reconstruction.Download(objects, info[terms[0].hash][0]), ReadTerms(objects, terms[1..], info))
      case (Some(head), Some(rest)) => Some(head + rest)
      case _ => None
  }

  /** When each term's descriptor downloads one part, the client reads the
      parts concatenated. */
  lemma {:induction false} ReadTermsParts(objects: map<string, Bytes>, terms: seq<Reconstruction.Term>,
                                          info: map<string, seq<Reconstruction.FetchEntry>>, parts: seq<Bytes>)
    requires |parts| == |terms|
    requires forall i :: 0 <= i < |terms| ==> terms[i].hash in info && info[terms[i].hash] != []
    requires forall i :: 0 <= i < |terms| ==> Reconstruction.Download(objects, info[terms[i].hash][0]) == Some(parts[i])
    ensures ReadTerms(objects, terms, info) == Some(Flatten(parts))
  {
    if terms != [] {
      assert terms[0].hash in info && info[terms[0].hash] != [];
      forall i | 0 <= i < |terms| - 1
        ensures terms[1..][i].hash in info && info[terms[1..][i].hash] != []
        ensures Reconstruction.Download(objects, info[terms[1..][i].hash][0]) == Some(parts[1..][i])
      {
        assert terms[1..][i] == terms[i + 1];
      }
      ReadTermsParts(objects, terms[1..], info, parts[1..]);
    }
  }

  /** Chunking `content` and then following the real reconstruction gives
      `content` back. With a collision-free digest and none of the file's
      blocks placed in a xorb yet, each block's own object holds the block's
      bytes after the uploads, and any terms naming the layout's blocks in
      order read back the file. */
  lemma {:induction false} ChunkedFileReadsBack(content: Bytes, sha256: Bytes -> string, objects: map<string, Bytes>,
                                                xorbs: map<string, XorbRow>, placements: map<string, Placement>,
                                                terms: seq<Reconstruction.Term>)
    requires forall a, b :: sha256(a) == sha256(b) ==> a == b
    requires Reconstruction.Resolvable(xorbs, placements)
    requires forall h :: h in Layout(content, sha256) ==> h !in placements
    requires |terms| == |Layout(content, sha256)|
    requires forall i :: 0 <= i < |terms| ==> terms[i].hash == Layout(content, sha256)[i]
    ensures var cs := Chunker.Chunks(content, sha256);
            var stored := Chunker.Uploaded(objects, cs, |cs|);
            forall i :: 0 <= i < |cs| ==> Reconstruction.Serves(stored, xorbs, placements, Layout(content, sha256)[i], cs[i].1)
    ensures var cs := Chunker.Chunks(content, sha256);
            var layout := Layout(content, sha256);
            ReadTerms(Chunker.Uploaded(objects, cs, |cs|), terms,
                      Reconstruction.FetchIndex(layout, Reconstruction.RealEntries(xorbs, placements, layout)))
              == Some(content)
  {
    var cs := Chunker.Chunks(content, sha256);
    var layout := Layout(content, sha256);
    var stored := Chunker.Uploaded(objects, cs, |cs|);
    var parts := seq(|cs|, k requires 0 <= k < |cs| => cs[k].1);
    Chunker.ChunksReassemble(content, sha256);
    Chunker.ChunksSameDigestSameBytes(content, sha256);
    forall i | 0 <= i < |cs|
      ensures Reconstruction.Serves(stored, xorbs, placements, layout[i], parts[i])
    {
      assert layout[i] in layout;
      Chunker.UploadedHolds(objects, cs, |cs|, i);
    }
    Reconstruction.RealReconstructsFile(stored, xorbs, placements, layout, parts);
    var m := Reconstruction.FetchIndex(layout, Reconstruction.RealEntries(xorbs, placements, layout));
    ReadTermsParts(stored, terms, m, parts);
  }

  /** The term lengths of a chunked file add up to its size, provided every
      block already registered under one of its digests records that block's
      length: registration by get-or-create then records each block's own
      length. */
  lemma {:induction false} ChunkedTermLengths(content: Bytes, sha256: Bytes -> string, blocks: map<string, nat>,
                                              terms: seq<Reconstruction.Term>)
    requires forall a, b :: sha256(a) == sha256(b) ==> a == b
    requires Chunker.LengthsRecorded(blocks, Chunker.Chunks(content, sha256), |Chunker.Chunks(content, sha256)|)
    requires |terms| == |Layout(content, sha256)|
    requires forall i :: 0 <= i < |terms| ==> terms[i].hash == Layout(content, sha256)[i]
    requires forall i :: 0 <= i < |terms| && terms[i].hash in Registered(blocks, content, sha256) ==>
               terms[i].unpackedLength == Registered(blocks, content, sha256)[terms[i].hash]
    ensures forall i :: 0 <= i < |terms| ==> terms[i].hash in Registered(blocks, content, sha256)
    ensures Sum(TermLengths(terms)) == |content|
  {
    var cs := Chunker.Chunks(content, sha256);
    Chunker.ChunksReassemble(content, sha256);
    Chunker.ChunksSameDigestSameBytes(content, sha256);
    Chunker.RegisteredLengths(blocks, cs, |cs|);
    var parts := seq(|cs|, k requires 0 <= k < |cs| => cs[k].1);
    FlattenLengths(parts, TermLengths(terms));
  }

  /** The reconstruction the endpoint builds from a chunked file's layout
      reads back the file from the objects after the uploads, and its term
      lengths add up to the file's size when the block table recorded true
      lengths before the chunking. */
  lemma {:induction false} ChunkedFileReconstruction(content: Bytes, sha256: Bytes -> string,
                                                     objects: map<string, Bytes>, blocks: map<string, nat>,
                                                     xorbs: map<string, XorbRow>, placements: map<string, Placement>,
                                                     r: Reconstruction.Reconstruction)
    requires forall a, b :: sha256(a) == sha256(b) ==> a == b
    requires Reconstruction.Resolvable(xorbs, placements)
    requires forall h :: h in Layout(content, sha256) ==> h !in placements
    requires |r.terms| == |Layout(content, sha256)|
    requires forall i :: 0 <= i < |r.terms| ==> r.terms[i].hash == Layout(content, sha256)[i]
    requires forall i :: 0 <= i < |r.terms| && r.terms[i].hash in Registered(blocks, content, sha256) ==>
               r.terms[i].unpackedLength == Registered(blocks, content, sha256)[r.terms[i].hash]
    requires r.fetchInfo == Reconstruction.FetchIndex(Layout(content, sha256),
                              Reconstruction.RealEntries(xorbs, placements, Layout(content, sha256)))
    ensures var cs := Chunker.Chunks(content, sha256);
            ReadTerms(Chunker.Uploaded(objects, cs, |cs|), r.terms, r.fetchInfo) == Some(content)
    ensures Chunker.LengthsRecorded(blocks, Chunker.Chunks(content, sha256), |Chunker.Chunks(content, sha256)|) ==>
              Sum(TermLengths(r.terms)) == |content|
  {
    ChunkedFileReadsBack(content, sha256, objects, xorbs, placements, r.terms);
    if Chunker.LengthsRecorded(blocks, Chunker.Chunks(content, sha256), |Chunker.Chunks(content, sha256)|) {
      ChunkedTermLengths(content, sha256, blocks, r.terms);
    }
  }

  /** Chunking an LFS file and then asking for its reconstruction: once the
      chunking transaction commits a non-empty layout, the reconstruction
      reads back the file, and its term lengths add up to the file's size
      when the block table recorded true lengths before. */
  method ChunkThenReconstruct(store: Store, cache: XetUtils.CacheClient, file: FileRecord,
                              sha256: Bytes -> string, sha256Text: string -> string, physicalKey: string)
    returns (ok: bool, o: Reconstruction.Outcome)
    requires store.Valid() && file.lfs && file.id !in store.layouts && Chunker.LfsKey(file.sha256) in store.objects
    requires forall a, b :: sha256(a) == sha256(b) ==> a == b
    requires forall h :: h in Layout(store.objects[Chunker.LfsKey(file.sha256)], sha256) ==> h !in store.placements
    modifies store, cache
    ensures store.Valid()
    ensures var content := old(store.objects)[Chunker.LfsKey(file.sha256)];
            ok && content != [] ==>
              && o.Built?
              && ReadTerms(store.objects, o.reconstruction.terms, o.reconstruction.fetchInfo) == Some(content)
              && (Chunker.LengthsRecorded(old(store.blocks), Chunker.Chunks(content, sha256), |Chunker.Chunks(content, sha256)|) ==>
                    Sum(TermLengths(o.reconstruction.terms)) == |content|)
  {
    ghost var content := store.objects[Chunker.LfsKey(file.sha256)];
    ghost var objects0, blocks0 := store.objects, store.blocks;
    ok := Chunker.ChunkLfsFile(store, cache, file, sha256);
    o := Reconstruction.GetReconstruction(store, Some(file), true, Some(physicalKey), sha256Text);
    if ok && content != [] {
      Chunker.WindowExists(content, 0);
      ChunkedFileReconstruction(content, sha256, objects0, blocks0, store.xorbs, store.placements, o.reconstruction);
    }
  }

  // ---------------------------------------------------------------------------
  // A block that HEAD registers with size 0

  /** As written, HEAD registers a block found only in object storage (one
      uploaded by a chunking transaction that then rolled back) with size 0,
      and get-or-create keeps that size when the file is chunked again: a
      one-block file of `|content| > 0` bytes is then described by a single
      term of unpacked length 0. */
  lemma {:induction false} HeadZeroSizeSurvivesChunking(blocks: map<string, nat>, content: Bytes, sha256: Bytes -> string)
    requires 0 < |content| <= Chunker.ChunkTargetSize && sha256(content) !in blocks
    ensures Chunker.Chunks(content, sha256) == [(sha256(content), content)]
    ensures Layout(content, sha256) == [sha256(content)]
    ensures Registered(GetOrCreate(blocks, sha256(content), 0), content, sha256)[sha256(content)] == 0 < |content|
    ensures !Chunker.LengthsRecorded(GetOrCreate(blocks, sha256(content), 0), Chunker.Chunks(content, sha256), 1)
  {
    var cs := Chunker.Chunks(content, sha256);
    Chunker.WindowExists(content, 0);
    Chunker.WindowExists(content, 1);
    Chunker.ChunksReassemble(content, sha256);
    assert |cs| == 1;
    assert Chunker.RegisterBlocks(GetOrCreate(blocks, sha256(content), 0), cs, 1)
        == GetOrCreate(GetOrCreate(blocks, sha256(content), 0), cs[0].0, |cs[0].1|);
    assert Flatten(seq(|cs|, k requires 0 <= k < |cs| => cs[k].1)) == cs[0].1 + Flatten([]);
    assert cs == [(sha256(content), content)];
  }

  /** The registration HEAD evidently intends for a block found only in
      object storage: the stored object's length rather than 0. */
  function HeadRegistration(blocks: map<string, nat>, objects: map<string, Bytes>, h: string): (r: map<string, nat>)
    requires XetUtils.BlockKey(h) in objects
    ensures h in r && r.Keys == blocks.Keys + {h}
    ensures h in blocks ==> r == blocks
    ensures h !in blocks ==> r[h] == |objects[XetUtils.BlockKey(h)]|
  {
    GetOrCreate(blocks, h, |objects[XetUtils.BlockKey(h)]|)
  }

  /** Registering with the stored object's length keeps the table's lengths
      true: when the object under a block's key has that digest, every block
      of a file chunked afterwards is recorded with its own length, so the
      file's term lengths add up to its size (`ChunkedTermLengths`). */
  lemma {:induction false} HeadRegistrationKeepsLengths(blocks: map<string, nat>, objects: map<string, Bytes>, h: string,
                                                        content: Bytes, sha256: Bytes -> string)
    requires forall a, b :: sha256(a) == sha256(b) ==> a == b
    requires XetUtils.BlockKey(h) in objects && sha256(objects[XetUtils.BlockKey(h)]) == h
    requires Chunker.LengthsRecorded(blocks, Chunker.Chunks(content, sha256), |Chunker.Chunks(content, sha256)|)
    ensures Chunker.LengthsRecorded(HeadRegistration(blocks, objects, h), Chunker.Chunks(content, sha256),
                                    |Chunker.Chunks(content, sha256)|)
    ensures var cs := Chunker.Chunks(content, sha256);
            var t := Registered(HeadRegistration(blocks, objects, h), content, sha256);
            forall i :: 0 <= i < |cs| ==> cs[i].0 in t && t[cs[i].0] == |cs[i].1|
  {
    var cs := Chunker.Chunks(content, sha256);
    var t0 := HeadRegistration(blocks, objects, h);
    Chunker.ChunksReassemble(content, sha256);
    forall k | 0 <= k < |cs| && cs[k].0 in t0
      ensures t0[cs[k].0] == |cs[k].1|
    {
      if cs[k].0 !in blocks {
        assert cs[k].0 == h;
      }
    }
    Chunker.ChunksSameDigestSameBytes(content, sha256);
    Chunker.RegisteredLengths(t0, cs, |cs|);
  }
}
