/** The persistent state the CAS layer works on: the object-store bucket and
    the database tables of blocks, file layouts, xorbs, block placements and
    shards. Every handler and background job receives this one store. */
module Storage {
  import opened Common

  /** A xorb row: where its bytes are stored and how many there are. */
  datatype XorbRow = XorbRow(storageKey: string, size: nat)

  /** Where a block lives inside a xorb. */
  datatype Placement = Placement(xorb: string, offset: nat, length: nat)

  /** A shard row: where its bytes are stored and the size recorded for it. */
  datatype ShardRow = ShardRow(storageKey: string, size: nat)

  /** The repository file record the chunker and reconstruction read. */
  datatype FileRecord = FileRecord(id: nat, pathInRepo: string, sha256: string, size: nat, lfs: bool)

  /** An inclusive range, as the JSON `{"start", "end"}` objects carry it. */
  datatype Range = Range(start: int, end: int)

  /** A presigned download URL, by what it grants: the object key and, when
      present, the byte range of the `Range` header it was signed with. */
  datatype Url = Presigned(key: string, byteRange: Option<Range>)

  /** What a client gets by following a presigned URL: the whole object, or
      the inclusive byte range `first-last` of it the URL was signed with
      (section 14.1.2 of RFC 9110: a last position past the end is clipped;
      a first position past the end, or a last before the first, is not
      satisfiable). A missing object yields nothing. */
  function Fetch(objects: map<string, Bytes>, url: Url): (r: Option<Bytes>)
    ensures url.key !in objects ==> r == None
    ensures url.key in objects && url.byteRange == None ==> r == Some(objects[url.key])
  {
    if url.key !in objects then None
    else
      var body := objects[url.key];
      match url.byteRange
      case None => Some(body)
      case Some(rg) =>
        if 0 <= rg.start < |body| && rg.start <= rg.end then Some(body[rg.start..Min(rg.end + 1, |body|)])
        else None
  }

  /** Well-formed tables whose foreign keys resolve: every layout is
      non-empty and names registered blocks, and every placement belongs to a
      registered block and an existing xorb. */
  ghost predicate Consistent(blocks: map<string, nat>, layouts: map<nat, seq<string>>,
                             xorbs: map<string, XorbRow>, placements: map<string, Placement>,
                             shards: map<string, ShardRow>)
  {
    (forall f :: f in layouts ==> layouts[f] != []) &&
    (forall f, i :: f in layouts && 0 <= i < |layouts[f]| ==> layouts[f][i] in blocks) &&
    (forall h :: h in placements ==> h in blocks && placements[h].xorb in xorbs)
  }

  /** Registering more blocks keeps every foreign key resolvable. */
  lemma BlocksGrowConsistent(blocks: map<string, nat>, grown: map<string, nat>, layouts: map<nat, seq<string>>,
                             xorbs: map<string, XorbRow>, placements: map<string, Placement>,
                             shards: map<string, ShardRow>)
    requires Consistent(blocks, layouts, xorbs, placements, shards)
    requires blocks.Keys <= grown.Keys
    ensures Consistent(grown, layouts, xorbs, placements, shards)
  { }

  /** A non-empty layout over registered blocks can be recorded. */
  lemma LayoutConsistent(blocks: map<string, nat>, layouts: map<nat, seq<string>>,
                         xorbs: map<string, XorbRow>, placements: map<string, Placement>,
                         shards: map<string, ShardRow>, f: nat, rows: seq<string>)
    requires Consistent(blocks, layouts, xorbs, placements, shards)
    requires rows != [] && forall i :: 0 <= i < |rows| ==> rows[i] in blocks
    ensures Consistent(blocks, layouts[f := rows], xorbs, placements, shards)
  { }

  /** A new xorb row keeps every foreign key resolvable. */
  lemma XorbConsistent(blocks: map<string, nat>, layouts: map<nat, seq<string>>,
                       xorbs: map<string, XorbRow>, placements: map<string, Placement>,
                       shards: map<string, ShardRow>, id: string, row: XorbRow)
    requires Consistent(blocks, layouts, xorbs, placements, shards)
    ensures Consistent(blocks, layouts, xorbs[id := row], placements, shards)
  { }

  /** A placement of a registered block in an existing xorb can be recorded. */
  lemma PlacementConsistent(blocks: map<string, nat>, layouts: map<nat, seq<string>>,
                            xorbs: map<string, XorbRow>, placements: map<string, Placement>,
                            shards: map<string, ShardRow>, h: string, p: Placement)
    requires Consistent(blocks, layouts, xorbs, placements, shards)
    requires h in blocks && p.xorb in xorbs
    ensures Consistent(blocks, layouts, xorbs, placements[h := p], shards)
  { }

  class Store {
    /** The bucket: object key to bytes. A key that is absent cannot be fetched. */
    var objects: map<string, Bytes>
    /** Keys whose upload raises (an unreachable or refusing object store). */
    var failingPuts: set<string>
    /** The block table: digest to recorded size. */
    var blocks: map<string, nat>
    /** The layout table: file id to its blocks in `sequence_order`; a file
        without layout rows has no entry. */
    var layouts: map<nat, seq<string>>
    /** The xorb table by xorb id. */
    var xorbs: map<string, XorbRow>
    /** The placement table by block digest. */
    var placements: map<string, Placement>
    /** The shard table by shard id. */
    var shards: map<string, ShardRow>

    /** The tables are well formed and their foreign keys resolve. */
    ghost predicate Valid()
      reads this
    {
      Consistent(blocks, layouts, xorbs, placements, shards)
    }

    constructor (failingPuts: set<string>)
      ensures Valid() && this.failingPuts == failingPuts
      ensures objects == map[] && blocks == map[] && layouts == map[] && xorbs == map[]
      ensures placements == map[] && shards == map[]
    {
      this.failingPuts := failingPuts;
      objects, layouts, xorbs := map[], map[], map[];
      blocks, placements, shards := map[], map[], map[];
    }

    /** `put_object`: stores the bytes unless the upload of that key raises. */
    method PutObject(key: string, body: Bytes) returns (ok: bool)
      modifies this
      ensures ok <==> key !in failingPuts
      ensures !ok ==> unchanged(this)
      ensures objects == if ok then old(objects)[key := body] else old(objects)
      ensures failingPuts == old(failingPuts) && blocks == old(blocks) && layouts == old(layouts)
      ensures xorbs == old(xorbs) && placements == old(placements) && shards == old(shards)
    {
      ok := key !in failingPuts;
      if ok {
        objects := objects[key := body];
      }
    }
  }
}
