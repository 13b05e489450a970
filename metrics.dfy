/** Deduplication counters of the CAS service: hits (a block was already
    present), misses (a block had to be uploaded) and the bytes involved. */
module Metrics {

  /** The four counters as one value. */
  datatype Counters = Counters(hits: nat, misses: nat, saved: int, uploaded: int)

  /** The counters after one observation of `size` bytes. */
  function Recorded(c: Counters, hit: bool, size: int): (d: Counters)
    ensures d.hits + d.misses == c.hits + c.misses + 1
    ensures hit ==> d.hits == c.hits + 1 && d.saved == c.saved + size && d.misses == c.misses && d.uploaded == c.uploaded
    ensures !hit ==> d.misses == c.misses + 1 && d.uploaded == c.uploaded + size && d.hits == c.hits && d.saved == c.saved
  {
    if hit then c.(hits := c.hits + 1, saved := c.saved + size)
    else c.(misses := c.misses + 1, uploaded := c.uploaded + size)
  }

  class XetMetrics {
    var dedupHits: nat
    var dedupMisses: nat
    var totalBytesSaved: int
    var totalBytesUploaded: int

    constructor ()
      ensures dedupHits == 0 && dedupMisses == 0
      ensures totalBytesSaved == 0 && totalBytesUploaded == 0
    {
      dedupHits, dedupMisses := 0, 0;
      totalBytesSaved, totalBytesUploaded := 0, 0;
    }

    function Snapshot(): (c: Counters)
      reads this
      ensures c.hits == dedupHits && c.misses == dedupMisses
      ensures c.saved == totalBytesSaved && c.uploaded == totalBytesUploaded
    {
      Counters(dedupHits, dedupMisses, totalBytesSaved, totalBytesUploaded)
    }

    /** Counts one observation: a hit adds to the saved bytes, a miss to the uploaded bytes. */
    method RecordDedup(hit: bool, size: int)
      modifies this
      ensures hit ==> dedupHits == old(dedupHits) + 1 && totalBytesSaved == old(totalBytesSaved) + size
      ensures hit ==> dedupMisses == old(dedupMisses) && totalBytesUploaded == old(totalBytesUploaded)
      ensures !hit ==> dedupMisses == old(dedupMisses) + 1 && totalBytesUploaded == old(totalBytesUploaded) + size
      ensures !hit ==> dedupHits == old(dedupHits) && totalBytesSaved == old(totalBytesSaved)
      ensures dedupHits + dedupMisses == old(dedupHits) + old(dedupMisses) + 1
      ensures Snapshot() == Recorded(old(Snapshot()), hit, size)
      ensures size >= 0 ==> totalBytesSaved >= old(totalBytesSaved) && totalBytesUploaded >= old(totalBytesUploaded)
    {
      if hit {
        dedupHits := dedupHits + 1;
        totalBytesSaved := totalBytesSaved + size;
      } else {
        dedupMisses := dedupMisses + 1;
        totalBytesUploaded := totalBytesUploaded + size;
      }
    }

    /** The share of observations that were hits; 0 before any observation. */
    function GetDedupRatio(): (ratio: real)
      reads this
      ensures 0.0 <= ratio <= 1.0
      ensures dedupHits + dedupMisses == 0 ==> ratio == 0.0
      ensures ratio * (dedupHits + dedupMisses) as real == dedupHits as real
      ensures ratio == 1.0 <==> dedupMisses == 0 && dedupHits > 0
    {
      Ratio(dedupHits, dedupMisses)
    }
  }

  /** A hit never lowers the ratio and a miss never raises it. */
  lemma {:induction false} RatioMonotone(hits: nat, misses: nat)
    requires hits + misses > 0
    ensures Ratio(hits + 1, misses) >= Ratio(hits, misses)
    ensures Ratio(hits, misses + 1) <= Ratio(hits, misses)
  {
    var t := (hits + misses) as real;
    var h := hits as real;
    assert Ratio(hits, misses) == h / t;
    assert Ratio(hits + 1, misses) == (h + 1.0) / (t + 1.0);
    assert Ratio(hits, misses + 1) == h / (t + 1.0);
    assert h <= t;
    assert (h + 1.0) * t >= h * (t + 1.0);
    assert (h + 1.0) / (t + 1.0) >= h / t by {
      assert (h + 1.0) / (t + 1.0) - h / t == ((h + 1.0) * t - h * (t + 1.0)) / (t * (t + 1.0));
    }
    assert h / (t + 1.0) <= h / t by {
      assert h / t - h / (t + 1.0) == h / (t * (t + 1.0));
    }
  }

  /** hits / (hits + misses), and 0 when there is no observation. */
  function Ratio(hits: nat, misses: nat): (r: real)
    ensures 0.0 <= r <= 1.0
    ensures hits + misses == 0 ==> r == 0.0
    ensures r * (hits + misses) as real == hits as real
    ensures r == 1.0 <==> misses == 0 && hits > 0
  {
    if hits + misses == 0 then 0.0
    else
      var t := (hits + misses) as real;
      var r := hits as real / t;
      assert r * t == hits as real;
      assert r == 1.0 ==> hits as real == t;
      assert misses == 0 ==> r == 1.0;
      r
  }
}
