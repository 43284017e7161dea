/** The aggregation loop of mcblock.py: for each region, in the order the
    partition inserted them, add the chunk count, merge the region's block
    histogram into the running one and append the region's block
    locations. What a region yields comes from `parsemca.MCA`
    (parsemca.py is not part of this model) and is a parameter here. */
module Aggregate {
  import opened Histogram

  type BlockId = string
  type Coord = (int, int, int)

  /** What one region yields: its chunk count (`number_chunks()`), its block
      histogram (`extract_sum_blocks()`) and the locations of the block
      searched for (`find_block_locations`). */
  datatype RegionResult = RegionResult(chunks: nat, blocks: map<BlockId, nat>, locations: seq<Coord>)

  /** Chunk count of the first k regions. */
  function ChunkTotal(rs: seq<RegionResult>, k: nat): nat
    requires k <= |rs|
  {
    if k == 0 then 0 else ChunkTotal(rs, k - 1) + rs[k - 1].chunks
  }

  /** The histograms of the first k regions merged in turn. */
  function MergeAll(rs: seq<RegionResult>, k: nat): map<BlockId, nat>
    requires k <= |rs|
  {
    if k == 0 then map[] else Merge(MergeAll(rs, k - 1), rs[k - 1].blocks)
  }

  /** The locations of the first k regions, one region after the other. */
  function AllLocations(rs: seq<RegionResult>, k: nat): seq<Coord>
    requires k <= |rs|
  {
    if k == 0 then [] else AllLocations(rs, k - 1) + rs[k - 1].locations
  }

  /** The count of block b over the first k regions. */
  function CountIn(rs: seq<RegionResult>, k: nat, b: BlockId): nat
    requires k <= |rs|
  {
    if k == 0 then 0 else CountIn(rs, k - 1, b) + Get(rs[k - 1].blocks, b)
  }

  /** The sum of the totals of the first k region histograms. */
  ghost function TotalsIn(rs: seq<RegionResult>, k: nat): nat
    requires k <= |rs|
  {
    if k == 0 then 0 else TotalsIn(rs, k - 1) + Total(rs[k - 1].blocks)
  }

  // ---------------------------------------------------------------------
  // The loops

  /** `merged` is `blocks` with the counts of `add` added for every key of
      `add` outside `todo`. */
  predicate PartlyMerged(blocks: map<BlockId, nat>, add: map<BlockId, nat>, merged: map<BlockId, nat>, todo: set<BlockId>)
  {
    && todo <= add.Keys
    && merged.Keys == blocks.Keys + (add.Keys - todo)
    && forall k | k in merged :: merged[k] == Get(blocks, k) + (if k in todo then 0 else Get(add, k))
  }

  /** Adding the count of one more key of `add`. */
  lemma PartlyMergedStep(blocks: map<BlockId, nat>, add: map<BlockId, nat>, merged: map<BlockId, nat>, todo: set<BlockId>, b: BlockId)
    requires PartlyMerged(blocks, add, merged, todo) && b in todo
    ensures PartlyMerged(blocks, add, merged[b := Get(merged, b) + add[b]], todo - {b})
  {
  }

  /** Once every key of `add` is done, the result is the merge. */
  lemma PartlyMergedDone(blocks: map<BlockId, nat>, add: map<BlockId, nat>, merged: map<BlockId, nat>)
    requires PartlyMerged(blocks, add, merged, {})
    ensures merged == Merge(blocks, add)
  {
  }

  /** `for block, value in region_blocks.items()`: add each count to the
      running histogram, starting a new key at its value. */
  method MergeInto(blocks: map<BlockId, nat>, add: map<BlockId, nat>) returns (merged: map<BlockId, nat>)
    ensures merged == Merge(blocks, add)
  {
    merged := blocks;
    var todo := add.Keys;
    while todo != {}
      invariant PartlyMerged(blocks, add, merged, todo)
      decreases |todo|
    {
      var b :| b in todo;
      PartlyMergedStep(blocks, add, merged, todo, b);
      if b in merged {
        merged := merged[b := merged[b] + add[b]];
      } else {
        merged := merged[b := add[b]];
      }
      todo := todo - {b};
    }
    PartlyMergedDone(blocks, add, merged);
  }

  /** The loop over `regions.items()`: `number_chunks` accumulates, with
      `--list` each region's histogram is merged in, with `--find` its
      locations are appended. */
  method Aggregate(results: seq<RegionResult>, listing: bool, finding: bool)
    returns (blocks: map<BlockId, nat>, locations: seq<Coord>, numberChunks: nat)
    ensures numberChunks == ChunkTotal(results, |results|)
    ensures blocks == if listing then MergeAll(results, |results|) else map[]
    ensures locations == if finding then AllLocations(results, |results|) else []
  {
    blocks, locations, numberChunks := map[], [], 0;
    for i := 0 to |results|
      invariant numberChunks == ChunkTotal(results, i)
      invariant blocks == if listing then MergeAll(results, i) else map[]
      invariant locations == if finding then AllLocations(results, i) else []
    {
      numberChunks := numberChunks + results[i].chunks;
      if listing {
        blocks := MergeInto(blocks, results[i].blocks);
      }
      if finding {
        locations := locations + results[i].locations;
      }
    }
  }

  /** `sum(blocks.values())`. */
  method SumValues(m: map<BlockId, nat>) returns (s: nat)
    ensures s == Total(m)
  {
    s := 0;
    var rest := m;
    while rest.Keys != {}
      invariant s + Total(rest) == Total(m)
      decreases |rest.Keys|
    {
      var k :| k in rest.Keys;
      TotalRemove(rest, k);
      s := s + rest[k];
      assert (rest - {k}).Keys == rest.Keys - {k};
      rest := rest - {k};
    }
  }

  // ---------------------------------------------------------------------
  // Properties

  /** The merged count of every block is the sum of its counts over the
      regions, and a block is a key exactly when some region saw it. */
  lemma {:induction false} MergeAllCounts(rs: seq<RegionResult>, k: nat, b: BlockId)
    requires k <= |rs|
    ensures Get(MergeAll(rs, k), b) == CountIn(rs, k, b)
    ensures b in MergeAll(rs, k) <==> exists i :: 0 <= i < k && b in rs[i].blocks
  {
    if k > 0 {
      MergeAllCounts(rs, k - 1, b);
      MergeGet(MergeAll(rs, k - 1), rs[k - 1].blocks, b);
    }
  }

  /** The total printed is the sum of the regions' totals. */
  lemma {:induction false} MergeAllTotal(rs: seq<RegionResult>, k: nat)
    requires k <= |rs|
    ensures Total(MergeAll(rs, k)) == TotalsIn(rs, k)
  {
    if k > 0 {
      MergeAllTotal(rs, k - 1);
      TotalMerge(MergeAll(rs, k - 1), rs[k - 1].blocks);
    } else {
      assert MergeAll(rs, 0).Keys == {};
    }
  }

  /** All block streams of the first k regions, one after the other. */
  function Flatten(streams: seq<seq<BlockId>>, k: nat): seq<BlockId>
    requires k <= |streams|
  {
    if k == 0 then [] else Flatten(streams, k - 1) + streams[k - 1]
  }

  /** When each region's histogram counts its block stream, the merged
      histogram counts all streams together. */
  lemma {:induction false} MergeAllOfStreams(rs: seq<RegionResult>, streams: seq<seq<BlockId>>, k: nat)
    requires k <= |rs| == |streams|
    requires forall i {:trigger rs[i]} :: 0 <= i < |rs| ==> rs[i].blocks == HistogramOf(streams[i])
    ensures MergeAll(rs, k) == HistogramOf(Flatten(streams, k))
  {
    if k > 0 {
      var prev, last := Flatten(streams, k - 1), streams[k - 1];
      MergeAllOfStreams(rs, streams, k - 1);
      HistogramConcat(prev, last);
      calc {
        MergeAll(rs, k);
        Merge(MergeAll(rs, k - 1), rs[k - 1].blocks);
        { assert MergeAll(rs, k - 1) == HistogramOf(prev) && rs[k - 1].blocks == HistogramOf(last); }
        Merge(HistogramOf(prev), HistogramOf(last));
        HistogramOf(prev + last);
        { assert prev + last == Flatten(streams, k); }
        HistogramOf(Flatten(streams, k));
      }
    } else {
      assert HistogramOf<BlockId>([]) == map[];
    }
  }

  /** When each region's histogram counts its block stream, the total
      printed is the number of blocks seen. */
  lemma StreamsTotal(rs: seq<RegionResult>, streams: seq<seq<BlockId>>)
    requires |rs| == |streams|
    requires forall i {:trigger rs[i]} :: 0 <= i < |rs| ==> rs[i].blocks == HistogramOf(streams[i])
    ensures Total(MergeAll(rs, |rs|)) == |Flatten(streams, |rs|)|
  {
    MergeAllOfStreams(rs, streams, |rs|);
    TotalHistogram(Flatten(streams, |rs|));
  }

  /** A location is reported exactly when some region reported it. */
  lemma {:induction false} AllLocationsMembers(rs: seq<RegionResult>, k: nat, l: Coord)
    requires k <= |rs|
    ensures l in AllLocations(rs, k) <==> exists i :: 0 <= i < k && l in rs[i].locations
  {
    if k > 0 {
      AllLocationsMembers(rs, k - 1, l);
    }
  }
}
