/** The block folds of region.py: `list_blocks_from_chunk` counts the block
    ids of one chunk, `find_blocks_from_chunk` collects the absolute
    coordinates of the blocks with a given id, and `list_blocks` and
    `find_blocks` fold those over a list of chunks. Decompressing and
    parsing a chunk (zlib, NBT, `Chunk.stream_chunk`) is the parameter
    `decode`, from a chunk's compressed payload to the ids of its blocks in
    stream order, or to the error a corrupt payload raises; `index_to_coord` is the parameter `coordOf`, from a
    position in that stream to block coordinates inside the chunk. */
module RegionBlocks {
  import opened Bytes
  import opened Errors
  import opened Histogram
  import opened RegionFile

  type BlockId = string
  type Coord = (int, int, int)

  /** Decompressing and parsing a payload into its block ids, in stream
      order; a payload that does not decompress or parse is an error
      (`DecodeError`, or whichever error the decoder reports). */
  type Decoder = seq<byte> -> Result<seq<BlockId>>

  /** The blocks of chunk (cx, cz) of a region: none for a chunk not
      generated, else its decoded payload; the errors of `chunk_data` and
      of decoding. */
  function ChunkBlocks(data: seq<byte>, cx: int, cz: int, decode: Decoder): Result<seq<BlockId>>
  {
    match ChunkData(data, cx, cz)
    case Err(e) => Err(e)
    case Ok(None) => Ok([])
    case Ok(Some(payload)) => decode(payload)
  }

  // ---------------------------------------------------------------------
  // list_blocks_from_chunk / list_blocks

  /** The counting loop of `list_blocks_from_chunk`. */
  method CountBlocks(stream: seq<BlockId>) returns (blocks: map<BlockId, nat>)
    ensures blocks == HistogramOf(stream)
  {
    blocks := map[];
    for i := 0 to |stream|
      invariant blocks == HistogramOf(stream[..i])
    {
      var id := stream[i];
      HistogramSnoc(stream[..i], id);
      assert stream[..i + 1] == stream[..i] + [id];
      if id in blocks {
        blocks := blocks[id := blocks[id] + 1];
      } else {
        blocks := blocks[id := 1];
      }
    }
    assert stream[..|stream|] == stream;
  }

  /** `Region.list_blocks_from_chunk`: the histogram of the chunk's block
      ids, `{}` for a chunk not generated, or the error of reading or
      decoding it. */
  method ListBlocksFromChunk(region: Region, cx: int, cz: int, decode: Decoder)
    returns (r: Result<map<BlockId, nat>>)
    ensures r.Err? <==> ChunkBlocks(region.data, cx, cz, decode).Err?
    ensures r.Err? ==> r.error == ChunkBlocks(region.data, cx, cz, decode).error
    ensures r.Ok? ==> r.value == HistogramOf(ChunkBlocks(region.data, cx, cz, decode).value)
  {
    var nbt := ChunkData(region.data, cx, cz);
    if nbt.Err? {
      return Err(nbt.error);
    }
    if nbt.value.None? {
      return Ok(map[]);
    }
    var stream := decode(nbt.value.value);
    if stream.Err? {
      return Err(stream.error);
    }
    var blocks := CountBlocks(stream.value);
    return Ok(blocks);
  }

  /** The blocks of the first k chunks of a list, one chunk after the
      other; the first chunk that cannot be read is the error. */
  function BlocksOf(data: seq<byte>, chunks: seq<(int, int)>, decode: Decoder, k: nat): Result<seq<BlockId>>
    requires k <= |chunks|
  {
    if k == 0 then Ok([])
    else
      match BlocksOf(data, chunks, decode, k - 1)
      case Err(e) => Err(e)
      case Ok(s) =>
        match ChunkBlocks(data, chunks[k - 1].0, chunks[k - 1].1, decode)
        case Err(e) => Err(e)
        case Ok(t) => Ok(s + t)
  }

  /** One chunk more: its blocks follow the blocks before it, and a chunk
      that cannot be read is the error of the whole list. */
  lemma BlocksStep(data: seq<byte>, chunks: seq<(int, int)>, decode: Decoder, k: nat)
    requires k < |chunks| && BlocksOf(data, chunks, decode, k).Ok?
    ensures var t := ChunkBlocks(data, chunks[k].0, chunks[k].1, decode);
            && (t.Ok? ==> BlocksOf(data, chunks, decode, k + 1) == Ok(BlocksOf(data, chunks, decode, k).value + t.value))
            && (t.Err? ==> BlocksOf(data, chunks, decode, |chunks|) == Err(t.error))
  {
    var t := ChunkBlocks(data, chunks[k].0, chunks[k].1, decode);
    if t.Err? {
      BlocksFailFrom(data, chunks, decode, k + 1, |chunks|);
    }
  }

  /** Once a chunk of the list failed, the list fails with its error. */
  lemma {:induction false} BlocksFailFrom(data: seq<byte>, chunks: seq<(int, int)>, decode: Decoder, j: nat, m: nat)
    requires j <= m <= |chunks| && BlocksOf(data, chunks, decode, j).Err?
    ensures BlocksOf(data, chunks, decode, m) == BlocksOf(data, chunks, decode, j)
  {
    if m > j {
      BlocksFailFrom(data, chunks, decode, j, m - 1);
    }
  }

  /** `Region.list_blocks`: the key-wise sum of the chunks' histograms,
      which is the histogram of all their blocks together. `combine_dicts`
      is taken to be that key-wise sum. */
  method ListBlocks(region: Region, chunks: seq<(int, int)>, decode: Decoder)
    returns (r: Result<map<BlockId, nat>>)
    ensures r.Err? <==> BlocksOf(region.data, chunks, decode, |chunks|).Err?
    ensures r.Err? ==> r.error == BlocksOf(region.data, chunks, decode, |chunks|).error
    ensures r.Ok? ==> r.value == HistogramOf(BlocksOf(region.data, chunks, decode, |chunks|).value)
  {
    var blocks: map<BlockId, nat> := map[];
    for k := 0 to |chunks|
      invariant BlocksOf(region.data, chunks, decode, k).Ok?
      invariant blocks == HistogramOf(BlocksOf(region.data, chunks, decode, k).value)
    {
      var blocksChunk := ListBlocksFromChunk(region, chunks[k].0, chunks[k].1, decode);
      BlocksStep(region.data, chunks, decode, k);
      if blocksChunk.Err? {
        return Err(blocksChunk.error);
      }
      HistogramConcat(BlocksOf(region.data, chunks, decode, k).value, ChunkBlocks(region.data, chunks[k].0, chunks[k].1, decode).value);
      blocks := Merge(blocks, blocksChunk.value);
    }
    return Ok(blocks);
  }

  // ---------------------------------------------------------------------
  // find_blocks_from_chunk / find_blocks

  /** The stream positions below k that hold the block `name`, ascending. */
  function Matches(stream: seq<BlockId>, name: BlockId, k: nat): seq<nat>
    requires k <= |stream|
  {
    if k == 0 then []
    else Matches(stream, name, k - 1) + (if stream[k - 1] == name then [k - 1] else [])
  }

  /** The coordinates `find_blocks_from_chunk` reports for the first k
      blocks of a stream: for each block named `name`, in stream order, its
      position inside the chunk moved by the chunk's base block. */
  function Found(stream: seq<BlockId>, name: BlockId, coordOf: nat -> Coord, baseX: int, baseZ: int, k: nat): seq<Coord>
    requires k <= |stream|
  {
    if k == 0 then []
    else
      Found(stream, name, coordOf, baseX, baseZ, k - 1) +
      (if stream[k - 1] == name then [Offset(coordOf(k - 1), baseX, baseZ)] else [])
  }

  /** `(x + base_x, y, z + base_z)`. */
  function Offset(c: Coord, baseX: int, baseZ: int): Coord
  {
    (c.0 + baseX, c.1, c.2 + baseZ)
  }

  /** The positions found are exactly those holding `name`, in strictly
      ascending order. */
  lemma {:induction false} MatchesExact(stream: seq<BlockId>, name: BlockId, k: nat)
    requires k <= |stream|
    ensures forall i :: i in Matches(stream, name, k) <==> 0 <= i < k && stream[i] == name
    ensures forall a, b :: 0 <= a < b < |Matches(stream, name, k)| ==>
              Matches(stream, name, k)[a] < Matches(stream, name, k)[b]
  {
    if k > 0 {
      MatchesExact(stream, name, k - 1);
      var m := Matches(stream, name, k - 1);
      var last: seq<nat> := if stream[k - 1] == name then [k - 1] else [];
      assert Matches(stream, name, k) == m + last;
      forall i ensures i in m + last <==> 0 <= i < k && stream[i] == name {
        assert i in m + last <==> i in m || i in last;
      }
      forall a, b | 0 <= a < b < |m + last| ensures (m + last)[a] < (m + last)[b] {
        if b >= |m| {
          assert (m + last)[a] == m[a] && m[a] in m;
        }
      }
    }
  }

  /** There are as many positions found as occurrences counted: `find` and
      `list` agree on how many blocks of a kind a chunk holds. */
  lemma {:induction false} MatchesCount(stream: seq<BlockId>, name: BlockId, k: nat)
    requires k <= |stream|
    ensures |Matches(stream, name, k)| == multiset(stream[..k])[name]
  {
    if k > 0 {
      MatchesCount(stream, name, k - 1);
      assert stream[..k] == stream[..k - 1] + [stream[k - 1]];
    }
  }

  /** The j-th coordinate reported is that of the j-th matching position. */
  lemma {:induction false} FoundAtMatches(stream: seq<BlockId>, name: BlockId, coordOf: nat -> Coord, baseX: int, baseZ: int, k: nat)
    requires k <= |stream|
    ensures |Found(stream, name, coordOf, baseX, baseZ, k)| == |Matches(stream, name, k)|
    ensures forall j :: 0 <= j < |Matches(stream, name, k)| ==>
              Found(stream, name, coordOf, baseX, baseZ, k)[j] == Offset(coordOf(Matches(stream, name, k)[j]), baseX, baseZ)
  {
    if k > 0 {
      FoundAtMatches(stream, name, coordOf, baseX, baseZ, k - 1);
    }
  }

  /** The chunk's base block `x * 512 + 16 * cx`, `z * 512 + 16 * cz`,
      with the chunk coordinates as given. */
  function BaseX(region: Region, cx: int): int { region.x * 512 + 16 * cx }
  function BaseZ(region: Region, cz: int): int { region.z * 512 + 16 * cz }

  /** The coordinates found in chunk (cx, cz): none for a chunk not
      generated; the errors of `chunk_data`. */
  function ChunkFound(region: Region, cx: int, cz: int, name: BlockId, decode: Decoder, coordOf: nat -> Coord)
    : Result<seq<Coord>>
  {
    match ChunkBlocks(region.data, cx, cz, decode)
    case Err(e) => Err(e)
    case Ok(s) => Ok(Found(s, name, coordOf, BaseX(region, cx), BaseZ(region, cz), |s|))
  }

  /** The search loop of `find_blocks_from_chunk`. */
  method CollectBlocks(stream: seq<BlockId>, name: BlockId, coordOf: nat -> Coord, baseX: int, baseZ: int)
    returns (locations: seq<Coord>)
    ensures locations == Found(stream, name, coordOf, baseX, baseZ, |stream|)
  {
    locations := [];
    for index := 0 to |stream|
      invariant locations == Found(stream, name, coordOf, baseX, baseZ, index)
    {
      if stream[index] == name {
        var c := coordOf(index);
        locations := locations + [(c.0 + baseX, c.1, c.2 + baseZ)];
      }
    }
  }

  /** `Region.find_blocks_from_chunk`: the absolute coordinates of every
      block named `name` in the chunk, in stream order, `[]` for a chunk
      not generated, or the error of reading it. */
  method FindBlocksFromChunk(region: Region, cx: int, cz: int, name: BlockId,
                             decode: Decoder, coordOf: nat -> Coord)
    returns (r: Result<seq<Coord>>)
    ensures r.Err? <==> ChunkBlocks(region.data, cx, cz, decode).Err?
    ensures r.Err? ==> r.error == ChunkBlocks(region.data, cx, cz, decode).error
    ensures r.Ok? ==> var s := ChunkBlocks(region.data, cx, cz, decode).value;
                      r.value == Found(s, name, coordOf, BaseX(region, cx), BaseZ(region, cz), |s|)
  {
    var nbt := ChunkData(region.data, cx, cz);
    if nbt.Err? {
      return Err(nbt.error);
    }
    if nbt.value.None? {
      return Ok([]);
    }
    var decoded := decode(nbt.value.value);
    if decoded.Err? {
      return Err(decoded.error);
    }
    var stream := decoded.value;
    assert ChunkBlocks(region.data, cx, cz, decode) == Ok(stream);
    var locations := CollectBlocks(stream, name, coordOf, BaseX(region, cx), BaseZ(region, cz));
    return Ok(locations);
  }

  /** The coordinates found in the first k chunks of a list, one chunk
      after the other; the first chunk that cannot be read is the error. */
  function FoundIn(region: Region, chunks: seq<(int, int)>, name: BlockId,
                   decode: Decoder, coordOf: nat -> Coord, k: nat): Result<seq<Coord>>
    requires k <= |chunks|
  {
    if k == 0 then Ok([])
    else
      match FoundIn(region, chunks, name, decode, coordOf, k - 1)
      case Err(e) => Err(e)
      case Ok(s) =>
        match ChunkFound(region, chunks[k - 1].0, chunks[k - 1].1, name, decode, coordOf)
        case Err(e) => Err(e)
        case Ok(t) => Ok(s + t)
  }

  /** One chunk more: its coordinates follow those before it, and a chunk
      that cannot be read is the error of the whole list. */
  lemma FoundStep(region: Region, chunks: seq<(int, int)>, name: BlockId,
                  decode: Decoder, coordOf: nat -> Coord, k: nat)
    requires k < |chunks| && FoundIn(region, chunks, name, decode, coordOf, k).Ok?
    ensures var t := ChunkFound(region, chunks[k].0, chunks[k].1, name, decode, coordOf);
            && (t.Ok? ==> FoundIn(region, chunks, name, decode, coordOf, k + 1) ==
                            Ok(FoundIn(region, chunks, name, decode, coordOf, k).value + t.value))
            && (t.Err? ==> FoundIn(region, chunks, name, decode, coordOf, |chunks|) == Err(t.error))
  {
    var t := ChunkFound(region, chunks[k].0, chunks[k].1, name, decode, coordOf);
    if t.Err? {
      FoundFailFrom(region, chunks, name, decode, coordOf, k + 1, |chunks|);
    }
  }

  /** Once a chunk of the list failed, the list fails with its error. */
  lemma {:induction false} FoundFailFrom(region: Region, chunks: seq<(int, int)>, name: BlockId,
                                         decode: Decoder, coordOf: nat -> Coord, j: nat, m: nat)
    requires j <= m <= |chunks| && FoundIn(region, chunks, name, decode, coordOf, j).Err?
    ensures FoundIn(region, chunks, name, decode, coordOf, m) == FoundIn(region, chunks, name, decode, coordOf, j)
  {
    if m > j {
      FoundFailFrom(region, chunks, name, decode, coordOf, j, m - 1);
    }
  }

  /** `Region.find_blocks`: the chunks' coordinate lists, concatenated in
      the order of the chunks. */
  method FindBlocks(region: Region, chunks: seq<(int, int)>, name: BlockId,
                    decode: Decoder, coordOf: nat -> Coord)
    returns (r: Result<seq<Coord>>)
    ensures r.Err? <==> FoundIn(region, chunks, name, decode, coordOf, |chunks|).Err?
    ensures r.Err? ==> r.error == FoundIn(region, chunks, name, decode, coordOf, |chunks|).error
    ensures r.Ok? ==> r.value == FoundIn(region, chunks, name, decode, coordOf, |chunks|).value
  {
    var locations: seq<Coord> := [];
    for k := 0 to |chunks|
      invariant FoundIn(region, chunks, name, decode, coordOf, k) == Ok(locations)
    {
      var found := FindBlocksFromChunk(region, chunks[k].0, chunks[k].1, name, decode, coordOf);
      FoundStep(region, chunks, name, decode, coordOf, k);
      if found.Err? {
        return Err(found.error);
      }
      locations := locations + found.value;
    }
    return Ok(locations);
  }

  /** `find_blocks` and `list_blocks` agree: the number of coordinates found
      for `name` over a list of chunks is the count `list_blocks` gives
      `name`, and both fail on the same chunk lists. */
  lemma {:induction false} FindMatchesList(region: Region, chunks: seq<(int, int)>, name: BlockId,
                                           decode: Decoder, coordOf: nat -> Coord, k: nat)
    requires k <= |chunks|
    ensures FoundIn(region, chunks, name, decode, coordOf, k).Ok? <==> BlocksOf(region.data, chunks, decode, k).Ok?
    ensures FoundIn(region, chunks, name, decode, coordOf, k).Ok? ==>
              |FoundIn(region, chunks, name, decode, coordOf, k).value| ==
              Get(HistogramOf(BlocksOf(region.data, chunks, decode, k).value), name)
  {
    if k > 0 {
      FindMatchesList(region, chunks, name, decode, coordOf, k - 1);
      var c := chunks[k - 1];
      if FoundIn(region, chunks, name, decode, coordOf, k).Ok? {
        var s := BlocksOf(region.data, chunks, decode, k - 1).value;
        var t := ChunkBlocks(region.data, c.0, c.1, decode).value;
        FoundAtMatches(t, name, coordOf, BaseX(region, c.0), BaseZ(region, c.1), |t|);
        MatchesCount(t, name, |t|);
        assert t[..|t|] == t;
        HistogramGet(s, name);
        HistogramGet(s + t, name);
        assert multiset(s + t) == multiset(s) + multiset(t);
      }
    }
  }
}
