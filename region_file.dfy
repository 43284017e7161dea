/** Reading the Anvil region-file layout (region.py, class Region): the
    4 KiB location header of 1024 four-byte slots and the chunk frames it
    points to. A region file's content is a byte string. */
module RegionFile {
  import opened Bytes
  import opened Errors

  const SectorSize: nat := 4096
  const SlotCount: nat := 1024

  /** Where a chunk lives: its first 4 KiB sector and its length in sectors. */
  datatype Location = Location(offset: nat, sectors: nat)

  /** `(0, 0)`: the chunk has not been generated. */
  const NotGenerated := Location(0, 0)

  /** A region: its coordinates and the content of its file. */
  datatype Region = Region(x: int, z: int, data: seq<byte>)

  /** `header_offset`: the byte offset of a chunk's slot in the header. Chunk
      coordinates are taken modulo 32, so absolute and local coordinates
      address the same slot. */
  function HeaderOffset(cx: int, cz: int): (r: nat)
    ensures r % 4 == 0 && r <= 4092
  {
    4 * (cx % 32 + cz % 32 * 32)
  }

  /** Local chunk (cx, cz) owns slot `cx + 32 * cz`: the header is ordered
      with z as the outer and x as the inner index. */
  lemma HeaderOffsetLocal(cx: int, cz: int)
    requires 0 <= cx < 32 && 0 <= cz < 32
    ensures HeaderOffset(cx, cz) == 4 * (cx + 32 * cz)
  {
  }

  /** Slot k of the z-major walk is chunk (k % 32, k / 32). */
  lemma HeaderOffsetOfSlot(k: nat)
    requires k < SlotCount
    ensures HeaderOffset(k % 32, k / 32) == 4 * k
  {
    assert (k / 32) % 32 == k / 32;
  }

  /** Distinct local chunks own distinct slots. */
  lemma HeaderOffsetInjective(ax: int, az: int, bx: int, bz: int)
    requires 0 <= ax < 32 && 0 <= az < 32 && 0 <= bx < 32 && 0 <= bz < 32
    requires HeaderOffset(ax, az) == HeaderOffset(bx, bz)
    ensures ax == bx && az == bz
  {
    HeaderOffsetLocal(ax, az);
    HeaderOffsetLocal(bx, bz);
  }

  /** Shifting a chunk by whole regions does not move its slot. */
  lemma HeaderOffsetPeriodic(cx: int, cz: int, i: int, j: int)
    ensures HeaderOffset(cx + 32 * i, cz + 32 * j) == HeaderOffset(cx, cz)
  {
    assert (cx + 32 * i) % 32 == cx % 32 by { ModShift(cx, i); }
    assert (cz + 32 * j) % 32 == cz % 32 by { ModShift(cz, j); }
  }

  lemma ModShift(a: int, i: int)
    ensures (a + 32 * i) % 32 == a % 32
  {
    var q := a / 32;
    assert a == 32 * q + a % 32;
    assert a + 32 * i == 32 * (q + i) + a % 32;
  }

  /** `chunk_location`: the 3-byte big-endian sector offset at the chunk's
      slot and the sector count in the byte after it. Reading the count
      raises IndexError when the header is cut short. */
  function ChunkLocation(data: seq<byte>, cx: int, cz: int): (r: Result<Location>)
    ensures r.Err? <==> |data| <= HeaderOffset(cx, cz) + 3
    ensures r.Err? ==> r.error == IndexError
    ensures r.Ok? ==> r.value.offset < Pow256(3) && r.value.sectors < 256
  {
    var b := HeaderOffset(cx, cz);
    if |data| <= b + 3 then Err(IndexError)
    else
      BigEndianBound(data[b..b + 3]);
      Ok(Location(BigEndian(data[b..b + 3]), data[b + 3]))
  }

  /** A slot holding `offset.to_bytes(3) + sectors.to_bytes(1)` reads back as
      that location. */
  lemma ChunkLocationOfEntry(data: seq<byte>, cx: int, cz: int, offset: nat, sectors: nat)
    requires offset < Pow256(3) && sectors < 256
    requires HeaderOffset(cx, cz) + 4 <= |data|
    requires data[HeaderOffset(cx, cz)..HeaderOffset(cx, cz) + 4] == ToBigEndian(offset, 3) + [sectors]
    ensures ChunkLocation(data, cx, cz) == Ok(Location(offset, sectors))
  {
    var b := HeaderOffset(cx, cz);
    assert data[b..b + 3] == data[b..b + 4][..3];
    assert (ToBigEndian(offset, 3) + [sectors])[..3] == ToBigEndian(offset, 3);
    BigEndianRoundTrip(offset, 3);
  }

  /** A slot of four zero bytes reads back as "not generated". */
  lemma ChunkLocationOfZeros(data: seq<byte>, cx: int, cz: int)
    requires HeaderOffset(cx, cz) + 4 <= |data|
    requires data[HeaderOffset(cx, cz)..HeaderOffset(cx, cz) + 4] == Zeros(4)
    ensures ChunkLocation(data, cx, cz) == Ok(NotGenerated)
  {
    var b := HeaderOffset(cx, cz);
    assert data[b..b + 3] == data[b..b + 4][..3];
    BigEndianZeros(data[b..b + 3]);
    assert data[b + 3] == data[b..b + 4][3];
  }

  /** The frame at byte `start`: a 4-byte big-endian length, a compression
      byte, and `length - 1` payload bytes. IndexError when the compression
      byte lies beyond the data, GZipChunkData for compression scheme 1;
      the length and the payload are sliced, so they may come out short. */
  function ReadFrame(data: seq<byte>, start: nat): (r: Result<seq<byte>>)
    ensures r == Err(IndexError) <==> |data| <= start + 4
    ensures r == Err(GZipChunkData) <==> start + 4 < |data| && data[start + 4] == 1
    ensures r.Err? ==> r.error == IndexError || r.error == GZipChunkData
    ensures r.Ok? ==> r.value == Slice(data, start + 5, start + 4 + BigEndian(data[start..start + 4]))
  {
    var length := BigEndian(Slice(data, start, start + 4));
    if |data| <= start + 4 then Err(IndexError)
    else if data[start + 4] == 1 then Err(GZipChunkData)
    else Ok(Slice(data, start + 5, start + 5 + length - 1))
  }

  /** `chunk_data` up to, and not including, decompression: the compressed
      payload of a chunk, None for a chunk not generated, else the frame at
      byte `offset * 4096`. */
  function ChunkData(data: seq<byte>, cx: int, cz: int): (r: Result<Option<seq<byte>>>)
    ensures ChunkLocation(data, cx, cz).Err? ==> r == Err(IndexError)
    ensures r == Ok(None) <==> ChunkLocation(data, cx, cz) == Ok(NotGenerated)
    ensures ChunkLocation(data, cx, cz).Ok? && ChunkLocation(data, cx, cz) != Ok(NotGenerated) ==>
              var f := ReadFrame(data, ChunkLocation(data, cx, cz).value.offset * SectorSize);
              && (f.Err? ==> r == Err(f.error))
              && (f.Ok? ==> r == Ok(Some(f.value)))
  {
    match ChunkLocation(data, cx, cz)
    case Err(e) => Err(e)
    case Ok(loc) =>
      if loc == NotGenerated then Ok(None)
      else
        match ReadFrame(data, loc.offset * SectorSize)
        case Err(e) => Err(e)
        case Ok(payload) => Ok(Some(payload))
  }
}
