/** How the pieces fit together: a frame built by `EmptyChunk.get_data`
    and placed in a region file by `Region.write` is read back by
    `Region.chunk_data` as the payload it framed, and a chunk `write` leaves
    alone reads back as before. */
module RoundTrip {
  import opened Bytes
  import opened Errors
  import opened RegionFile
  import opened RegionWrite
  import opened RegionWriters
  import opened EmptyChunks

  /** The length field stored at a chunk's first sector. */
  function StoredLength(data: seq<byte>, loc: Location): nat
  {
    BigEndian(Slice(data, loc.offset * SectorSize, loc.offset * SectorSize + 4))
  }

  /** A generated chunk whose recorded length, with its 4-byte prefix, ends
      inside its own sectors, which lie inside the file. */
  predicate Framed(data: seq<byte>, loc: Location)
  {
    && loc != NotGenerated
    && Complete(data, loc)
    && 4 + StoredLength(data, loc) <= loc.sectors * SectorSize
  }

  /** A whole number of sectors covers a sector-aligned length exactly. */
  lemma CeilSectorsExact(n: nat)
    requires n % SectorSize == 0
    ensures CeilSectors(n) * SectorSize == n
  {
    assert n == (n / SectorSize) * SectorSize;
    assert (n + SectorSize - 1) / SectorSize == n / SectorSize;
  }

  /** A frame stored at byte `start` reads back as the payload it
      frames. */
  lemma FrameReadsBack(data: seq<byte>, start: nat, payload: seq<byte>)
    requires GetData(payload).Ok?
    requires var f := GetData(payload).value; start + |f| <= |data| && data[start..start + |f|] == f
    ensures ReadFrame(data, start) == Ok(payload)
  {
    var f := GetData(payload).value;
    FrameLayout(payload);
    SubWindow(data, f, start, 0, 4);
    SubWindow(data, f, start, 4, 1);
    assert data[start + 4] == data[start + 4..start + 5][0];
    SubWindow(data, f, start, 5, |payload|);
  }

  /** Equal windows agree on every sub-window. */
  lemma WindowsAgree(d1: seq<byte>, d2: seq<byte>, s1: nat, s2: nat, n: nat, i: nat, m: nat)
    requires s1 + n <= |d1| && s2 + n <= |d2| && d1[s1..s1 + n] == d2[s2..s2 + n] && i + m <= n
    ensures d1[s1 + i..s1 + i + m] == d2[s2 + i..s2 + i + m]
  {
    SubWindow(d1, d1[s1..s1 + n], s1, i, m);
    SubWindow(d2, d2[s2..s2 + n], s2, i, m);
  }

  /** Frames with the same length field, compression byte and payload
      read alike. */
  lemma ReadFrameAlike(d1: seq<byte>, d2: seq<byte>, s1: nat, s2: nat, len: nat)
    requires s1 + 4 < |d1| && s2 + 4 < |d2|
    requires BigEndian(d1[s1..s1 + 4]) == len == BigEndian(d2[s2..s2 + 4]) && d1[s1 + 4] == d2[s2 + 4]
    requires Slice(d1, s1 + 5, s1 + 4 + len) == Slice(d2, s2 + 5, s2 + 4 + len)
    ensures ReadFrame(d1, s1) == ReadFrame(d2, s2)
  {
  }

  /** Equal windows agree on the length field and the compression byte. */
  lemma HeadsAgree(d1: seq<byte>, d2: seq<byte>, s1: nat, s2: nat, n: nat)
    requires s1 + n <= |d1| && s2 + n <= |d2| && d1[s1..s1 + n] == d2[s2..s2 + n] && 5 <= n
    ensures BigEndian(d1[s1..s1 + 4]) == BigEndian(d2[s2..s2 + 4]) && d1[s1 + 4] == d2[s2 + 4]
  {
    WindowsAgree(d1, d2, s1, s2, n, 0, 4);
    WindowsAgree(d1, d2, s1, s2, n, 4, 1);
    assert d1[s1 + 4] == d1[s1 + 4..s1 + 5][0] && d2[s2 + 4] == d2[s2 + 4..s2 + 5][0];
  }

  /** Equal windows agree on a payload that ends inside them. */
  lemma PayloadsAgree(d1: seq<byte>, d2: seq<byte>, s1: nat, s2: nat, n: nat, len: nat)
    requires s1 + n <= |d1| && s2 + n <= |d2| && d1[s1..s1 + n] == d2[s2..s2 + n] && 4 + len <= n
    ensures Slice(d1, s1 + 5, s1 + 4 + len) == Slice(d2, s2 + 5, s2 + 4 + len)
  {
    if len >= 2 {
      WindowsAgree(d1, d2, s1, s2, n, 5, len - 1);
    }
  }

  /** Two files holding the same n bytes at s1 and at s2, with a frame that
      ends inside them, read the same frame there. */
  lemma SameWindowSameFrame(d1: seq<byte>, d2: seq<byte>, s1: nat, s2: nat, n: nat)
    requires s1 + n <= |d1| && s2 + n <= |d2| && 5 <= n
    requires d1[s1..s1 + n] == d2[s2..s2 + n]
    requires 4 + BigEndian(d1[s1..s1 + 4]) <= n
    ensures ReadFrame(d1, s1) == ReadFrame(d2, s2)
  {
    var len := BigEndian(d1[s1..s1 + 4]);
    HeadsAgree(d1, d2, s1, s2, n);
    PayloadsAgree(d1, d2, s1, s2, n, len);
    ReadFrameAlike(d1, d2, s1, s2, len);
  }

  /** A chunk replaced by a frame from `get_data` reads back from the file
      `write` builds as the payload. */
  lemma WriteThenRead(data: seq<byte>, updates: map<(int, int), Update>, final: seq<byte>, cx: int, cz: int, payload: seq<byte>)
    requires 0 <= cx < 32 && 0 <= cz < 32
    requires WriteAligned(data, updates) && Assemble(WriteSlots(data, updates)) == Ok(final)
    requires GetData(payload).Ok? && WriteUpdateAt(updates, cx, cz) == Some(Replacement(GetData(payload).value))
    ensures ChunkData(final, cx, cz) == Ok(Some(payload))
  {
    var f := GetData(payload).value;
    WriteReadsBack(data, updates, final, cx, cz);
    WriteChunkBytes(data, updates, final, cx, cz);
    var after := ChunkLocation(final, cx, cz).value;
    FrameLayout(payload);
    assert after.sectors == CeilSectors(|f|) > 0;
    CeilSectorsExact(|f|);
    var start := after.offset * SectorSize;
    assert Slice(final, start, start + after.sectors * SectorSize) == f;
    FrameReadsBack(final, start, payload);
  }

  /** Two generated chunks with the same sectors and the same frame inside
      them read back alike, wherever they sit in their files. */
  lemma SameRangeSameData(d1: seq<byte>, d2: seq<byte>, cx: int, cz: int)
    requires ChunkLocation(d1, cx, cz).Ok? && ChunkLocation(d2, cx, cz).Ok?
    requires var l1, l2 := ChunkLocation(d1, cx, cz).value, ChunkLocation(d2, cx, cz).value;
             && Framed(d1, l1) && Complete(d2, l2) && l1.sectors == l2.sectors
             && SectorRange(d1, l1) == SectorRange(d2, l2)
    ensures ChunkData(d1, cx, cz) == ChunkData(d2, cx, cz)
  {
    var l1, l2 := ChunkLocation(d1, cx, cz).value, ChunkLocation(d2, cx, cz).value;
    var s1, s2, n := l1.offset * SectorSize, l2.offset * SectorSize, l1.sectors * SectorSize;
    assert (l1.offset + l1.sectors) * SectorSize == s1 + n;
    assert (l2.offset + l2.sectors) * SectorSize == s2 + n;
    assert d1[s1..s1 + n] == d2[s2..s2 + n] by {
      assert SectorRange(d1, l1) == d1[s1..s1 + n];
      assert SectorRange(d2, l2) == d2[s2..s2 + n];
    }
    assert StoredLength(d1, l1) == BigEndian(d1[s1..s1 + 4]);
    SameWindowSameFrame(d1, d2, s1, s2, n);
  }

  /** A chunk `write` has no update for, whose frame lies inside its
      sectors, reads back from the new file exactly as from the old. */
  lemma WriteKeepsChunk(data: seq<byte>, updates: map<(int, int), Update>, final: seq<byte>, cx: int, cz: int)
    requires 0 <= cx < 32 && 0 <= cz < 32 && (cx, cz) !in updates
    requires WriteAligned(data, updates) && Assemble(WriteSlots(data, updates)) == Ok(final)
    requires ChunkLocation(data, cx, cz).Ok?
    requires var loc := ChunkLocation(data, cx, cz).value; loc == NotGenerated || Framed(data, loc)
    ensures ChunkData(final, cx, cz) == ChunkData(data, cx, cz)
  {
    WriteReadsBack(data, updates, final, cx, cz);
    WriteChunkBytes(data, updates, final, cx, cz);
    var before, after := ChunkLocation(data, cx, cz).value, ChunkLocation(final, cx, cz).value;
    if before != NotGenerated {
      assert after != NotGenerated;
      assert Complete(final, after) by {
        assert |SectorRange(final, after)| == after.sectors * SectorSize;
      }
      SameRangeSameData(data, final, cx, cz);
    }
  }
}
